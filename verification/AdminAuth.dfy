/** Admin login: one-time challenges signed by a fixed key, and the sessions they buy. A login takes
  the lock twice, so other calls may come between the check of a challenge and the session. */
module AdminAuth {
  import opened Wrappers
  import opened TtlStores

  const CHALLENGE_TTL := 300_000
  const SESSION_TTL := 3_600_000

  datatype Verdict = Passed | NotConfigured | UnknownChallenge | ChallengeExpired | BadSignature

  class Authenticator {
    const configured: bool
    var challenges: Table<()>
    var sessions: Table<()>

    constructor (configured: bool)
      ensures this.configured == configured && challenges == map[] && sessions == map[]
    {
      this.configured := configured;
      challenges, sessions := map[], map[];
    }

    method EvictExpired(now: int)
      modifies this
      ensures challenges == Swept(old(challenges), now) && sessions == Swept(old(sessions), now)
    {
      challenges := Sweep(challenges, now);
      sessions := Sweep(sessions, now);
    }

    method IssueChallenge(nonce: string, now: int)
      modifies this
      ensures challenges == Swept(old(challenges), now)[nonce := Timed((), now + 300_000)]
      ensures sessions == Swept(old(sessions), now)
    {
      EvictExpired(now);
      challenges := challenges[nonce := Timed((), now + CHALLENGE_TTL)];
    }

    /** The first critical section of a login, and its checks. The challenge is used up whatever they
      say. `signed` says whether the signature on this nonce is the administrator's. */
    method Consume(nonce: string, signed: bool, now: int) returns (v: Verdict)
      modifies this
      ensures v.NotConfigured? <==> !configured
      ensures v.Passed? <==> configured && Lookup(old(challenges), nonce, now).Some? && signed
      ensures v.UnknownChallenge? <==> configured && nonce !in old(challenges)
      ensures v.ChallengeExpired? <==> configured && nonce in old(challenges) && now > old(challenges)[nonce].expires
      ensures v.BadSignature? <==> configured && nonce in old(challenges) && now <= old(challenges)[nonce].expires && !signed
      ensures challenges == if configured then old(challenges) - {nonce} else old(challenges)
      ensures sessions == old(sessions)
    {
      if !configured {
        return NotConfigured;
      }
      if nonce !in challenges {
        assert challenges - {nonce} == challenges;
        return UnknownChallenge;
      }
      var e := challenges[nonce];
      challenges := challenges - {nonce};
      if now > e.expires {
        return ChallengeExpired;
      }
      if !signed {
        return BadSignature;
      }
      v := Passed;
    }

    /** The second critical section: `now` is the reading the login started with. */
    method Mint(token: string, now: int)
      modifies this
      ensures challenges == Swept(old(challenges), now)
      ensures sessions == Swept(old(sessions), now)[token := Timed((), now + 3_600_000)]
    {
      EvictExpired(now);
      sessions := sessions[token := Timed((), now + SESSION_TTL)];
    }

    method ValidSession(token: string, now: int) returns (valid: bool)
      modifies this
      ensures valid <==> token != "" && token in old(sessions) && now <= old(sessions)[token].expires
      ensures challenges == old(challenges)
      ensures sessions == if valid || token == "" then old(sessions) else old(sessions) - {token}
    {
      if token == "" {
        return false;
      }
      if token !in sessions {
        assert sessions - {token} == sessions;
        return false;
      }
      if now > sessions[token].expires {
        sessions := sessions - {token};
        return false;
      }
      valid := true;
    }
  }

  // ---------------------------------------------------------------- logins interleaved

  datatype Login = Login(nonce: string, now: int)

  /** The two tables, and the history: when each nonce was issued, which issued nonces were tried,
    which logins are between their critical sections, and which login each session came from. */
  datatype State = State(challenges: Table<()>, sessions: Table<()>, clock: int, issued: map<string, int>,
                         tried: set<string>, between: map<nat, Login>, calls: nat, minted: map<string, Login>)

  datatype Step =
    | Issue(nonce: string, now: int)
    | Try(nonce: string, signed: bool, now: int)
    | Finish(call: nat, token: string)
    | Check(token: string, now: int)

  /** Nonces and tokens are fresh random values, and the clock does not go back. */
  predicate Possible(s: State, step: Step) {
    match step
    case Issue(nonce, now) => nonce !in s.issued && s.clock <= now
    case Try(_, _, now) => s.clock <= now
    case Finish(call, token) => call in s.between && token !in s.minted && token != ""
    case Check(_, now) => s.clock <= now
  }

  /** Whether a login passes the checks of its first critical section. */
  predicate Passes(s: State, nonce: string, signed: bool, now: int) {
    Lookup(s.challenges, nonce, now).Some? && signed
  }

  predicate Valid(s: State, token: string, now: int) {
    token != "" && Lookup(s.sessions, token, now).Some?
  }

  function Next(s: State, step: Step): State
    requires Possible(s, step)
  {
    match step
    case Issue(nonce, now) =>
      s.(challenges := Swept(s.challenges, now)[nonce := Timed((), now + CHALLENGE_TTL)],
         sessions := Swept(s.sessions, now), clock := now, issued := s.issued[nonce := now])
    case Try(nonce, signed, now) =>
      s.(challenges := s.challenges - {nonce}, clock := now,
         tried := if nonce in s.issued then s.tried + {nonce} else s.tried,
         between := if Passes(s, nonce, signed, now) then s.between[s.calls := Login(nonce, now)] else s.between,
         calls := s.calls + 1)
    case Finish(call, token) =>
      var login := s.between[call];
      s.(challenges := Swept(s.challenges, login.now),
         sessions := Swept(s.sessions, login.now)[token := Timed((), login.now + SESSION_TTL)],
         between := s.between - {call}, minted := s.minted[token := login])
    case Check(token, now) =>
      s.(sessions := if Valid(s, token, now) || token == "" then s.sessions else s.sessions - {token}, clock := now)
  }

  function Initial(clock: int): State {
    State(map[], map[], clock, map[], {}, map[], 0, map[])
  }

  ghost predicate Run(ss: seq<State>, steps: seq<Step>) {
    && |ss| == |steps| + 1 && ss[0] == Initial(ss[0].clock)
    && forall i :: 0 <= i < |steps| ==> Possible(ss[i], steps[i]) && ss[i + 1] == Next(ss[i], steps[i])
  }

  ghost predicate Reachable(s: State) {
    exists ss, steps :: Run(ss, steps) && s == ss[|ss| - 1]
  }

  /** The challenges of a table that is never swept: issued and not yet tried. */
  ghost function Outstanding(s: State): Table<()> {
    map nonce | nonce in s.issued && nonce !in s.tried :: Timed((), s.issued[nonce] + CHALLENGE_TTL)
  }

  ghost function Granted(s: State): Table<()> {
    map token | token in s.minted :: Timed((), s.minted[token].now + SESSION_TTL)
  }

  ghost predicate TablesLag(s: State) {
    Lags(s.challenges, Outstanding(s), s.clock) && Lags(s.sessions, Granted(s), s.clock)
  }

  /** A login that passed used up a nonce of its own, in time. */
  ghost predicate Earned(s: State, login: Login) {
    login.nonce in s.issued && login.nonce in s.tried && login.now <= s.clock &&
    s.issued[login.nonce] <= login.now <= s.issued[login.nonce] + CHALLENGE_TTL
  }

  ghost predicate LoginsOk(s: State) {
    && (forall c: nat :: c in s.between ==> c < s.calls && Earned(s, s.between[c]))
    && (forall t :: t in s.minted ==> Earned(s, s.minted[t]))
    && (forall c: nat, d: nat :: c in s.between && d in s.between && c != d ==> s.between[c].nonce != s.between[d].nonce)
    && (forall t, u :: t in s.minted && u in s.minted && t != u ==> s.minted[t].nonce != s.minted[u].nonce)
    && (forall c: nat, t :: c in s.between && t in s.minted ==> s.between[c].nonce != s.minted[t].nonce)
    && "" !in s.minted && forall nonce :: nonce in s.issued ==> s.issued[nonce] <= s.clock
  }

  lemma LagsAdded(t: Table<()>, kept: Table<()>, clock: int, id: string, e: Timed<()>)
    requires Lags(t, kept, clock)
    ensures Lags(t[id := e], kept[id := e], clock)
  {}

  lemma LagsRemoved(t: Table<()>, kept: Table<()>, clock: int, id: string)
    requires Lags(t, kept, clock)
    ensures Lags(t - {id}, kept - {id}, clock)
  {}

  lemma IssueLags(s: State, nonce: string, now: int)
    requires TablesLag(s) && LoginsOk(s) && s.tried <= s.issued.Keys && Possible(s, Issue(nonce, now))
    ensures TablesLag(Next(s, Issue(nonce, now)))
  {
    var t := Next(s, Issue(nonce, now));
    LagsLater(s.challenges, Outstanding(s), s.clock, now);
    LagsSwept(s.challenges, Outstanding(s), now, now);
    LagsAdded(Swept(s.challenges, now), Outstanding(s), now, nonce, Timed((), now + CHALLENGE_TTL));
    assert Outstanding(t) == Outstanding(s)[nonce := Timed((), now + CHALLENGE_TTL)];
    LagsLater(s.sessions, Granted(s), s.clock, now);
    LagsSwept(s.sessions, Granted(s), now, now);
  }

  lemma TryLags(s: State, nonce: string, signed: bool, now: int)
    requires TablesLag(s) && Possible(s, Try(nonce, signed, now))
    ensures TablesLag(Next(s, Try(nonce, signed, now)))
  {
    var t := Next(s, Try(nonce, signed, now));
    LagsLater(s.challenges, Outstanding(s), s.clock, now);
    LagsLater(s.sessions, Granted(s), s.clock, now);
    LagsRemoved(s.challenges, Outstanding(s), now, nonce);
    assert Outstanding(t) == Outstanding(s) - {nonce};
  }

  lemma FinishLags(s: State, call: nat, token: string)
    requires TablesLag(s) && Possible(s, Finish(call, token)) && s.between[call].now <= s.clock
    ensures TablesLag(Next(s, Finish(call, token)))
  {
    hide Outstanding, Granted, Lags, Swept;
    var now := s.between[call].now;
    LagsSwept(s.challenges, Outstanding(s), s.clock, now);
    LagsSwept(s.sessions, Granted(s), s.clock, now);
    LagsAdded(Swept(s.sessions, now), Granted(s), s.clock, token, Timed((), now + SESSION_TTL));
    FinishTables(s, call, token);
  }

  /** Finishing a login grants one session and leaves the outstanding challenges alone. */
  lemma FinishTables(s: State, call: nat, token: string)
    requires Possible(s, Finish(call, token))
    ensures Outstanding(Next(s, Finish(call, token))) == Outstanding(s)
    ensures Granted(Next(s, Finish(call, token))) == Granted(s)[token := Timed((), s.between[call].now + SESSION_TTL)]
  {
    hide Swept;
  }

  lemma CheckLags(s: State, token: string, now: int)
    requires TablesLag(s) && Possible(s, Check(token, now))
    ensures TablesLag(Next(s, Check(token, now)))
  {
    LagsLater(s.challenges, Outstanding(s), s.clock, now);
    LagsLater(s.sessions, Granted(s), s.clock, now);
  }

  /** A nonce that passes has not been used before. */
  lemma PassingIsNew(s: State, nonce: string, signed: bool, now: int)
    requires TablesLag(s) && LoginsOk(s) && Passes(s, nonce, signed, now)
    ensures nonce in s.issued && nonce !in s.tried && now <= s.issued[nonce] + CHALLENGE_TTL
  {
    assert nonce in Outstanding(s) && s.challenges[nonce] == Outstanding(s)[nonce];
  }

  lemma TryLogins(s: State, nonce: string, signed: bool, now: int)
    requires TablesLag(s) && LoginsOk(s) && Possible(s, Try(nonce, signed, now))
    ensures LoginsOk(Next(s, Try(nonce, signed, now)))
  {
    if Passes(s, nonce, signed, now) {
      PassingIsNew(s, nonce, signed, now);
    }
    hide TablesLag, Lookup;
  }

  lemma FinishLogins(s: State, call: nat, token: string)
    requires LoginsOk(s) && Possible(s, Finish(call, token))
    ensures LoginsOk(Next(s, Finish(call, token)))
  {
    hide Swept;
    var t := Next(s, Finish(call, token));
    forall login | Earned(s, login) ensures Earned(t, login) {}
    hide Earned;
  }

  lemma OtherLogins(s: State, step: Step)
    requires LoginsOk(s) && Possible(s, step) && (step.Issue? || step.Check?)
    ensures LoginsOk(Next(s, step))
  {
    hide Swept, Lookup;
  }

  lemma EarlierReading(s: State, call: nat)
    requires LoginsOk(s) && call in s.between
    ensures s.between[call].now <= s.clock
  {}

  ghost predicate Inv(s: State) {
    TablesLag(s) && LoginsOk(s) && s.tried <= s.issued.Keys
  }

  lemma InvStep(s: State, step: Step)
    requires Inv(s) && Possible(s, step)
    ensures Inv(Next(s, step))
  {
    hide TablesLag, LoginsOk, Swept;
    match step
    case Issue(nonce, now) => IssueLags(s, nonce, now); OtherLogins(s, step);
    case Try(nonce, signed, now) => TryLags(s, nonce, signed, now); TryLogins(s, nonce, signed, now);
    case Finish(call, token) =>
      EarlierReading(s, call);
      FinishLags(s, call, token);
      FinishLogins(s, call, token);
    case Check(token, now) => CheckLags(s, token, now); OtherLogins(s, step);
  }

  lemma {:induction false} RunInv(ss: seq<State>, steps: seq<Step>, k: nat)
    requires Run(ss, steps) && k < |ss|
    ensures Inv(ss[k])
  {
    if k > 0 {
      RunInv(ss, steps, k - 1);
      InvStep(ss[k - 1], steps[k - 1]);
    }
  }

  lemma ReachableInv(s: State)
    requires Reachable(s)
    ensures Inv(s)
  {
    var ss, steps :| Run(ss, steps) && s == ss[|ss| - 1];
    RunInv(ss, steps, |ss| - 1);
  }

  /** Under every interleaving, a login passes exactly when its nonce was issued at most five minutes
    before, nobody has tried it since, and the signature is good. Sweeping never changes that. */
  lemma PassesIff(s: State, nonce: string, signed: bool, now: int)
    requires Reachable(s) && now >= s.clock
    ensures Passes(s, nonce, signed, now) <==>
      nonce in s.issued && nonce !in s.tried && now <= s.issued[nonce] + 300_000 && signed
  {
    ReachableInv(s);
    LagsLater(s.challenges, Outstanding(s), s.clock, now);
    assert nonce in Outstanding(s) <==> nonce in s.issued && nonce !in s.tried;
  }

  /** A token is valid exactly when a login minted it at most an hour before, counted from the reading
    the login started with. */
  lemma ValidIff(s: State, token: string, now: int)
    requires Reachable(s) && now >= s.clock
    ensures Valid(s, token, now) <==> token in s.minted && now <= s.minted[token].now + 3_600_000
  {
    ReachableInv(s);
    LagsLater(s.sessions, Granted(s), s.clock, now);
    assert token in Granted(s) <==> token in s.minted;
  }

  /** Each nonce yields at most one session, by a login within the nonce's five minutes. */
  lemma OneSessionPerNonce(s: State, t: string, u: string)
    requires Reachable(s) && t in s.minted && u in s.minted && s.minted[t].nonce == s.minted[u].nonce
    ensures t == u && s.minted[t].nonce in s.issued
    ensures var issued := s.issued[s.minted[t].nonce]; issued <= s.minted[t].now <= issued + 300_000
  {
    ReachableInv(s);
  }
}
