/** The fast-lane handler's accounting: the credit gate before a job is dispatched, the credit and the
  debit after it, and what that conserves. Amounts are ten-thousandths of a credit. */
module Credits {
  import opened Wrappers
  import opened Pricing
  import opened Ledgers

  const DEFAULT_MAX_TOKENS := 2048

  /** A request and how serving it turns out. The handler reads the queue's backpressure twice: at the
    gate and for the charge. `usage` is the node's count of tokens, if it sends one; `recorded` says
    whether the store can write the debit down. Job IDs may be the clients' own, so they may repeat. */
  datatype Request = Request(jobID: string, user: string, sensitivity: Sensitivity, maxTokens: int, gatePressure: real,
                             node: string, usage: Option<real>, pressure: real, simulated: bool, streamed: bool,
                             wallet: Option<string>, registered: Option<string>, recorded: bool)
  {
    function Limit(): (n: int)
      ensures n > 0
    {
      if maxTokens <= 0 then DEFAULT_MAX_TOKENS else maxTokens
    }

    /** `extractCompletionTokens`, which falls back to the limit; without a count a streamed answer is
      not billed at all. */
    function Tokens(): int {
      if usage.Some? && usage.value > 0.0 then usage.value.Floor else if streamed then 0 else Limit()
    }

    function Estimate(): int { Charge(Fast, sensitivity, Limit(), gatePressure) }
    function Price(): int { Charge(Fast, sensitivity, Tokens(), pressure) }
    function Served(): Work { Work(jobID, node, Fast, sensitivity, Tokens(), simulated, wallet, registered) }
    function Mint(): seq<Credit> { Minted(Served(), Price()) }
  }

  datatype Books = Books(credits: seq<Credit>, debits: seq<Debit>, credited: set<string>)
  {
    function Balance(user: string): int { Earned(credits, user) - Spent(debits, user) }
  }

  // ---------------------------------------------------------------- the handler

  datatype Verdict = Admitted | Unidentified | Insufficient

  /** The credit gate: anonymous callers need the operator's opt-in, known ones a balance that covers
    the estimate. */
  function Gate(allowAnonymous: bool, b: Books, c: Request): Verdict {
    if c.user == "" then if allowAnonymous then Admitted else Unidentified
    else if b.Balance(c.user) < c.Estimate() then Insufficient
    else Admitted
  }

  /** A node served tokens. */
  predicate Creditable(c: Request) {
    c.node != "" && c.Tokens() > 0
  }

  /** The completion credits its job: the job ID is new. */
  predicate Credits(b: Books, c: Request) {
    Creditable(c) && c.jobID !in b.credited
  }

  function Claimed(b: Books, c: Request): Books {
    if Credits(b, c) then b.(credited := b.credited + {c.jobID}) else b
  }

  function Mark(b: Books, c: Request): Option<string> {
    if Credits(b, c) then Some(c.jobID) else None
  }

  function Due(b: Books, c: Request): seq<Credit> {
    if Credits(b, c) then c.Mint() else []
  }

  function Credited(b: Books, c: Request): Books {
    Claimed(b, c).(credits := b.credits + Due(b, c))
  }

  /** The debit goes through: there is a user and something to bill, the balance covers it, and it can
    be recorded. */
  predicate Pays(b: Books, c: Request) {
    c.user != "" && (c.streamed ==> c.Tokens() > 0) && c.Price() <= b.Balance(c.user) && c.recorded
  }

  function Paid(b: Books, c: Request): Books {
    if Pays(b, c) then b.(debits := b.debits + [Debit(c.user, c.Price(), c.jobID)]) else b
  }

  /** The balance counts what this completion has just credited. */
  predicate Debits(b: Books, c: Request) {
    Pays(Credited(b, c), c)
  }

  function After(b: Books, c: Request): Books {
    Paid(Credited(b, c), c)
  }

  /** What is billed: the node's count, cut to a whole number, if it sends a positive one; without it
    nothing for a streamed answer, and for a buffered one the limit, which is 2048 unless the request sets
    a positive one. */
  lemma BilledTokens(c: Request)
    ensures c.usage.Some? && c.usage.value > 0.0 ==> c.Tokens() as real <= c.usage.value < c.Tokens() as real + 1.0
    ensures (c.usage.None? || c.usage.value <= 0.0) && c.streamed ==> c.Tokens() == 0
    ensures (c.usage.None? || c.usage.value <= 0.0) && !c.streamed ==> c.Tokens() == if c.maxTokens > 0 then c.maxTokens else 2048
    ensures c.Price() == Charge(Fast, c.sensitivity, c.Tokens(), c.pressure)
  {}

  class Accounting {
    const ledger: Ledger
    const allowAnonymous: bool
    var creditedJobs: set<string>

    function View(): Books
      reads this, ledger
    {
      Books(ledger.credits, ledger.debits, creditedJobs)
    }

    constructor (ledger: Ledger, allowAnonymous: bool)
      ensures this.ledger == ledger && this.allowAnonymous == allowAnonymous && creditedJobs == {}
    {
      this.ledger, this.allowAnonymous := ledger, allowAnonymous;
      creditedJobs := {};
    }

    /** The gate, before anything is dispatched. */
    method Admit(c: Request) returns (v: Verdict)
      ensures v == Gate(allowAnonymous, View(), c)
      ensures v.Unidentified? <==> c.user == "" && !allowAnonymous
      ensures var limit := if c.maxTokens <= 0 then 2048 else c.maxTokens;
        var balance := Earned(ledger.credits, c.user) - Spent(ledger.debits, c.user);
        v.Insufficient? <==> c.user != "" && balance < Charge(Fast, c.sensitivity, limit, c.gatePressure)
    {
      var maxTok := c.maxTokens;
      if maxTok <= 0 {
        maxTok := DEFAULT_MAX_TOKENS;
      }
      if c.user == "" && !allowAnonymous {
        return Unidentified;
      }
      if c.user != "" {
        var estimated := Charge(Fast, c.sensitivity, maxTok, c.gatePressure);
        var balance := ledger.Balance(c.user);
        if balance < estimated {
          return Insufficient;
        }
      }
      v := Admitted;
    }

    /** The accounting at the end of a request. */
    method Complete(c: Request)
      modifies this, ledger
      ensures View() == After(old(View()), c)
      // spelled out: the job is paid for once, if a node served tokens; and the user is charged, if there is
      // one, something to bill, a balance that covers it, and a store that takes it
      ensures var pays := c.node != "" && c.Tokens() > 0 && c.jobID !in old(creditedJobs);
        && creditedJobs == (if pays then old(creditedJobs) + {c.jobID} else old(creditedJobs))
        && ledger.credits == old(ledger.credits) + if pays then Minted(c.Served(), c.Price()) else []
      ensures var charged := c.user != "" && (!c.streamed || c.Tokens() > 0) && c.recorded &&
                             c.Price() <= Earned(ledger.credits, c.user) - Spent(old(ledger.debits), c.user);
        ledger.debits == old(ledger.debits) + if charged then [Debit(c.user, c.Price(), c.jobID)] else []
    {
      hide Earned, Spent, Minted, Charge;
      var observed := c.Tokens();
      var actualCost := Charge(Fast, c.sensitivity, observed, c.pressure);
      if c.node != "" && observed > 0 {
        if c.jobID !in creditedJobs {
          creditedJobs := creditedJobs + {c.jobID};
          ledger.CreditNodeEarning(c.Served(), actualCost);
        }
      }
      assert View() == Credited(old(View()), c);
      if c.user != "" && (!c.streamed || observed > 0) {
        var ok := ledger.DebitAccount(c.user, actualCost, c.jobID, c.recorded);
      }
    }
  }

  // ---------------------------------------------------------------- requests interleaved

  /** Requests are handled concurrently, and only single calls are atomic: the gate's reading of the
    balance, marking the job as credited, each credit, and the debit. A dispatch may also fail. */
  datatype Event = Enter(k: nat) | Abandon(k: nat) | Claim(k: nat) | Post(k: nat) | Settle(k: nat)

  /** Where a request stands: not at the desk; past the gate; or in its accounting, with the job ID it
    has marked as credited, if any, the credits already written and those still to be written. */
  datatype Stage = Away | Gated | Owed(claimed: Option<string>, posted: seq<Credit>, rest: seq<Credit>)

  /** A completed request, whether its job was credited and whether its debit went through. */
  datatype Outcome = Outcome(request: Request, credited: bool, paid: bool)

  datatype Desk = Desk(books: Books, stages: seq<Stage>, done: seq<Outcome>)
  {
    predicate Idle() { forall k :: 0 <= k < |stages| ==> stages[k].Away? }
  }

  predicate Possible(allow: bool, cs: seq<Request>, d: Desk, e: Event) {
    e.k < |cs| == |d.stages| &&
    match e
    case Enter(k) => d.stages[k].Away? && Gate(allow, d.books, cs[k]).Admitted?
    case Abandon(k) => d.stages[k].Gated?
    case Claim(k) => d.stages[k].Gated?
    case Post(k) => d.stages[k].Owed? && d.stages[k].rest != []
    case Settle(k) => d.stages[k].Owed? && d.stages[k].rest == []
  }

  function Next(allow: bool, cs: seq<Request>, d: Desk, e: Event): Desk
    requires Possible(allow, cs, d, e)
  {
    var c, b := cs[e.k], d.books;
    match e
    case Enter(k) => d.(stages := d.stages[k := Gated])
    case Abandon(k) => d.(stages := d.stages[k := Away])
    case Claim(k) => d.(books := Claimed(b, c), stages := d.stages[k := Owed(Mark(b, c), [], Due(b, c))])
    case Post(k) =>
      var s := d.stages[k];
      d.(books := b.(credits := b.credits + [s.rest[0]]),
         stages := d.stages[k := Owed(s.claimed, s.posted + [s.rest[0]], s.rest[1..])])
    case Settle(k) =>
      Desk(Paid(b, c), d.stages[k := Away], d.done + [Outcome(c, d.stages[k].claimed.Some?, Pays(b, c))])
  }

  function Opening(b0: Books, n: nat): Desk {
    Desk(b0, seq(n, _ => Away), [])
  }

  /** Events that are not possible are left out of a run. */
  function DeskAfter(allow: bool, b0: Books, cs: seq<Request>, es: seq<Event>): (d: Desk)
    ensures |d.stages| == |cs|
  {
    if es == [] then Opening(b0, |cs|) else
      var d := DeskAfter(allow, b0, cs, es[..|es| - 1]);
      if Possible(allow, cs, d, es[|es| - 1]) then Next(allow, cs, d, es[|es| - 1]) else d
  }

  // What open requests owe

  /** The credits written and to be written for a request are what its job mints. */
  ghost predicate StageOk(c: Request, s: Stage) {
    s.Owed? ==> s.posted + s.rest == (if s.claimed.Some? then c.Mint() else []) &&
                (s.claimed.Some? ==> s.claimed.value == c.jobID && Creditable(c))
  }

  ghost predicate StagesOk(cs: seq<Request>, d: Desk) {
    |d.stages| == |cs| && forall k :: 0 <= k < |cs| ==> StageOk(cs[k], d.stages[k])
  }

  lemma StageStep(allow: bool, cs: seq<Request>, d: Desk, e: Event)
    requires StagesOk(cs, d) && Possible(allow, cs, d, e)
    ensures StagesOk(cs, Next(allow, cs, d, e))
  {
    hide Minted, Gate, Pays, Charge;
    var s, t := d.stages[e.k], Next(allow, cs, d, e).stages[e.k];
    assert StageOk(cs[e.k], s);
    if e.Post? {
      assert s.posted + s.rest == t.posted + t.rest;
    }
    assert StageOk(cs[e.k], t);
  }

  lemma {:induction false} StagesAreOk(allow: bool, b0: Books, cs: seq<Request>, es: seq<Event>)
    ensures StagesOk(cs, DeskAfter(allow, b0, cs, es))
  {
    if es != [] {
      hide Next, Possible, StageOk;
      var d, e := DeskAfter(allow, b0, cs, es[..|es| - 1]), es[|es| - 1];
      StagesAreOk(allow, b0, cs, es[..|es| - 1]);
      if Possible(allow, cs, d, e) {
        StageStep(allow, cs, d, e);
      }
    }
  }

  function Total(f: Stage -> int, stages: seq<Stage>): int {
    if stages == [] then 0 else Total(f, stages[..|stages| - 1]) + f(stages[|stages| - 1])
  }

  lemma {:induction false} TotalUpdate(f: Stage -> int, stages: seq<Stage>, k: nat, s: Stage)
    requires k < |stages|
    ensures Total(f, stages[k := s]) == Total(f, stages) - f(stages[k]) + f(s)
  {
    var n := |stages| - 1;
    if k < n {
      TotalUpdate(f, stages[..n], k, s);
      assert stages[k := s][..n] == stages[..n][k := s];
    } else {
      assert stages[k := s][..n] == stages[..n];
    }
  }

  lemma {:induction false} TotalOfNone(f: Stage -> int, stages: seq<Stage>)
    requires f(Away) == 0 && forall k :: 0 <= k < |stages| ==> stages[k].Away?
    ensures Total(f, stages) == 0
  {
    if stages != [] {
      TotalOfNone(f, stages[..|stages| - 1]);
    }
  }

  function PostedOf(s: Stage): int { if s.Owed? then CreditTotal(s.posted) else 0 }

  // ---------------------------------------------------------------- conservation

  /** What the handler mints for a job on a real node is exactly what it charges. */
  lemma MintIsPrice(c: Request)
    ensures CreditTotal(c.Mint()) == if c.simulated then 0 else c.Price()
    ensures forall e :: e in c.Mint() ==> e.amount >= 0
  {
    MintedTotal(c.Served(), c.Price());
    ChargeWithinSpread(Fast, c.sensitivity, c.Tokens(), c.pressure);
    hide Minted, Charge;
  }

  /** Charges of requests that were credited and not debited: anonymous users, and debits that the
    balance or the store refused. */
  function Uncollected(done: seq<Outcome>): int {
    if done == [] then 0 else
      var o := done[|done| - 1];
      Uncollected(done[..|done| - 1]) + if o.credited && !o.request.simulated && !o.paid then o.request.Price() else 0
  }

  /** Charges of requests that were debited and credited to nobody: a job ID seen before, a simulated
    node, or no node or tokens to credit. */
  function Unearned(done: seq<Outcome>): int {
    if done == [] then 0 else
      var o := done[|done| - 1];
      Unearned(done[..|done| - 1]) + if o.paid && !(o.credited && !o.request.simulated) then o.request.Price() else 0
  }

  function ChargedFor(done: seq<Outcome>): int {
    if done == [] then 0 else ChargedFor(done[..|done| - 1]) + done[|done| - 1].request.Price()
  }

  /** The credits of completed requests, and of the time before. */
  function Held(d: Desk): int { CreditTotal(d.books.credits) - Total(PostedOf, d.stages) }

  lemma OneCredit(cs: seq<Credit>, x: Credit)
    ensures CreditTotal(cs + [x]) == CreditTotal(cs) + x.amount
  {
    assert (cs + [x])[..|cs|] == cs;
  }

  lemma OneDebit(b: Books, c: Request, user: string)
    ensures DebitTotal(Paid(b, c).debits) == DebitTotal(b.debits) + if Pays(b, c) then c.Price() else 0
    ensures Spent(Paid(b, c).debits, user) == Spent(b.debits, user) + if Pays(b, c) && user == c.user then c.Price() else 0
  {
    hide Charge, Pays;
    var d := [Debit(c.user, c.Price(), c.jobID)];
    assert (b.debits + d)[..|b.debits|] == b.debits;
  }

  /** Credits and debits of completed requests change only when one completes: by its price or not at
    all. */
  lemma StepTotals(allow: bool, cs: seq<Request>, d: Desk, e: Event)
    requires StagesOk(cs, d) && Possible(allow, cs, d, e)
    ensures var t, c := Next(allow, cs, d, e), cs[e.k];
      && Held(t) == Held(d) + (if e.Settle? && d.stages[e.k].claimed.Some? && !c.simulated then c.Price() else 0)
      && DebitTotal(t.books.debits) == DebitTotal(d.books.debits) + if e.Settle? && Pays(d.books, c) then c.Price() else 0
  {
    hide Minted, Charge, Pays, Gate, Paid;
    var s, t := d.stages[e.k], Next(allow, cs, d, e).stages[e.k];
    assert StageOk(cs[e.k], s);
    TotalUpdate(PostedOf, d.stages, e.k, t);
    if e.Post? {
      OneCredit(d.books.credits, s.rest[0]);
      OneCredit(s.posted, s.rest[0]);
    } else if e.Settle? {
      OneDebit(d.books, cs[e.k], "");
      PaidKeepsCredits(d.books, cs[e.k]);
      MintIsPrice(cs[e.k]);
      assert s.posted + [] == s.posted;
    }
  }

  lemma PaidKeepsCredits(b: Books, c: Request)
    ensures Paid(b, c).credits == b.credits && Paid(b, c).credited == b.credited
  {}

  /** No balance falls below zero, and only a user's own debit lowers it. */
  lemma StepBalance(allow: bool, cs: seq<Request>, d: Desk, e: Event, user: string)
    requires StagesOk(cs, d) && Possible(allow, cs, d, e)
    ensures var b, c := Next(allow, cs, d, e).books.Balance(user), cs[e.k];
      && (d.books.Balance(user) >= 0 ==> b >= 0)
      && (b < d.books.Balance(user) ==> e.Settle? && c.user == user && user != "")
  {
    hide Minted, Charge, Gate;
    var c := cs[e.k];
    assert StageOk(c, d.stages[e.k]);
    MintIsPrice(c);
    if e.Post? {
      var x := d.stages[e.k].rest[0];
      assert x in d.stages[e.k].posted + d.stages[e.k].rest;
      EarnedOne(d.books.credits, x, user);
    } else if e.Settle? {
      OneDebit(d.books, c, user);
      ChargeWithinSpread(Fast, c.sensitivity, c.Tokens(), c.pressure);
    }
  }

  lemma EarnedOne(cs: seq<Credit>, x: Credit, user: string)
    ensures Earned(cs + [x], user) == Earned(cs, user) + if x.user == user then x.amount else 0
  {
    assert (cs + [x])[..|cs|] == cs;
  }

  ghost predicate Balanced(b0: Books, d: Desk) {
    && Held(d) - CreditTotal(b0.credits) - (DebitTotal(d.books.debits) - DebitTotal(b0.debits))
       == Uncollected(d.done) - Unearned(d.done)
    && Held(d) - CreditTotal(b0.credits) <= ChargedFor(d.done)
  }

  lemma BalancedStep(allow: bool, b0: Books, cs: seq<Request>, d: Desk, e: Event)
    requires StagesOk(cs, d) && Possible(allow, cs, d, e) && Balanced(b0, d)
    ensures Balanced(b0, Next(allow, cs, d, e))
  {
    StepTotals(allow, cs, d, e);
    StepDone(allow, cs, d, e);
    if e.Settle? {
      var o := Outcome(cs[e.k], d.stages[e.k].claimed.Some?, Pays(d.books, cs[e.k]));
      PriceNotNegative(cs[e.k]);
      hide Next, Charge, Pays, Gate, Held, CreditTotal, DebitTotal, Paid, StagesOk, Possible, Balanced;
      BalancedLonger(b0, d, Next(allow, cs, d, e), o);
    } else {
      hide Next, Charge, Pays, Gate, Held, CreditTotal, DebitTotal, Paid, StagesOk, Uncollected, Unearned, ChargedFor, Possible;
    }
  }

  lemma BalancedLonger(b0: Books, d: Desk, t: Desk, o: Outcome)
    requires Balanced(b0, d) && t.done == d.done + [o] && o.request.Price() >= 0
    requires Held(t) == Held(d) + if o.credited && !o.request.simulated then o.request.Price() else 0
    requires DebitTotal(t.books.debits) == DebitTotal(d.books.debits) + if o.paid then o.request.Price() else 0
    ensures Balanced(b0, t)
  {
    OneOutcome(d.done, o);
    hide Charge, Held, CreditTotal, DebitTotal, Uncollected, Unearned, ChargedFor;
  }

  lemma StepDone(allow: bool, cs: seq<Request>, d: Desk, e: Event)
    requires Possible(allow, cs, d, e)
    ensures !e.Settle? ==> Next(allow, cs, d, e).done == d.done
    ensures var o := Outcome(cs[e.k], e.Settle? && d.stages[e.k].claimed.Some?, Pays(d.books, cs[e.k]));
      e.Settle? ==> Next(allow, cs, d, e).done == d.done + [o]
  {
    hide Pays, Paid, Claimed, Due, Gate;
  }

  lemma OneOutcome(done: seq<Outcome>, o: Outcome)
    ensures var p, more := o.request.Price(), done + [o];
      && Uncollected(more) == Uncollected(done) + (if o.credited && !o.request.simulated && !o.paid then p else 0)
      && Unearned(more) == Unearned(done) + (if o.paid && !(o.credited && !o.request.simulated) then p else 0)
      && ChargedFor(more) == ChargedFor(done) + p
  {
    assert (done + [o])[..|done|] == done;
  }

  lemma PriceNotNegative(c: Request)
    ensures c.Price() >= 0 && (c.Tokens() > 0 ==> c.Price() > 0)
  {
    ChargeWithinSpread(Fast, c.sensitivity, c.Tokens(), c.pressure);
    if c.Tokens() > 0 {
      RewardBelowCost(Fast, c.sensitivity, c.Tokens());
    }
  }

  /** Over every interleaving, the credits of completed requests less the debits are the uncollected
    charges less the unearned ones, and credits stay within charges. */
  lemma {:induction false} BooksBalance(allow: bool, b0: Books, cs: seq<Request>, es: seq<Event>)
    ensures Balanced(b0, DeskAfter(allow, b0, cs, es))
  {
    if es == [] {
      TotalOfNone(PostedOf, Opening(b0, |cs|).stages);
    } else {
      hide Next, Possible, Balanced;
      var d, e := DeskAfter(allow, b0, cs, es[..|es| - 1]), es[|es| - 1];
      BooksBalance(allow, b0, cs, es[..|es| - 1]);
      StagesAreOk(allow, b0, cs, es[..|es| - 1]);
      if Possible(allow, cs, d, e) {
        BalancedStep(allow, b0, cs, d, e);
      }
    }
  }

  /** No interleaving takes a balance below zero. */
  lemma {:induction false} NoOverdraft(allow: bool, b0: Books, cs: seq<Request>, es: seq<Event>, user: string)
    requires b0.Balance(user) >= 0
    ensures DeskAfter(allow, b0, cs, es).books.Balance(user) >= 0
  {
    if es != [] {
      hide Next, Possible, Earned, Spent;
      var d, e := DeskAfter(allow, b0, cs, es[..|es| - 1]), es[|es| - 1];
      NoOverdraft(allow, b0, cs, es[..|es| - 1], user);
      StagesAreOk(allow, b0, cs, es[..|es| - 1]);
      if Possible(allow, cs, d, e) {
        StepBalance(allow, cs, d, e, user);
      }
    }
  }

  ghost predicate NobodyAnonymous(cs: seq<Request>, d: Desk) {
    && (forall k :: 0 <= k < |cs| == |d.stages| && !d.stages[k].Away? ==> cs[k].user != "")
    && (forall o :: o in d.done ==> o.request.user != "")
  }

  /** Without the operator's opt-in no request that passes the gate is anonymous. */
  lemma {:induction false} AnonymousOnlyOptedIn(b0: Books, cs: seq<Request>, es: seq<Event>)
    ensures NobodyAnonymous(cs, DeskAfter(false, b0, cs, es))
  {
    if es != [] {
      hide Paid, Claimed, Due, Pays;
      AnonymousOnlyOptedIn(b0, cs, es[..|es| - 1]);
    }
  }

  lemma CreditedBalance(b: Books, c: Request, user: string)
    ensures Credited(b, c).Balance(user) == b.Balance(user) + if Credits(b, c) then Earned(c.Mint(), user) else 0
    ensures 0 <= Earned(c.Mint(), user)
  {
    hide Minted, Charge;
    EarnedAppend(b.credits, Due(b, c), user);
    assert Earned([], user) == 0;
    MintIsPrice(c);
    EarnedNonNegative(c.Mint(), user);
  }

  lemma DebitKeepsBalance(b: Books, c: Request, user: string)
    requires Credited(b, c).Balance(user) >= 0
    ensures After(b, c).Balance(user) >= 0
    ensures Debits(b, c) ==> After(b, c).Balance(c.user) == Credited(b, c).Balance(c.user) - c.Price()
  {
    hide Charge, Minted;
    var d := [Debit(c.user, c.Price(), c.jobID)];
    var t := Credited(b, c);
    assert (t.debits + d)[..|t.debits|] == t.debits;
  }

  // ---------------------------------------------------------------- when a request mints unpaid

  /** The completion credits its price and debits nobody. */
  predicate Unpaid(b: Books, c: Request) {
    Credits(b, c) && !c.simulated && !Debits(b, c)
  }

  /** A completion in one go: credits grow by the charge or not at all, and so do debits. */
  lemma CompleteTotals(b: Books, c: Request)
    ensures CreditTotal(After(b, c).credits) ==
      CreditTotal(b.credits) + if Credits(b, c) && !c.simulated then c.Price() else 0
    ensures DebitTotal(After(b, c).debits) == DebitTotal(b.debits) + if Debits(b, c) then c.Price() else 0
  {
    hide Minted, Charge, Pays;
    CreditTotalAppend(b.credits, Due(b, c));
    assert CreditTotal([]) == 0;
    MintIsPrice(c);
    OneDebit(Credited(b, c), c, "");
    PaidKeepsCredits(Credited(b, c), c);
  }

  lemma UnpaidMeans(b: Books, c: Request)
    requires Unpaid(b, c)
    ensures CreditTotal(After(b, c).credits) == CreditTotal(b.credits) + c.Price() && c.Price() > 0
    ensures After(b, c).debits == b.debits
  {
    CompleteTotals(b, c);
    PriceNotNegative(c);
    hide Minted, Charge;
  }

  /** The node could be paid for the job at all. */
  predicate Payable(c: Request) {
    c.node != "" && c.Tokens() > 0 && !c.simulated
  }

  /** What the gate must have left standing: an operator who did not opt in to anonymous callers; for a
    known one a debit that can be recorded and a price within the estimate, but for what the user earns
    from the very job. */
  predicate GateHolds(allow: bool, c: Request) {
    if c.user == "" then !allow else c.recorded && c.Price() <= c.Estimate() + Earned(c.Mint(), c.user)
  }

  /** A balance of exactly the estimate. */
  function JustEnough(c: Request): Books {
    Books([Credit(c.user, c.Estimate(), "grant")], [], {})
  }

  lemma JustEnoughIsAdmitted(allow: bool, c: Request)
    requires c.user == "" ==> allow
    ensures JustEnough(c).Balance(c.user) == c.Estimate() && Gate(allow, JustEnough(c), c).Admitted?
  {
    hide Charge;
    var b := JustEnough(c);
    assert b.credits[..0] == [] && Earned(b.credits[..0], c.user) == 0;
    assert Earned(b.credits, c.user) == c.Estimate() && Spent(b.debits, c.user) == 0;
  }

  /** When nothing comes between a request's gate and its completion, it never mints unpaid, on any books
    that admit it, exactly when its node cannot be paid or the gate's terms still hold. */
  lemma NeverUnpaidIff(allow: bool, c: Request)
    ensures (forall b: Books :: Gate(allow, b, c).Admitted? ==> !Unpaid(b, c)) <==> !Payable(c) || GateHolds(allow, c)
  {
    hide Minted, Charge, Earned, Spent;
    forall b: Books ensures Credited(b, c).Balance(c.user) ==
      b.Balance(c.user) + if Credits(b, c) then Earned(c.Mint(), c.user) else 0
    {
      CreditedBalance(b, c, c.user);
    }
    if Payable(c) && !GateHolds(allow, c) {
      JustEnoughIsAdmitted(allow, c);
      assert Unpaid(JustEnough(c), c);
    }
  }

  /** No more tokens than the limit and no more activity than at the gate: the price is within the
    estimate. */
  lemma PriceWithinEstimate(c: Request)
    requires c.Tokens() <= c.Limit() && c.pressure <= c.gatePressure
    ensures c.Price() <= c.Estimate()
  {
    ChargeMonotone(Fast, c.sensitivity, c.Tokens(), c.Limit(), c.pressure);
    ChargeFollowsActivity(Fast, c.sensitivity, c.Limit(), c.pressure, c.gatePressure);
  }

  // The ways the gate's terms fail, besides a debit that cannot be recorded

  /** A node that counts more tokens than the limit, on a busy network. */
  lemma MoreTokensCostMore(c: Request)
    requires c.Tokens() > c.Limit() && c.gatePressure >= ACTIVITY_CEILING && c.pressure >= ACTIVITY_CEILING
    ensures c.Price() > c.Estimate()
  {
    ChargeFollowsActivity(Fast, c.sensitivity, c.Limit(), c.gatePressure, c.gatePressure);
    ChargeFollowsActivity(Fast, c.sensitivity, c.Tokens(), c.pressure, c.pressure);
    EveryTokenCosts(Fast, c.sensitivity, c.Limit(), c.Tokens());
  }

  /** An idle network that has become busy. */
  lemma RisenActivityCostsMore(c: Request)
    requires c.Tokens() == c.Limit() && c.gatePressure <= 0.0 && c.pressure >= ACTIVITY_CEILING
    ensures c.Price() > c.Estimate()
  {
    ChargeFollowsActivity(Fast, c.sensitivity, c.Limit(), c.gatePressure, c.gatePressure);
    ChargeFollowsActivity(Fast, c.sensitivity, c.Limit(), c.pressure, c.pressure);
    RewardBelowCost(Fast, c.sensitivity, c.Limit());
  }

  /** An operator who opted in: every anonymous request on a real node mints its whole price unpaid. */
  lemma AnonymousMintsUnpaid(b: Books, c: Request)
    requires c.user == "" && Payable(c) && c.jobID !in b.credited
    ensures Gate(true, b, c).Admitted? && Unpaid(b, c) && !Gate(false, b, c).Admitted?
    ensures After(b, c).debits == b.debits && CreditTotal(After(b, c).credits) == CreditTotal(b.credits) + c.Price()
  {
    UnpaidMeans(b, c);
  }

  // ---------------------------------------------------------------- when the gate keeps credits paid for

  /** A request that keeps to its limit, with activity that does not rise while it is served and a debit
    that can be recorded. */
  predicate Orderly(c: Request) {
    c.Tokens() <= c.Limit() && c.pressure <= c.gatePressure && c.recorded
  }

  function OpenOf(cs: seq<Request>, stages: seq<Stage>, user: string): set<nat>
    requires |cs| == |stages|
  {
    set k: nat | k < |cs| && !stages[k].Away? && cs[k].user == user
  }

  /** No known user ever has more than n requests between the gate and their debits. */
  ghost predicate AtMost(n: nat, allow: bool, b0: Books, cs: seq<Request>, es: seq<Event>) {
    && (forall user :: user != "" ==> |OpenOf(cs, DeskAfter(allow, b0, cs, es).stages, user)| <= n)
    && (es != [] ==> AtMost(n, allow, b0, cs, es[..|es| - 1]))
  }

  /** Debits less the credits of completed requests. */
  function Surplus(d: Desk): int { DebitTotal(d.books.debits) - Held(d) }

  /** Orderly requests never mint more than they pay, whatever the schedule, if no known user ever has
    more than n of them open. */
  ghost predicate GateKeepsBooks(allow: bool, n: nat) {
    forall b0, cs, es :: (forall c :: c in cs ==> Orderly(c)) && AtMost(n, allow, b0, cs, es) ==>
      Surplus(DeskAfter(allow, b0, cs, es)) >= Surplus(Opening(b0, |cs|))
  }

  /** Every open request has a user whose balance still covers the estimate. */
  ghost predicate Secured(cs: seq<Request>, d: Desk) {
    |cs| == |d.stages| &&
    forall k :: 0 <= k < |cs| && !d.stages[k].Away? ==>
      cs[k].user != "" && d.books.Balance(cs[k].user) >= cs[k].Estimate()
  }

  lemma TwoOpen(cs: seq<Request>, d: Desk, j: nat, k: nat)
    requires |cs| == |d.stages| && j < |cs| && k < |cs| && j != k && !d.stages[j].Away? && !d.stages[k].Away?
    ensures cs[j].user == cs[k].user ==> |OpenOf(cs, d.stages, cs[k].user)| >= 2
  {
    var open := OpenOf(cs, d.stages, cs[k].user);
    if cs[j].user == cs[k].user {
      assert open == {j, k} + (open - {j, k});
      assert |{j, k}| == 2;
    }
  }

  /** Another user's steps never lower a balance, so what the gate has seen stays. */
  lemma SecuredStep(cs: seq<Request>, d: Desk, e: Event)
    requires StagesOk(cs, d) && Possible(false, cs, d, e) && Secured(cs, d)
    requires forall user :: user != "" ==> |OpenOf(cs, d.stages, user)| <= 1
    ensures Secured(cs, Next(false, cs, d, e))
  {
    hide Charge, Paid, Claimed, Due, Pays, Earned, Spent, StagesOk, OpenOf;
    var t := Next(false, cs, d, e);
    forall k | 0 <= k < |cs| && !t.stages[k].Away?
      ensures cs[k].user != "" && t.books.Balance(cs[k].user) >= cs[k].Estimate()
    {
      StepBalance(false, cs, d, e, cs[k].user);
      if k != e.k && e.Settle? {
        TwoOpen(cs, d, e.k, k);
      }
    }
  }

  /** A secured request pays what its job mints. */
  lemma SecuredPays(cs: seq<Request>, d: Desk, e: Event)
    requires StagesOk(cs, d) && Possible(false, cs, d, e) && Secured(cs, d) && Orderly(cs[e.k])
    ensures Surplus(Next(false, cs, d, e)) >= Surplus(d)
  {
    var c := cs[e.k];
    StepTotals(false, cs, d, e);
    PriceNotNegative(c);
    PriceWithinEstimate(c);
    assert StageOk(c, d.stages[e.k]);
    hide Charge, Minted, Held, DebitTotal, Next;
  }

  /** Without anonymous callers, under every schedule in which no user has two requests open at once,
    credits never grow by more than debits do. */
  lemma {:induction false} CreditsWithinDebits(b0: Books, cs: seq<Request>, es: seq<Event>)
    requires AtMost(1, false, b0, cs, es) && forall c :: c in cs ==> Orderly(c)
    ensures Secured(cs, DeskAfter(false, b0, cs, es))
    ensures Surplus(DeskAfter(false, b0, cs, es)) >= Surplus(Opening(b0, |cs|))
  {
    if es != [] {
      hide Next, Possible, Orderly, Surplus, Secured, OpenOf;
      var d, e := DeskAfter(false, b0, cs, es[..|es| - 1]), es[|es| - 1];
      CreditsWithinDebits(b0, cs, es[..|es| - 1]);
      StagesAreOk(false, b0, cs, es[..|es| - 1]);
      if Possible(false, cs, d, e) {
        assert e.k < |cs| && cs[e.k] in cs by { PossibleIndex(false, cs, d, e); }
        SecuredStep(cs, d, e);
        SecuredPays(cs, d, e);
      }
    }
  }

  lemma PossibleIndex(allow: bool, cs: seq<Request>, d: Desk, e: Event)
    requires Possible(allow, cs, d, e)
    ensures e.k < |cs|
  {}

  // Requests served without a break

  /** The accounting of a request in one go; a step with nothing to post is left out. */
  function Serve(k: nat): seq<Event> {
    [Claim(k), Post(k), Post(k), Settle(k)]
  }

  lemma OneEvent(allow: bool, b0: Books, cs: seq<Request>, es: seq<Event>, e: Event)
    ensures var d, t := DeskAfter(allow, b0, cs, es), DeskAfter(allow, b0, cs, es + [e]);
      t == if Possible(allow, cs, d, e) then Next(allow, cs, d, e) else d
  {
    assert (es + [e])[..|es|] == es;
  }

  /** Without a break between them the steps are those of `Complete`. */
  lemma ServeIsComplete(allow: bool, b0: Books, cs: seq<Request>, es: seq<Event>, k: nat)
    requires k < |cs| && DeskAfter(allow, b0, cs, es).stages[k].Gated?
    ensures var d, t := DeskAfter(allow, b0, cs, es), DeskAfter(allow, b0, cs, es + Serve(k));
      t.books == After(d.books, cs[k]) && t.stages == d.stages[k := Away]
  {
    hide Paid, Claimed, Pays, Credits, DeskAfter, Minted, Charge;
    var d, c := DeskAfter(allow, b0, cs, es), cs[k];
    ClaimedKeepsEntries(d.books, c);
    var es1, es2, es3 := es + [Claim(k)], es + [Claim(k), Post(k)], es + [Claim(k), Post(k), Post(k)];
    OneEvent(allow, b0, cs, es, Claim(k));
    OneEvent(allow, b0, cs, es1, Post(k));
    OneEvent(allow, b0, cs, es2, Post(k));
    OneEvent(allow, b0, cs, es3, Settle(k));
    assert es1 + [Post(k)] == es2 && es2 + [Post(k)] == es3 && es3 + [Settle(k)] == es + Serve(k);
    AtMostTwoDue(d.books, c);
    var due, d3 := Due(d.books, c), DeskAfter(allow, b0, cs, es3);
    PostAll(d.books.credits, due);
    assert d3.stages[k] == Owed(Mark(d.books, c), due, []);
    assert d3.books.credits == d.books.credits + due;
    assert d3.books == Credited(d.books, c);
  }

  lemma ClaimedKeepsEntries(b: Books, c: Request)
    ensures Claimed(b, c).credits == b.credits && Claimed(b, c).debits == b.debits
  {}

  lemma PostAll(credits: seq<Credit>, due: seq<Credit>)
    ensures due == [] ==> credits + due == credits
    ensures |due| == 1 ==> credits + [due[0]] == credits + due && due[1..] == [] && [] + [due[0]] == due
    ensures |due| == 2 ==> credits + [due[0]] + [due[1]] == credits + due && due[1..] == [due[1]] && due[1..][1..] == []
    ensures |due| == 2 ==> [] + [due[0]] + [due[1]] == due
  {}

  lemma AtMostTwoDue(b: Books, c: Request)
    ensures |Due(b, c)| <= 2
  {}

  /** Requests 0 to n - 1 pass the gate before any of them is served. */
  function AllEnter(n: nat): seq<Event> { seq(n, k requires 0 <= k < n => Enter(k)) }

  lemma {:induction false} AllGated(allow: bool, b0: Books, cs: seq<Request>, n: nat)
    requires n <= |cs| && forall k :: 0 <= k < n ==> Gate(allow, b0, cs[k]).Admitted?
    ensures DeskAfter(allow, b0, cs, AllEnter(n)).books == b0
    ensures forall k :: 0 <= k < |cs| ==>
      DeskAfter(allow, b0, cs, AllEnter(n)).stages[k] == if k < n then Gated else Away
  {
    hide Gate;
    if n > 0 {
      AllGated(allow, b0, cs, n - 1);
      assert AllEnter(n) == AllEnter(n - 1) + [Enter(n - 1)];
      OneEvent(allow, b0, cs, AllEnter(n - 1), Enter(n - 1));
    }
  }

  lemma {:induction false} FewRequests(n: nat, allow: bool, b0: Books, cs: seq<Request>, es: seq<Event>)
    requires |cs| <= n || (n == 0 && forall c :: c in cs ==> c.user == "")
    ensures AtMost(n, allow, b0, cs, es)
  {
    forall user | user != "" ensures |OpenOf(cs, DeskAfter(allow, b0, cs, es).stages, user)| <= n {
      IndicesBelow(OpenOf(cs, DeskAfter(allow, b0, cs, es).stages, user), |cs|);
    }
    if es != [] {
      FewRequests(n, allow, b0, cs, es[..|es| - 1]);
    }
  }

  lemma {:induction false} IndicesBelow(s: set<nat>, n: nat)
    requires forall k :: k in s ==> k < n
    ensures |s| <= n
  {
    if n > 0 {
      IndicesBelow(s - {n - 1}, n - 1);
    }
  }

  /** A request whose user earns nothing from the very job. */
  predicate EarnsNothing(c: Request) {
    c.user != TREASURY && c.Served().Account() != c.user
  }

  lemma NothingEarned(c: Request)
    requires EarnsNothing(c)
    ensures Earned(c.Mint(), c.user) == 0
  {
    var w := c.Served();
    hide Charge, ProviderReward;
    var first := Ledgers.Credit(w.Account(), w.Reward(), w.jobID);
    assert Earned([], c.user) == 0;
    EarnedOne([], first, c.user);
    assert [] + [first] == [first];
    EarnedOne([first], Ledgers.Credit(TREASURY, c.Price() - w.Reward(), w.jobID + "-margin"), c.user);
  }

  /** The same request under two job IDs. Both pass the gate on one balance, and the second to complete
    mints unpaid, though each keeps to its limit. */
  lemma OverlapMintsUnpaid(c: Request, id: string)
    requires c.user != "" && id != c.jobID && Payable(c) && Orderly(c) && c.Estimate() == c.Price() && EarnsNothing(c)
    ensures var d := DeskAfter(false, JustEnough(c), [c, c.(jobID := id)], AllEnter(2) + Serve(0) + Serve(1));
      d.Idle() && Surplus(d) == Surplus(Opening(JustEnough(c), 2)) - c.Price() < Surplus(Opening(JustEnough(c), 2))
  {
    hide Minted, Charge, Earned, Spent, DeskAfter, After, Gate, Payable, Credits;
    var b0, d, cs := JustEnough(c), c.(jobID := id), [c, c.(jobID := id)];
    JustEnoughIsAdmitted(false, c);
    JustEnoughIsAdmitted(false, d);
    AllGated(false, b0, cs, 2);
    ServeIsComplete(false, b0, cs, AllEnter(2), 0);
    ServeIsComplete(false, b0, cs, AllEnter(2) + Serve(0), 1);
    TotalOfNone(PostedOf, Opening(b0, 2).stages);
    TotalOfNone(PostedOf, DeskAfter(false, b0, cs, AllEnter(2) + Serve(0) + Serve(1)).stages);
    SecondUnpaid(b0, c, id);
  }

  lemma SecondUnpaid(b0: Books, c: Request, id: string)
    requires b0 == JustEnough(c) && b0.Balance(c.user) == c.Estimate()
    requires c.user != "" && id != c.jobID && Payable(c) && Orderly(c) && c.Estimate() == c.Price() && EarnsNothing(c)
    ensures var b2 := After(After(b0, c), c.(jobID := id));
      && c.Price() > 0 && CreditTotal(b2.credits) == CreditTotal(b0.credits) + 2 * c.Price()
      && DebitTotal(b2.debits) == DebitTotal(b0.debits) + c.Price()
  {
    hide Minted, Charge, Earned, Spent, Orderly, After;
    var d := c.(jobID := id);
    NothingEarned(c);
    NothingEarned(d);
    PriceNotNegative(c);
    PaysAll(b0, c);
    var b1 := After(b0, c);
    CompleteTotals(b0, c);
    CompleteTotals(b1, d);
    CreditedBalance(b1, d, d.user);
    assert Credits(b1, d) && !Debits(b1, d);
  }

  lemma PaysAll(b0: Books, c: Request)
    requires b0 == JustEnough(c) && b0.Balance(c.user) == c.Estimate() == c.Price() && Earned(c.Mint(), c.user) == 0
    requires c.user != "" && Payable(c) && Orderly(c)
    ensures Credits(b0, c) && Debits(b0, c) && After(b0, c).Balance(c.user) == 0 && After(b0, c).credited == {c.jobID}
  {
    hide Minted, Charge, Earned, Spent;
    CreditedBalance(b0, c, c.user);
    assert Credits(b0, c);
    assert Debits(b0, c);
    PriceNotNegative(c);
    DebitKeepsBalance(b0, c, c.user);
  }

  /** Such a request. */
  function Sample(user: string): Request {
    Request("a", user, Low, 1, 1.0, "node", None, 1.0, false, false, None, None, true)
  }

  lemma SampleIsOrderly(user: string)
    ensures var c := Sample(user);
      Payable(c) && Orderly(c) && c.Estimate() == c.Price() && (user != TREASURY && user != "node" ==> EarnsNothing(c))
  {}

  /** The exact condition: the operator did not opt in to anonymous callers, and no user has two requests
    open at once. */
  lemma GateKeepsBooksIff(allow: bool, n: nat)
    ensures GateKeepsBooks(allow, n) <==> !allow && n <= 1
  {
    hide DeskAfter, Surplus, AtMost, Orderly;
    if allow {
      AnonymousLoss(n);
    } else if n >= 2 {
      OverlapLoss(n);
    } else {
      forall b0, cs, es | (forall c :: c in cs ==> Orderly(c)) && AtMost(n, allow, b0, cs, es)
        ensures Surplus(DeskAfter(allow, b0, cs, es)) >= Surplus(Opening(b0, |cs|))
      {
        AtMostMore(n, 1, false, b0, cs, es);
        CreditsWithinDebits(b0, cs, es);
      }
    }
  }

  lemma {:induction false} AtMostMore(n: nat, m: nat, allow: bool, b0: Books, cs: seq<Request>, es: seq<Event>)
    requires n <= m && AtMost(n, allow, b0, cs, es)
    ensures AtMost(m, allow, b0, cs, es)
  {
    if es != [] {
      AtMostMore(n, m, allow, b0, cs, es[..|es| - 1]);
    }
  }

  lemma OverlapLoss(n: nat)
    requires n >= 2
    ensures !GateKeepsBooks(false, n)
  {
    hide DeskAfter, Surplus, AtMost, Orderly, Payable, EarnsNothing, JustEnough;
    var c := Sample("u");
    var cs, es := [c, c.(jobID := "b")], AllEnter(2) + Serve(0) + Serve(1);
    SampleIsOrderly("u");
    assert Orderly(c.(jobID := "b")) by { OrderlyTwin(c, "b"); }
    OverlapMintsUnpaid(c, "b");
    FewRequests(n, false, JustEnough(c), cs, es);
  }

  lemma OrderlyTwin(c: Request, id: string)
    requires Orderly(c)
    ensures Orderly(c.(jobID := id))
  {}

  lemma AnonymousLoss(n: nat)
    ensures !GateKeepsBooks(true, n)
  {
    hide DeskAfter, AtMost, Orderly, Payable, After, Minted, Charge, EarnsNothing;
    var c, b0 := Sample(""), Books([], [], {});
    var cs, es := [c], AllEnter(1) + Serve(0);
    SampleIsOrderly("");
    AllGated(true, b0, cs, 1);
    ServeIsComplete(true, b0, cs, AllEnter(1), 0);
    TotalOfNone(PostedOf, Opening(b0, 1).stages);
    TotalOfNone(PostedOf, DeskAfter(true, b0, cs, es).stages);
    AnonymousMintsUnpaid(b0, c);
    UnpaidMeans(b0, c);
    FewRequests(n, true, b0, cs, es);
    assert Surplus(DeskAfter(true, b0, cs, es)) < Surplus(Opening(b0, |cs|));
  }

  // ---------------------------------------------------------------- once per job

  /** Whether an open request is the one that has marked a job ID. */
  function Marks(id: string): Stage -> int {
    (s: Stage) => if s.Owed? && s.claimed == Some(id) then 1 else 0
  }

  /** How many completed requests of a job ID were credited. */
  function TimesCredited(done: seq<Outcome>, id: string): nat {
    if done == [] then 0 else
      var o := done[|done| - 1];
      TimesCredited(done[..|done| - 1], id) + if o.credited && o.request.jobID == id then 1 else 0
  }

  /** A marked job ID is that of exactly one request, and credited requests, and only they, were
    creditable with a new job ID. */
  ghost predicate MarkedOnce(b0: Books, d: Desk, id: string) {
    && (id in b0.credited ==> id in d.books.credited)
    && TimesCredited(d.done, id) + Total(Marks(id), d.stages) == (if id in d.books.credited && id !in b0.credited then 1 else 0)
    && (forall o :: o in d.done ==> (o.credited ==> Creditable(o.request)) &&
                                    (Creditable(o.request) && o.request.jobID == id ==> id in d.books.credited))
  }

  ghost predicate OwedMarked(cs: seq<Request>, d: Desk) {
    |cs| == |d.stages| &&
    forall k :: 0 <= k < |cs| && d.stages[k].Owed? && Creditable(cs[k]) ==> cs[k].jobID in d.books.credited
  }

  lemma MarkedStep(allow: bool, b0: Books, cs: seq<Request>, d: Desk, e: Event, id: string)
    requires StagesOk(cs, d) && Possible(allow, cs, d, e) && MarkedOnce(b0, d, id) && OwedMarked(cs, d)
    ensures MarkedOnce(b0, Next(allow, cs, d, e), id) && OwedMarked(cs, Next(allow, cs, d, e))
  {
    hide Gate, Minted, Paid, Pays, Creditable;
    var t := Next(allow, cs, d, e);
    TotalUpdate(Marks(id), d.stages, e.k, t.stages[e.k]);
    assert StageOk(cs[e.k], d.stages[e.k]);
    PaidKeepsCredits(d.books, cs[e.k]);
    if e.Settle? {
      assert t.done[..|d.done|] == d.done;
    }
  }

  lemma {:induction false} MarkedAlways(allow: bool, b0: Books, cs: seq<Request>, es: seq<Event>, id: string)
    ensures MarkedOnce(b0, DeskAfter(allow, b0, cs, es), id) && OwedMarked(cs, DeskAfter(allow, b0, cs, es))
  {
    if es == [] {
      TotalOfNone(Marks(id), Opening(b0, |cs|).stages);
    } else {
      hide Next, Possible, MarkedOnce, OwedMarked;
      var d, e := DeskAfter(allow, b0, cs, es[..|es| - 1]), es[|es| - 1];
      MarkedAlways(allow, b0, cs, es[..|es| - 1], id);
      StagesAreOk(allow, b0, cs, es[..|es| - 1]);
      if Possible(allow, cs, d, e) {
        MarkedStep(allow, b0, cs, d, e, id);
      }
    }
  }

  /** Over every interleaving a job ID is credited at most once, and never again after an earlier
    start. */
  lemma CreditedOnce(allow: bool, b0: Books, cs: seq<Request>, es: seq<Event>, id: string)
    ensures TimesCredited(DeskAfter(allow, b0, cs, es).done, id) <= if id in b0.credited then 0 else 1
  {
    MarkedAlways(allow, b0, cs, es, id);
    MarksNonNegative(id, DeskAfter(allow, b0, cs, es).stages);
  }

  lemma {:induction false} MarksNonNegative(id: string, stages: seq<Stage>)
    ensures Total(Marks(id), stages) >= 0
  {
    if stages != [] {
      MarksNonNegative(id, stages[..|stages| - 1]);
    }
  }

  /** Once nobody is at the desk, a new job ID was credited exactly once if any completed request of it
    could be credited, and else not at all. */
  lemma CreditedIff(allow: bool, b0: Books, cs: seq<Request>, es: seq<Event>, id: string)
    requires DeskAfter(allow, b0, cs, es).Idle() && id !in b0.credited
    ensures var done := DeskAfter(allow, b0, cs, es).done;
      TimesCredited(done, id) == 1 <==> exists o :: o in done && Creditable(o.request) && o.request.jobID == id
  {
    var d := DeskAfter(allow, b0, cs, es);
    MarkedAlways(allow, b0, cs, es, id);
    TotalOfNone(Marks(id), d.stages);
    hide Creditable, DeskAfter;
    if TimesCredited(d.done, id) == 1 {
      var o := SomeCredited(d.done, id);
    }
  }

  lemma {:induction false} SomeCredited(done: seq<Outcome>, id: string) returns (o: Outcome)
    requires TimesCredited(done, id) > 0
    ensures o in done && o.credited && o.request.jobID == id
  {
    o := done[|done| - 1];
    if !(o.credited && o.request.jobID == id) {
      o := SomeCredited(done[..|done| - 1], id);
    }
  }
}
