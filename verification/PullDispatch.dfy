/** The pull ("mining pool") dispatch protocol: a coordinator mailbox and nodes that claim,
  execute and submit.

  `PullDispatcher` is the coordinator object. Each of its methods is one critical section or one
  channel operation, since those are the points between which goroutines interleave; each is
  proved against a function on `Mailbox`. The transition system below interleaves these
  functions with the calls that are in progress and with the nodes' own steps. */
module PullDispatch {
  import opened Wrappers
  import opened Ordering

  type NodeID = string
  type JobID = string
  type Payload = string  // the job specification and its messages

  /** What a node reports for one execution. */
  datatype Outcome = Output(result: string) | ExecError(message: string)

  /** A job handed to a node. `call` is the identity of the Dispatch invocation that made it. */
  datatype Pending = Pending(call: nat, jobID: JobID, payload: Payload)

  const QUEUE_DEPTH: nat := 16

  // ---------------------------------------------------------------- the shared state

  /** `slots[c]` is the one-place buffer of the result channel made by Dispatch call `c`. */
  datatype Mailbox = Mailbox(
    queues: map<NodeID, seq<Pending>>,
    waiters: map<JobID, nat>,
    slots: map<nat, Option<Outcome>>)
  {
    function Queue(n: NodeID): seq<Pending> {
      if n in queues then queues[n] else []
    }

    function Register(id: JobID, c: nat): (m: Mailbox)
      ensures m.queues == queues
    {
      this.(waiters := waiters[id := c], slots := slots[c := None])
    }

    function Unregister(id: JobID): (m: Mailbox)
      ensures m.queues == queues && m.slots == slots
    {
      this.(waiters := waiters - {id})
    }

    predicate HasRoom(n: NodeID) {
      |Queue(n)| < QUEUE_DEPTH
    }

    function Offer(n: NodeID, p: Pending): Mailbox {
      this.(queues := queues[n := Queue(n) + [p]])
    }

    function Take(n: NodeID): Mailbox
      requires Queue(n) != []
    {
      this.(queues := queues[n := Queue(n)[1..]])
    }

    /** A send that never blocks: dropped when the one place is taken. */
    function Send(c: nat, o: Outcome): (m: Mailbox)
      requires c in slots
      ensures m.queues == queues && m.waiters == waiters
    {
      if slots[c].None? then this.(slots := slots[c := Some(o)]) else this
    }

    function Receive(c: nat): (m: Mailbox)
      ensures m.queues == queues && m.waiters == waiters
    {
      this.(slots := slots[c := None])
    }
  }

  class PullDispatcher {
    var queues: map<NodeID, seq<Pending>>
    var waiters: map<JobID, nat>
    var slots: map<nat, Option<Outcome>>

    function View(): Mailbox
      reads this
    {
      Mailbox(queues, waiters, slots)
    }

    constructor ()
      ensures View() == Mailbox(map[], map[], map[])
    {
      queues, waiters, slots := map[], map[], map[];
    }

    /** The queue of a node, made on first use; making it changes no queue's contents. */
    method QueueFor(n: NodeID) returns (q: seq<Pending>)
      modifies this`queues
      ensures q == View().Queue(n) && n in queues
      ensures forall m :: View().Queue(m) == old(View().Queue(m))
      ensures queues == old(queues)[n := q]
    {
      if n !in queues {
        queues := queues[n := []];
      }
      q := queues[n];
      assert queues == old(queues)[n := q];
    }

    method Register(id: JobID, c: nat)
      modifies this
      ensures View() == old(View()).Register(id, c)
      ensures waiters == old(waiters)[id := c] && slots == old(slots)[c := None] && queues == old(queues)
    {
      slots := slots[c := None];
      waiters := waiters[id := c];
    }

    method Unregister(id: JobID)
      modifies this
      ensures View() == old(View()).Unregister(id)
      ensures waiters == old(waiters) - {id} && slots == old(slots) && queues == old(queues)
    {
      waiters := waiters - {id};
    }

    /** The first select of Dispatch. `ctxDone` says whether the caller's context is already done
      and `preferDone` how Go's select breaks the tie when both cases are ready. */
    method Offer(n: NodeID, p: Pending, ctxDone: bool, preferDone: bool) returns (accepted: bool)
      modifies this
      ensures accepted <==> old(View()).HasRoom(n) && !(ctxDone && preferDone)
      ensures accepted <==> |if n in old(queues) then old(queues)[n] else []| < 16 && !(ctxDone && preferDone)
      ensures accepted ==> View() == old(View()).Offer(n, p)
      ensures accepted ==> n in queues && queues[n] == (if n in old(queues) then old(queues)[n] else []) + [p]
      ensures accepted ==> queues - {n} == old(queues) - {n} && waiters == old(waiters) && slots == old(slots)
      ensures !accepted ==> (forall m :: View().Queue(m) == old(View()).Queue(m))
                            && waiters == old(waiters) && slots == old(slots)
    {
      var q := QueueFor(n);
      accepted := |q| < QUEUE_DEPTH && !(ctxDone && preferDone);
      if accepted {
        queues := queues[n := q + [p]];
        assert queues == old(queues)[n := q + [p]];
      }
    }

    method Claim(n: NodeID) returns (job: Option<Pending>)
      modifies this
      ensures job.None? <==> old(View()).Queue(n) == []
      ensures job.None? ==> (forall m :: View().Queue(m) == old(View()).Queue(m))
                            && waiters == old(waiters) && slots == old(slots)
      ensures job.Some? ==> job.value == old(View()).Queue(n)[0] && View() == old(View()).Take(n)
      ensures job.None? <==> n !in old(queues) || old(queues)[n] == []
      ensures job.Some? ==> n in queues && old(queues)[n] == [job.value] + queues[n] && queues - {n} == old(queues) - {n}
      ensures waiters == old(waiters) && slots == old(slots)
    {
      var q := QueueFor(n);
      if q == [] {
        return None;
      }
      queues := queues[n := q[1..]];
      assert queues == old(queues)[n := q[1..]];
      job := Some(q[0]);
    }

    /** The critical section of SubmitResult; the send follows after the lock is released. */
    method Lookup(id: JobID) returns (ch: Option<nat>)
      ensures ch == if id in waiters then Some(waiters[id]) else None
    {
      ch := if id in waiters then Some(waiters[id]) else None;
    }

    method Send(ch: nat, o: Outcome) returns (delivered: bool)
      requires ch in slots
      modifies this`slots
      ensures View() == old(View()).Send(ch, o)
      ensures slots == if old(slots)[ch].None? then old(slots)[ch := Some(o)] else old(slots)
      ensures delivered <==> old(slots)[ch].None?
    {
      delivered := slots[ch].None?;
      if delivered {
        slots := slots[ch := Some(o)];
      }
    }

    method Receive(ch: nat) returns (o: Option<Outcome>)
      requires ch in slots
      modifies this`slots
      ensures o == old(slots)[ch] && View() == old(View()).Receive(ch) && slots == old(slots)[ch := None]
    {
      o := slots[ch];
      slots := slots[ch := None];
    }
  }

  // ---------------------------------------------------------------- the transition system

  datatype Return = Answer(outcome: Outcome) | GaveUp

  datatype Phase =
    | Registered             // waiter stored, job not yet offered
    | Waiting                // job in the node's queue or beyond
    | Leaving(ret: Return)   // return value fixed, deferred delete still to run
    | Returned(ret: Return)

  datatype Call = Call(node: NodeID, jobID: JobID, payload: Payload, phase: Phase, accepted: nat)
  {
    predicate HasAnswer() {
      (phase.Leaving? || phase.Returned?) && phase.ret.Answer?
    }
    function Job(c: nat): Pending {
      Pending(c, jobID, payload)
    }
  }

  datatype Execution = Execution(node: NodeID, pending: Pending, outcome: Outcome)

  /** A submission between the lookup of its waiter and its send: channel, executed call. */
  datatype InFlight = InFlight(channel: nat, executed: nat)

  /** `offered` and `taken` are per-node histories; `execs` maps a call to what its node ran. */
  datatype State = State(
    mb: Mailbox,
    calls: seq<Call>,
    offered: map<NodeID, seq<Pending>>,
    taken: map<NodeID, seq<Pending>>,
    execs: map<nat, Execution>,
    sends: multiset<InFlight>)
  {
    function With(c: nat, phase: Phase): seq<Call>
      requires c < |calls|
    {
      calls[c := calls[c].(phase := phase)]
    }
  }

  function Log(m: map<NodeID, seq<Pending>>, n: NodeID): seq<Pending> {
    if n in m then m[n] else []
  }

  function Append(m: map<NodeID, seq<Pending>>, n: NodeID, p: Pending): map<NodeID, seq<Pending>> {
    m[n := Log(m, n) + [p]]
  }

  datatype Step =
    | Start(node: NodeID, jobID: JobID, payload: Payload)
    | OfferAccept(c: nat)
    | OfferReject(c: nat, ctxDone: bool)
    | Reply(c: nat)
    | Timeout(c: nat)
    | Finish(c: nat)
    | Claim(n: NodeID)
    | Execute(n: NodeID, p: Pending, outcome: Outcome)
    | Lookup(e: nat)     // any number of times: submissions are retried
    | Send(s: InFlight)

  predicate Enabled(s: State, step: Step) {
    match step
    case Start(_, _, _) => true
    case OfferAccept(c) => c < |s.calls| && s.calls[c].phase.Registered? && s.mb.HasRoom(s.calls[c].node)
    case OfferReject(c, ctxDone) =>
      c < |s.calls| && s.calls[c].phase.Registered? && (ctxDone || !s.mb.HasRoom(s.calls[c].node))
    case Reply(c) => c < |s.calls| && s.calls[c].phase.Waiting? && c in s.mb.slots && s.mb.slots[c].Some?
    case Timeout(c) => c < |s.calls| && s.calls[c].phase.Waiting?
    case Finish(c) => c < |s.calls| && s.calls[c].phase.Leaving?
    case Claim(n) => s.mb.Queue(n) != []
    case Execute(n, p, _) => p in Log(s.taken, n) && p.call !in s.execs
    case Lookup(e) => e in s.execs
    case Send(f) => f in s.sends && f.channel in s.mb.slots && f.channel < |s.calls| && f.executed in s.execs
  }

  function Apply(s: State, step: Step): State
    requires Enabled(s, step)
  {
    match step
    case Start(n, id, payload) =>
      s.(mb := s.mb.Register(id, |s.calls|), calls := s.calls + [Call(n, id, payload, Registered, 0)])
    case OfferAccept(c) =>
      var n, p := s.calls[c].node, s.calls[c].Job(c);
      s.(mb := s.mb.Offer(n, p), calls := s.With(c, Waiting), offered := Append(s.offered, n, p))
    case OfferReject(c, _) => s.(calls := s.With(c, Leaving(GaveUp)))
    case Reply(c) =>
      s.(mb := s.mb.Receive(c), calls := s.With(c, Leaving(Answer(s.mb.slots[c].value))))
    case Timeout(c) => s.(calls := s.With(c, Leaving(GaveUp)))
    case Finish(c) =>
      s.(mb := s.mb.Unregister(s.calls[c].jobID), calls := s.With(c, Returned(s.calls[c].phase.ret)))
    case Claim(n) => s.(mb := s.mb.Take(n), taken := Append(s.taken, n, s.mb.Queue(n)[0]))
    case Execute(n, p, o) => s.(execs := s.execs[p.call := Execution(n, p, o)])
    case Lookup(e) =>
      var id := s.execs[e].pending.jobID;
      if id in s.mb.waiters then s.(sends := s.sends + multiset{InFlight(s.mb.waiters[id], e)}) else s
    case Send(f) =>
      var t := s.(mb := s.mb.Send(f.channel, s.execs[f.executed].outcome), sends := s.sends - multiset{f});
      if s.mb.slots[f.channel].None?
      then t.(calls := s.calls[f.channel := s.calls[f.channel].(accepted := s.calls[f.channel].accepted + 1)])
      else t
  }

  const Initial := State(Mailbox(map[], map[], map[]), [], map[], map[], map[], multiset{})

  predicate Legal(run: seq<Step>)
    decreases |run|, 0
  {
    run == [] || (var n := |run| - 1; Legal(run[..n]) && Enabled(After(run[..n]), run[n]))
  }

  function After(run: seq<Step>): State
    requires Legal(run)
    decreases |run|, 1
  {
    if run == [] then Initial else var n := |run| - 1; Apply(After(run[..n]), run[n])
  }

  // ---------------------------------------------------------------- the inductive invariant

  /** No waiter entry outlives its Dispatch, and each is stored under its own call's job ID. */
  ghost predicate WaitersOk(s: State) {
    forall id :: id in s.mb.waiters ==>
      var c := s.mb.waiters[id];
      c < |s.calls| && s.calls[c].jobID == id && !s.calls[c].phase.Returned?
  }

  /** Every channel belongs to a call; what it has accepted was received or is still in its slot. */
  ghost predicate SlotsOk(s: State) {
    && (forall c: nat :: c in s.mb.slots <==> c < |s.calls|)
    && (forall c :: 0 <= c < |s.calls| ==>
         SlotOk(s, c))
  }

  /** Some node really produced `o`, running a job that carries the job ID of call `c`. */
  ghost predicate Produced(s: State, c: nat, o: Outcome)
    requires c < |s.calls|
  {
    exists e :: e in s.execs && s.execs[e].outcome == o && s.execs[e].pending.jobID == s.calls[c].jobID
  }

  ghost predicate ProvenanceSends(s: State) {
    forall f :: f in s.sends ==>
      f.channel < |s.calls| && f.executed in s.execs
      && s.calls[f.channel].jobID == s.execs[f.executed].pending.jobID
  }

  ghost predicate ProvenanceOk(s: State)
    requires SlotsOk(s)
  {
    && ProvenanceSends(s)
    && (forall c :: 0 <= c < |s.calls| && SlotOk(s, c) && s.mb.slots[c].Some? ==> Produced(s, c, s.mb.slots[c].value))
    && (forall c :: 0 <= c < |s.calls| && s.calls[c].HasAnswer() ==> Produced(s, c, s.calls[c].phase.ret.outcome))
  }

  /** A node's queue is what was offered to it and not yet taken, in order and within bounds. */
  ghost predicate FifoOk(s: State) {
    && (forall n :: Log(s.offered, n) == Log(s.taken, n) + s.mb.Queue(n))
    && (forall n :: |s.mb.Queue(n)| <= QUEUE_DEPTH)
    && (forall n, i :: 0 <= i < |Log(s.offered, n)| ==> OfferOk(s, n, Log(s.offered, n)[i]))
    && (forall n :: Distinct(Log(s.offered, n)))
  }

  ghost predicate OfferOk(s: State, n: NodeID, p: Pending) {
    && p.call < |s.calls| && s.calls[p.call].node == n
    && p == s.calls[p.call].Job(p.call) && !s.calls[p.call].phase.Registered?
  }

  ghost predicate ExecsOk(s: State) {
    forall e :: e in s.execs ==> s.execs[e].pending.call == e && s.execs[e].pending in Log(s.taken, s.execs[e].node)
  }

  ghost predicate Inv(s: State) {
    WaitersOk(s) && SlotsOk(s) && ProvenanceOk(s) && FifoOk(s) && ExecsOk(s)
  }

  /** What every step keeps of a call: its identity, and that it has made its offer. */
  ghost predicate Evolves(s: State, t: State) {
    && |s.calls| <= |t.calls|
    && forall c :: 0 <= c < |s.calls| ==>
         && t.calls[c].node == s.calls[c].node && t.calls[c].Job(c) == s.calls[c].Job(c)
         && (!s.calls[c].phase.Registered? ==> !t.calls[c].phase.Registered?)
  }

  lemma StepEvolves(s: State, step: Step)
    requires Enabled(s, step)
    ensures Evolves(s, Apply(s, step))
  {
    match step {
      case Start(_, _, _) =>
      case OfferAccept(_) =>
      case OfferReject(_, _) =>
      case Reply(_) =>
      case Timeout(_) =>
      case Finish(_) =>
      case Claim(_) =>
      case Execute(_, _, _) =>
      case Lookup(_) =>
      case Send(_) =>
    }
  }

  /** Only offers and claims touch the queues and their histories. */
  lemma QueuesFrame(s: State, step: Step)
    requires Enabled(s, step) && !step.OfferAccept? && !step.Claim?
    ensures var t := Apply(s, step);
      t.mb.queues == s.mb.queues && t.offered == s.offered && t.taken == s.taken
  {
    hide Append, Log, Mailbox.Register, Mailbox.Unregister, Mailbox.Send, Mailbox.Receive;
    match step {
      case Start(_, _, _) =>
      case OfferAccept(_) =>
      case OfferReject(_, _) =>
      case Reply(_) =>
      case Timeout(_) =>
      case Finish(_) =>
      case Claim(_) =>
      case Execute(_, _, _) =>
      case Lookup(_) =>
      case Send(_) =>
    }
  }

  /** Only three steps touch the channels or the number of calls. */
  lemma SlotsFrame(s: State, step: Step)
    requires Enabled(s, step) && !step.Start? && !step.Reply? && !step.Send?
    ensures Apply(s, step).mb.slots == s.mb.slots && |Apply(s, step).calls| == |s.calls|
  {
    hide Append, Log;
    match step {
      case Start(_, _, _) =>
      case OfferAccept(_) =>
      case OfferReject(_, _) =>
      case Reply(_) =>
      case Timeout(_) =>
      case Finish(_) =>
      case Claim(_) =>
      case Execute(_, _, _) =>
      case Lookup(_) =>
      case Send(_) =>
    }
  }

  /** Only Reply gives a call its answer, only Send changes what its channel accepted. */
  lemma CallFrame(s: State, step: Step, c: nat)
    requires Enabled(s, step) && c < |s.calls|
    ensures var t := Apply(s, step);
      && c < |t.calls| && t.calls[c].jobID == s.calls[c].jobID
      && (step != Reply(c) ==> t.calls[c].HasAnswer() == s.calls[c].HasAnswer())
      && (step != Reply(c) && s.calls[c].HasAnswer() ==> t.calls[c].phase.ret == s.calls[c].phase.ret)
      && (!(step.Send? && step.s.channel == c) ==> t.calls[c].accepted == s.calls[c].accepted)
  {
    match step {
      case Start(_, _, _) =>
      case OfferAccept(_) =>
      case OfferReject(_, _) =>
      case Reply(_) =>
      case Timeout(_) =>
      case Finish(_) =>
      case Claim(_) =>
      case Execute(_, _, _) =>
      case Lookup(_) =>
      case Send(_) =>
    }
  }

  lemma FifoFrame(s: State, t: State)
    requires FifoOk(s) && Evolves(s, t)
    requires t.mb.queues == s.mb.queues && t.offered == s.offered && t.taken == s.taken
    ensures FifoOk(t)
  {
    forall n, i | 0 <= i < |Log(t.offered, n)| ensures OfferOk(t, n, Log(t.offered, n)[i]) {
      assert OfferOk(s, n, Log(s.offered, n)[i]);
    }
    forall n ensures Log(t.offered, n) == Log(t.taken, n) + t.mb.Queue(n) && |t.mb.Queue(n)| <= QUEUE_DEPTH {
      assert t.mb.Queue(n) == s.mb.Queue(n);
    }
  }

  lemma FifoOffer(s: State, c: nat)
    requires FifoOk(s) && Enabled(s, OfferAccept(c))
    ensures FifoOk(Apply(s, OfferAccept(c)))
  {
    var t := Apply(s, OfferAccept(c));
    var n, p := s.calls[c].node, s.calls[c].Job(c);
    forall i | 0 <= i < |Log(s.offered, n)| ensures Log(s.offered, n)[i] != p {
      assert OfferOk(s, n, Log(s.offered, n)[i]);
    }
    forall m, i | 0 <= i < |Log(t.offered, m)| ensures OfferOk(t, m, Log(t.offered, m)[i]) {
      if i < |Log(s.offered, m)| { assert OfferOk(s, m, Log(s.offered, m)[i]); }
    }
    forall m ensures Log(t.offered, m) == Log(t.taken, m) + t.mb.Queue(m)
                     && |t.mb.Queue(m)| <= QUEUE_DEPTH && Distinct(Log(t.offered, m)) {
      assert m != n ==> t.mb.Queue(m) == s.mb.Queue(m) && Log(t.offered, m) == Log(s.offered, m);
    }
  }

  lemma FifoClaim(s: State, n: NodeID)
    requires FifoOk(s) && Enabled(s, Claim(n))
    ensures FifoOk(Apply(s, Claim(n)))
  {
    var t := Apply(s, Claim(n));
    var q := s.mb.Queue(n);
    assert [q[0]] + q[1..] == q;
    assert Log(t.taken, n) + t.mb.Queue(n) == Log(s.taken, n) + q;
    forall m, i | 0 <= i < |Log(t.offered, m)| ensures OfferOk(t, m, Log(t.offered, m)[i]) {
      assert OfferOk(s, m, Log(s.offered, m)[i]);
    }
    forall m ensures Log(t.offered, m) == Log(t.taken, m) + t.mb.Queue(m) && |t.mb.Queue(m)| <= QUEUE_DEPTH {
      assert m != n ==> t.mb.Queue(m) == s.mb.Queue(m) && Log(t.taken, m) == Log(s.taken, m);
    }
  }

  lemma FifoStep(s: State, step: Step)
    requires FifoOk(s) && Enabled(s, step)
    ensures FifoOk(Apply(s, step))
  {
    if step.OfferAccept? {
      FifoOffer(s, step.c);
    } else if step.Claim? {
      FifoClaim(s, step.n);
    } else {
      StepEvolves(s, step);
      QueuesFrame(s, step);
      FifoFrame(s, Apply(s, step));
    }
  }

  lemma ExecsStep(s: State, step: Step)
    requires ExecsOk(s) && Enabled(s, step)
    ensures ExecsOk(Apply(s, step))
  {
    var t := Apply(s, step);
    forall e | e in t.execs
      ensures t.execs[e].pending.call == e && t.execs[e].pending in Log(t.taken, t.execs[e].node)
    {
      if step.Claim? && t.execs[e].node == step.n {
        assert Log(t.taken, step.n) == Log(s.taken, step.n) + [s.mb.Queue(step.n)[0]];
      }
    }
  }

  lemma ProducedStep(s: State, step: Step, c: nat, o: Outcome)
    requires Enabled(s, step) && c < |s.calls| && Produced(s, c, o)
    ensures Produced(Apply(s, step), c, o)
  {
    var t := Apply(s, step);
    var e :| e in s.execs && s.execs[e].outcome == o && s.execs[e].pending.jobID == s.calls[c].jobID;
    assert e in t.execs && t.execs[e] == s.execs[e];
  }

  lemma WaitersStep(s: State, step: Step)
    requires WaitersOk(s) && Enabled(s, step)
    ensures WaitersOk(Apply(s, step))
  {
    var t := Apply(s, step);
    StepEvolves(s, step);
    forall id | id in t.mb.waiters
      ensures t.mb.waiters[id] < |t.calls|
      ensures t.calls[t.mb.waiters[id]].jobID == id && !t.calls[t.mb.waiters[id]].phase.Returned?
    {
      if id in s.mb.waiters && s.mb.waiters[id] == t.mb.waiters[id] {
        var c := s.mb.waiters[id];
        assert s.calls[c].Job(c).jobID == t.calls[c].Job(c).jobID;
      } else {
        assert step.Start?;
      }
    }
  }

  ghost predicate SlotOk(s: State, c: nat)
    requires c < |s.calls|
  {
    && c in s.mb.slots
    && s.calls[c].accepted == (if s.calls[c].HasAnswer() then 1 else 0) + (if s.mb.slots[c].Some? then 1 else 0)
  }

  lemma SlotStep(s: State, step: Step, c: nat)
    requires Enabled(s, step) && c < |s.calls| && SlotOk(s, c)
    ensures c < |Apply(s, step).calls| && SlotOk(Apply(s, step), c)
  {
    CallFrame(s, step, c);
    if step.Start? || step.Reply? || step.Send? {
    } else {
      SlotsFrame(s, step);
    }
  }

  lemma SlotsDomain(s: State, step: Step)
    requires Enabled(s, step) && forall c: nat :: c in s.mb.slots <==> c < |s.calls|
    ensures forall c: nat :: c in Apply(s, step).mb.slots <==> c < |Apply(s, step).calls|
  {
    if step.Start? || step.Reply? || step.Send? {
    } else {
      SlotsFrame(s, step);
    }
  }

  lemma SlotsStep(s: State, step: Step)
    requires SlotsOk(s) && Enabled(s, step)
    ensures SlotsOk(Apply(s, step))
  {
    var t := Apply(s, step);
    SlotsDomain(s, step);
    forall c | 0 <= c < |t.calls| ensures SlotOk(t, c) {
      if c < |s.calls| {
        assert SlotOk(s, c);
        SlotStep(s, step, c);
      } else {
        assert step.Start?;
      }
    }
  }

  lemma SendsStep(s: State, step: Step, f: InFlight)
    requires WaitersOk(s) && SlotsOk(s) && ProvenanceOk(s) && Enabled(s, step)
    requires f in Apply(s, step).sends
    ensures var t := Apply(s, step);
      f.channel < |t.calls| && f.executed in t.execs
      && t.calls[f.channel].jobID == t.execs[f.executed].pending.jobID
  {
    hide Append, Log, Produced, SlotOk;
    StepEvolves(s, step);
    var t := Apply(s, step);
    if f in s.sends {
      assert t.calls[f.channel].Job(f.channel) == s.calls[f.channel].Job(f.channel);
      assert t.execs[f.executed] == s.execs[f.executed];
    } else {
      assert step.Lookup?;
    }
  }

  lemma SendProduced(s: State, f: InFlight)
    requires ProvenanceSends(s) && Enabled(s, Send(f))
    ensures Produced(Apply(s, Send(f)), f.channel, s.execs[f.executed].outcome)
  {
    var t := Apply(s, Send(f));
    CallFrame(s, Send(f), f.channel);
    assert f.executed in t.execs && t.execs[f.executed] == s.execs[f.executed];
  }

  lemma SlotProduced(s: State, step: Step, c: nat)
    requires ProvenanceSends(s) && Enabled(s, step) && c < |s.calls| && c in s.mb.slots
    requires s.mb.slots[c].Some? ==> Produced(s, c, s.mb.slots[c].value)
    requires c in Apply(s, step).mb.slots && Apply(s, step).mb.slots[c].Some?
    ensures c < |Apply(s, step).calls| && Produced(Apply(s, step), c, Apply(s, step).mb.slots[c].value)
  {
    CallFrame(s, step, c);
    if step.Send? && step.s.channel == c && s.mb.slots[c].None? {
      SendProduced(s, step.s);
    } else {
      SlotKept(s, step, c);
      ProducedStep(s, step, c, s.mb.slots[c].value);
    }
  }

  lemma SlotKept(s: State, step: Step, c: nat)
    requires Enabled(s, step) && c < |s.calls| && c in s.mb.slots
    requires !(step.Send? && step.s.channel == c && s.mb.slots[c].None?)
    requires c in Apply(s, step).mb.slots && Apply(s, step).mb.slots[c].Some?
    ensures Apply(s, step).mb.slots[c] == s.mb.slots[c]
  {
    if step.Start? || step.Reply? || step.Send? {
    } else {
      SlotsFrame(s, step);
    }
  }

  lemma AnswerProduced(s: State, step: Step, c: nat)
    requires SlotsOk(s) && ProvenanceOk(s) && Enabled(s, step)
    requires c < |s.calls| && Apply(s, step).calls[c].HasAnswer()
    ensures Produced(Apply(s, step), c, Apply(s, step).calls[c].phase.ret.outcome)
  {
    if step == Reply(c) {
      ProducedStep(s, step, c, s.mb.slots[c].value);
    } else {
      CallFrame(s, step, c);
      ProducedStep(s, step, c, s.calls[c].phase.ret.outcome);
    }
  }

  lemma ProvenanceStep(s: State, step: Step)
    requires WaitersOk(s) && SlotsOk(s) && ProvenanceOk(s) && Enabled(s, step) && SlotsOk(Apply(s, step))
    ensures ProvenanceOk(Apply(s, step))
  {
    var t := Apply(s, step);
    forall f | f in t.sends
      ensures f.channel < |t.calls| && f.executed in t.execs
      ensures t.calls[f.channel].jobID == t.execs[f.executed].pending.jobID
    {
      SendsStep(s, step, f);
    }
    forall c | 0 <= c < |t.calls|
      ensures t.mb.slots[c].Some? ==> Produced(t, c, t.mb.slots[c].value)
      ensures t.calls[c].HasAnswer() ==> Produced(t, c, t.calls[c].phase.ret.outcome)
    {
      assert SlotOk(t, c);
      if c < |s.calls| {
        assert SlotOk(s, c);
        if t.mb.slots[c].Some? { SlotProduced(s, step, c); }
        if t.calls[c].HasAnswer() { AnswerProduced(s, step, c); }
      } else {
        assert step.Start?;
      }
    }
  }

  /** The invariant holds in every state of every interleaving. */
  lemma {:induction false} RunKeepsInv(run: seq<Step>)
    requires Legal(run)
    ensures Inv(After(run))
  {
    if run != [] {
      var n := |run| - 1;
      var s := After(run[..n]);
      RunKeepsInv(run[..n]);
      FifoStep(s, run[n]);
      ExecsStep(s, run[n]);
      WaitersStep(s, run[n]);
      SlotsStep(s, run[n]);
      ProvenanceStep(s, run[n]);
    }
  }

  ghost predicate Reachable(s: State) {
    exists run :: Legal(run) && After(run) == s
  }

  lemma Extend(s: State, step: Step, t: State)
    requires Reachable(s) && Enabled(s, step) && t == Apply(s, step)
    ensures Reachable(t)
  {
    var run :| Legal(run) && After(run) == s;
    assert (run + [step])[..|run|] == run;
    assert Legal(run + [step]) && After(run + [step]) == Apply(s, step);
  }

  /** How often the execution of call c has looked up a waiter to submit its result. */
  function Submissions(run: seq<Step>, c: nat): nat {
    if run == [] then 0 else
      Submissions(run[..|run| - 1], c) + if run[|run| - 1] == Lookup(c) then 1 else 0
  }

  /** Reachable with n submissions for the first call. */
  ghost predicate ReachedWith(s: State, n: nat) {
    exists run :: Legal(run) && After(run) == s && Submissions(run, 0) == n
  }

  lemma ReachedIsReachable(s: State, n: nat)
    requires ReachedWith(s, n)
    ensures Reachable(s)
  {}

  lemma Prolong(s: State, n: nat, step: Step, t: State)
    requires ReachedWith(s, n) && Enabled(s, step) && t == Apply(s, step)
    ensures ReachedWith(t, if step == Lookup(0) then n + 1 else n)
  {
    var run :| Legal(run) && After(run) == s && Submissions(run, 0) == n;
    var longer := run + [step];
    assert longer[..|run|] == run;
    assert Legal(longer) && After(longer) == Apply(s, step);
    assert Submissions(longer, 0) == if step == Lookup(0) then n + 1 else n;
  }

  // ---------------------------------------------------------------- what callers may rely on

  /** Jobs offered to a node are claimed in the order they were offered, each at most once, and at
    most 16 wait at any time. */
  lemma ClaimedOnceInOrder(s: State, n: NodeID)
    requires Reachable(s)
    ensures Log(s.taken, n) <= Log(s.offered, n)
    ensures Distinct(Log(s.taken, n))
    ensures |Log(s.offered, n)| - |Log(s.taken, n)| <= QUEUE_DEPTH
    ensures forall p :: p in Log(s.taken, n) ==> p.call < |s.calls| && s.calls[p.call].node == n
  {
    ReachableInv(s);
    var xs, ys := Log(s.taken, n), Log(s.offered, n);
    forall p | p in xs ensures p.call < |s.calls| && s.calls[p.call].node == n {
      var i :| 0 <= i < |xs| && xs[i] == p;
      assert ys[i] == p && OfferOk(s, n, p);
    }
    forall i, j | 0 <= i < j < |xs| ensures xs[i] != xs[j] {
      assert ys[i] != ys[j];
    }
  }

  /** A waiter entry always belongs to a Dispatch that has not returned. */
  lemma NoWaiterOutlivesItsDispatch(s: State, id: JobID)
    requires Reachable(s) && id in s.mb.waiters
    ensures var c := s.mb.waiters[id];
      c < |s.calls| && s.calls[c].jobID == id && !s.calls[c].phase.Returned?
  {
    ReachableInv(s);
  }

  /** Every execution is of a job that some Dispatch call offered to that very node. */
  lemma ExecutionIsGenuine(s: State, e: nat)
    requires FifoOk(s) && ExecsOk(s) && e in s.execs
    ensures e < |s.calls| && s.execs[e].node == s.calls[e].node && s.execs[e].pending == s.calls[e].Job(e)
  {
    var x := s.execs[e];
    var i :| 0 <= i < |Log(s.taken, x.node)| && Log(s.taken, x.node)[i] == x.pending;
    assert Log(s.offered, x.node)[i] == x.pending;
    assert OfferOk(s, x.node, x.pending);
  }

  /** Whatever Dispatch returns was produced by the node it addressed, running the very job this
    call handed over, provided no other call carries the same job ID. */
  lemma AnswerIsOwn(s: State, c: nat)
    requires Reachable(s) && c < |s.calls| && s.calls[c].HasAnswer()
    requires forall d :: 0 <= d < |s.calls| && d != c ==> s.calls[d].jobID != s.calls[c].jobID
    ensures c in s.execs
    ensures s.execs[c] == Execution(s.calls[c].node, s.calls[c].Job(c), s.calls[c].phase.ret.outcome)
  {
    AnswerIsProduced(s, c);
    var e :| e in s.execs && s.execs[e].outcome == s.calls[c].phase.ret.outcome
             && s.execs[e].pending.jobID == s.calls[c].jobID;
    ReachableInv(s);
    ExecutionIsGenuine(s, e);
  }

  /** With no assumption on job IDs: an answer is the outcome of an execution under the same ID. */
  lemma AnswerIsProduced(s: State, c: nat)
    requires Reachable(s) && c < |s.calls| && s.calls[c].HasAnswer()
    ensures Produced(s, c, s.calls[c].phase.ret.outcome)
  {
    ReachableInv(s);
  }

  lemma ReachableInv(s: State)
    requires Reachable(s)
    ensures Inv(s)
  {
    var run :| Legal(run) && After(run) == s;
    RunKeepsInv(run);
  }

  /** A one-call state: what the mailbox, the call and the node have come to. */
  function Solo(a: NodeID, id: JobID, x: Payload, queue: seq<Pending>, slot: Option<Outcome>, phase: Phase,
                accepted: nat, taken: map<NodeID, seq<Pending>>, execs: map<nat, Execution>,
                sends: multiset<InFlight>): State
  {
    State(Mailbox(map[a := queue], map[id := 0], map[0 := slot]), [Call(a, id, x, phase, accepted)],
          map[a := [Pending(0, id, x)]], taken, execs, sends)
  }

  lemma OfferedIsReachable(a: NodeID, id: JobID, x: Payload)
    ensures ReachedWith(Solo(a, id, x, [Pending(0, id, x)], None, Waiting, 0, map[], map[], multiset{}), 0)
  {
    var p := Pending(0, id, x);
    assert Legal([]) && After([]) == Initial && Submissions([], 0) == 0;
    assert ReachedWith(Initial, 0);
    hide ReachedWith;
    var s1 := Apply(Initial, Start(a, id, x));
    Prolong(Initial, 0, Start(a, id, x), s1);
    var s2 := Solo(a, id, x, [p], None, Waiting, 0, map[], map[], multiset{});
    assert s1.mb.Queue(a) == [] && [] + [p] == [p];
    assert s1.mb.Offer(a, p) == s2.mb && Append(s1.offered, a, p) == s2.offered;
    Prolong(s1, 0, OfferAccept(0), s2);
  }

  lemma ClaimedIsReachable(a: NodeID, id: JobID, x: Payload)
    ensures ReachedWith(Solo(a, id, x, [], None, Waiting, 0, map[a := [Pending(0, id, x)]], map[], multiset{}), 0)
  {
    hide ReachedWith;
    OfferedIsReachable(a, id, x);
    var p := Pending(0, id, x);
    var s2 := Solo(a, id, x, [p], None, Waiting, 0, map[], map[], multiset{});
    assert Log(s2.taken, a) + [p] == [p];
    assert s2.mb.Take(a).queues == map[a := []] && Append(s2.taken, a, p) == map[a := [p]];
    Prolong(s2, 0, Claim(a), Solo(a, id, x, [], None, Waiting, 0, map[a := [p]], map[], multiset{}));
  }

  lemma ExecutedIsReachable(a: NodeID, id: JobID, x: Payload, o: Outcome)
    ensures var p := Pending(0, id, x);
      ReachedWith(Solo(a, id, x, [], None, Waiting, 0, map[a := [p]], map[0 := Execution(a, p, o)],
                       multiset{InFlight(0, 0), InFlight(0, 0)}), 2)
  {
    hide ReachedWith;
    var p := Pending(0, id, x);
    var log, ran := map[a := [p]], map[0 := Execution(a, p, o)];
    ClaimedIsReachable(a, id, x);
    var s3 := Solo(a, id, x, [], None, Waiting, 0, log, map[], multiset{});
    var s4 := Solo(a, id, x, [], None, Waiting, 0, log, ran, multiset{});
    Prolong(s3, 0, Execute(a, p, o), s4);
    var s5 := Solo(a, id, x, [], None, Waiting, 0, log, ran, multiset{InFlight(0, 0)});
    Prolong(s4, 0, Lookup(0), s5);
    Prolong(s5, 1, Lookup(0), Solo(a, id, x, [], None, Waiting, 0, log, ran, multiset{InFlight(0, 0), InFlight(0, 0)}));
  }

  /** Node `a` has executed the one job, Dispatch has received its first submission, and a retry of
    the submission has looked up the waiter but not sent yet. */
  function Answered(a: NodeID, id: JobID, x: Payload, o: Outcome): State {
    Solo(a, id, x, [], None, Leaving(Answer(o)), 1, map[a := [Pending(0, id, x)]],
         map[0 := Execution(a, Pending(0, id, x), o)], multiset{InFlight(0, 0)})
  }

  lemma DeliveredIsReachable(a: NodeID, id: JobID, x: Payload, o: Outcome)
    ensures var p := Pending(0, id, x);
      ReachedWith(Solo(a, id, x, [], Some(o), Waiting, 1, map[a := [p]], map[0 := Execution(a, p, o)],
                       multiset{InFlight(0, 0)}), 2)
  {
    hide ReachedWith;
    var p, f := Pending(0, id, x), InFlight(0, 0);
    var log, ran := map[a := [p]], map[0 := Execution(a, p, o)];
    ExecutedIsReachable(a, id, x, o);
    var s := Solo(a, id, x, [], None, Waiting, 0, log, ran, multiset{f, f});
    var t := Solo(a, id, x, [], Some(o), Waiting, 1, log, ran, multiset{f});
    assert s.sends - multiset{f} == t.sends;
    assert s.mb.Send(0, o) == t.mb;
    assert s.calls[0 := s.calls[0].(accepted := 1)] == t.calls;
    Prolong(s, 2, Send(f), t);
  }

  lemma AnsweredIsReachable(a: NodeID, id: JobID, x: Payload, o: Outcome)
    ensures ReachedWith(Answered(a, id, x, o), 2)
  {
    hide ReachedWith;
    var p := Pending(0, id, x);
    var log, ran := map[a := [p]], map[0 := Execution(a, p, o)];
    DeliveredIsReachable(a, id, x, o);
    var s7 := Solo(a, id, x, [], Some(o), Waiting, 1, log, ran, multiset{InFlight(0, 0)});
    assert s7.mb.Receive(0).slots == map[0 := None];
    Prolong(s7, 2, Reply(0), Answered(a, id, x, o));
  }

  /** The second of two calls in a run that reuses `id`: node `b` was offered the job and has not
    run it, while the first call's node `a` is still submitting. */
  function Reused(a: NodeID, b: NodeID, id: JobID, pa: Payload, pb: Payload, o: Outcome): State {
    State(Mailbox(map[a := []], map[id := 1], map[0 := None, 1 := None]),
          [Call(a, id, pa, Returned(Answer(o)), 1), Call(b, id, pb, Registered, 0)],
          map[a := [Pending(0, id, pa)]], map[a := [Pending(0, id, pa)]],
          map[0 := Execution(a, Pending(0, id, pa), o)], multiset{InFlight(0, 0)})
  }

  lemma ReusedIsReachable(a: NodeID, b: NodeID, id: JobID, pa: Payload, pb: Payload, o: Outcome)
    ensures Reachable(Reused(a, b, id, pa, pb, o))
  {
    AnsweredIsReachable(a, id, pa, o);
    var s0 := Answered(a, id, pa, o);
    ReachedIsReachable(s0, 2);
    var s1 := s0.(mb := s0.mb.(waiters := map[]), calls := [Call(a, id, pa, Returned(Answer(o)), 1)]);
    Extend(s0, Finish(0), s1);
    Extend(s1, Start(b, id, pb), Reused(a, b, id, pa, pb, o));
  }

  /** The router's own reuse: the first call gave up before node `a` ran the job, and the same ID has
    been handed to node `b`. */
  function Late(a: NodeID, b: NodeID, id: JobID, pa: Payload, pb: Payload, o: Outcome): State {
    State(Mailbox(map[a := []], map[id := 1], map[0 := None, 1 := None]),
          [Call(a, id, pa, Returned(GaveUp), 0), Call(b, id, pb, Registered, 0)],
          map[a := [Pending(0, id, pa)]], map[a := [Pending(0, id, pa)]],
          map[0 := Execution(a, Pending(0, id, pa), o)], multiset{})
  }

  lemma LateIsReachable(a: NodeID, b: NodeID, id: JobID, pa: Payload, pb: Payload, o: Outcome)
    ensures Reachable(Late(a, b, id, pa, pb, o))
  {
    ClaimedIsReachable(a, id, pa);
    var p := Pending(0, id, pa);
    var log := map[a := [p]];
    var s0 := Solo(a, id, pa, [], None, Waiting, 0, log, map[], multiset{});
    ReachedIsReachable(s0, 0);
    var s1 := Solo(a, id, pa, [], None, Leaving(GaveUp), 0, log, map[], multiset{});
    Extend(s0, Timeout(0), s1);
    var s2 := s1.(mb := s1.mb.(waiters := map[]), calls := [Call(a, id, pa, Returned(GaveUp), 0)]);
    Extend(s1, Finish(0), s2);
    var s3 := s2.(execs := map[0 := Execution(a, p, o)]);
    Extend(s2, Execute(a, p, o), s3);
    Extend(s3, Start(b, id, pb), Late(a, b, id, pa, pb, o));
  }

  /** A second call that waits for a job ID under which the first call's execution is still about. */
  ghost predicate Crossing(s: State, o: Outcome, phase: Phase, slot: Option<Outcome>) {
    && |s.calls| == 2 && s.calls[1].phase == phase && 0 in s.execs && s.execs[0].outcome == o
    && 1 in s.mb.slots && s.mb.slots[1] == slot && s.execs[0].pending.jobID == s.calls[1].jobID
    && s.calls[1].jobID in s.mb.waiters && s.mb.waiters[s.calls[1].jobID] == 1
  }

  ghost predicate SameCalls(s: State, t: State) {
    && |s.calls| == |t.calls| == 2 && t.execs == s.execs && t.calls[0] == s.calls[0]
    && t.calls[1].node == s.calls[1].node && t.calls[1].jobID == s.calls[1].jobID
  }

  lemma CrossingOffer(s: State, o: Outcome) returns (t: State)
    requires Reachable(s) && Crossing(s, o, Registered, None) && s.mb.HasRoom(s.calls[1].node)
    ensures Reachable(t) && Crossing(t, o, Waiting, None) && SameCalls(s, t)
  {
    hide Append, Log;
    t := Apply(s, OfferAccept(1));
    Extend(s, OfferAccept(1), t);
  }

  lemma CrossingLookup(s: State, o: Outcome) returns (t: State)
    requires Reachable(s) && Crossing(s, o, Waiting, None)
    ensures Reachable(t) && Crossing(t, o, Waiting, None) && SameCalls(s, t) && InFlight(1, 0) in t.sends
  {
    t := s.(sends := s.sends + multiset{InFlight(1, 0)});
    Extend(s, Lookup(0), t);
  }

  lemma CrossingSend(s: State, o: Outcome) returns (t: State)
    requires Reachable(s) && Crossing(s, o, Waiting, None) && InFlight(1, 0) in s.sends
    ensures Reachable(t) && Crossing(t, o, Waiting, Some(o)) && SameCalls(s, t)
  {
    t := Apply(s, Send(InFlight(1, 0)));
    Extend(s, Send(InFlight(1, 0)), t);
  }

  lemma CrossingReply(s: State, o: Outcome) returns (t: State)
    requires Reachable(s) && Crossing(s, o, Waiting, Some(o))
    ensures Reachable(t) && Crossing(t, o, Leaving(Answer(o)), None) && SameCalls(s, t)
  {
    t := Apply(s, Reply(1));
    Extend(s, Reply(1), t);
  }

  lemma CrossingSteps(s: State, o: Outcome)
    requires Reachable(s) && Crossing(s, o, Registered, None) && s.mb.HasRoom(s.calls[1].node)
    ensures exists t :: Reachable(t) && SameCalls(s, t) && t.calls[1].phase == Leaving(Answer(o))
  {
    hide Reachable;
    var s1 := CrossingOffer(s, o);
    var s2 := CrossingLookup(s1, o);
    var s3 := CrossingSend(s2, o);
    var s4 := CrossingReply(s3, o);
    assert SameCalls(s, s4);
  }

  /** The freshness of the job ID cannot be dropped: for every job ID handed first to node `a` and
    then to node `b`, a retried submission of `a` can answer the second Dispatch although `b` has
    run nothing. */
  lemma ReusedIdCrossesAnswers(a: NodeID, b: NodeID, id: JobID, pa: Payload, pb: Payload, o: Outcome)
    ensures exists s ::
      && Reachable(s) && |s.calls| == 2
      && s.calls[1].node == b && s.calls[1].jobID == s.calls[0].jobID == id
      && s.calls[1].phase == Leaving(Answer(o))
      && s.execs == map[0 := Execution(a, Pending(0, id, pa), o)]
  {
    hide Reachable;
    ReusedIsReachable(a, b, id, pa, pb, o);
    var s := Reused(a, b, id, pa, pb, o);
    CrossingSteps(s, o);
    var t :| Reachable(t) && SameCalls(s, t) && t.calls[1].phase == Leaving(Answer(o));
  }

  /** The same after a timeout, which is when the router hands the job ID to its next node: the late
    output of the first node answers the call to the second. */
  lemma LateOutputAnswersNextCall(a: NodeID, b: NodeID, id: JobID, pa: Payload, pb: Payload, o: Outcome)
    ensures exists s ::
      && Reachable(s) && |s.calls| == 2
      && s.calls[0].phase == Returned(GaveUp) && s.calls[1].node == b && s.calls[1].jobID == s.calls[0].jobID == id
      && s.calls[1].phase == Leaving(Answer(o))
      && s.execs == map[0 := Execution(a, Pending(0, id, pa), o)]
  {
    hide Reachable;
    LateIsReachable(a, b, id, pa, pb, o);
    var s := Late(a, b, id, pa, pb, o);
    CrossingSteps(s, o);
    var t :| Reachable(t) && SameCalls(s, t) && t.calls[1].phase == Leaving(Answer(o));
  }

  // ---------------------------------------------------------------- how many results a channel accepts

  /** A result channel accepts at most two submissions, and two only after Dispatch has taken the
    first: at most one of them is ever returned. */
  lemma AcceptsAtMostTwo(s: State, c: nat)
    requires Reachable(s) && c < |s.calls|
    ensures s.calls[c].accepted <= 2
    ensures s.calls[c].accepted == 2 ==> s.calls[c].HasAnswer()
  {
    ReachableInv(s);
    assert SlotOk(s, c);
  }

  /** No other call carries the job ID of call c. */
  ghost predicate OwnID(s: State, c: nat)
    requires c < |s.calls|
  {
    forall d :: 0 <= d < |s.calls| && d != c ==> s.calls[d].jobID != s.calls[c].jobID
  }

  lemma OwnIDBefore(s: State, step: Step, c: nat)
    requires Enabled(s, step) && c < |s.calls| && c < |Apply(s, step).calls| && OwnID(Apply(s, step), c)
    ensures OwnID(s, c)
  {
    hide Append, Log;
    StepEvolves(s, step);
    forall d | 0 <= d < |s.calls| && d != c ensures s.calls[d].jobID != s.calls[c].jobID {
      assert Apply(s, step).calls[d].Job(d) == s.calls[d].Job(d);
      assert Apply(s, step).calls[c].Job(c) == s.calls[c].Job(c);
    }
  }

  /** Submissions to the channel of a call with its own ID come from that call's execution. */
  lemma SendsAreOwn(s: State, c: nat, f: InFlight)
    requires Inv(s) && c < |s.calls| && OwnID(s, c) && f in s.sends && f.channel == c
    ensures f == InFlight(c, c)
  {
    ExecutionIsGenuine(s, f.executed);
    assert s.execs[f.executed].pending == s.calls[f.executed].Job(f.executed);
  }

  function Used(s: State, c: nat): nat
    requires c < |s.calls|
  {
    s.calls[c].accepted + s.sends[InFlight(c, c)]
  }

  /** Only a lookup by call c's execution adds to what its channel has accepted or may yet accept. */
  lemma UsedStep(s: State, step: Step, c: nat)
    requires Inv(s) && Enabled(s, step) && c < |s.calls| && OwnID(s, c)
    ensures c < |Apply(s, step).calls|
    ensures Used(Apply(s, step), c) <= Used(s, c) + if step == Lookup(c) then 1 else 0
  {
    hide Append, Log, FifoOk, WaitersOk, SlotsOk, ProvenanceOk, ExecsOk;
    CallFrame(s, step, c);
    var t := Apply(s, step);
    match step {
      case Send(f) =>
        if f.channel == c {
          SendsAreOwn(s, c, f);
        }
      case Lookup(e) =>
      case Start(_, _, _) =>
      case OfferAccept(_) =>
      case OfferReject(_, _) =>
      case Reply(_) =>
      case Timeout(_) =>
      case Finish(_) =>
      case Claim(_) =>
      case Execute(_, _, _) =>
    }
  }

  lemma NewCallUnused(s: State, step: Step)
    requires Inv(s) && Enabled(s, step) && |Apply(s, step).calls| > |s.calls|
    ensures Used(Apply(s, step), |s.calls|) == 0
  {
    assert step.Start?;
    var f := InFlight(|s.calls|, |s.calls|);
    assert f in s.sends ==> f.channel < |s.calls|;
  }

  /** What the channel of a call with its own job ID has accepted, and what is still on its way to it,
    never exceeds the submissions its execution has begun. */
  lemma {:induction false} AcceptedWithinSubmissions(run: seq<Step>, c: nat)
    requires Legal(run) && c < |After(run).calls| && OwnID(After(run), c)
    ensures Used(After(run), c) <= Submissions(run, c)
  {
    if run != [] {
      hide Inv, OwnID, Used;
      var n := |run| - 1;
      var s := After(run[..n]);
      RunKeepsInv(run[..n]);
      if c < |s.calls| {
        OwnIDBefore(s, run[n], c);
        AcceptedWithinSubmissions(run[..n], c);
        UsedStep(s, run[n], c);
      } else {
        CallsGrowByOne(s, run[n]);
        NewCallUnused(s, run[n]);
      }
    }
  }

  lemma CallsGrowByOne(s: State, step: Step)
    requires Enabled(s, step)
    ensures |s.calls| <= |Apply(s, step).calls| <= |s.calls| + 1
  {
    hide Append, Log;
  }

  /** Two acceptances are possible for every job ID and outcome, with two submissions: the second found
    the waiter before Dispatch removed it and sends after Dispatch emptied the slot. Both submitters
    are told "delivered". */
  lemma SecondAcceptHappens(a: NodeID, id: JobID, payload: Payload, o: Outcome)
    ensures exists run :: Legal(run) && Submissions(run, 0) == 2 && TwiceAccepted(After(run), a, id, payload, o)
  {
    AnsweredIsReachable(a, id, payload, o);
    var s := Answered(a, id, payload, o);
    var t := Apply(s, Send(InFlight(0, 0)));
    Prolong(s, 2, Send(InFlight(0, 0)), t);
    assert TwiceAccepted(t, a, id, payload, o);
  }

  /** The one call has its answer, and the slot holds the second copy, which nobody will receive. */
  ghost predicate TwiceAccepted(s: State, a: NodeID, id: JobID, payload: Payload, o: Outcome) {
    && s.calls == [Call(a, id, payload, Leaving(Answer(o)), 2)]
    && 0 in s.mb.slots && s.mb.slots[0] == Some(o)
    && s.execs == map[0 := Execution(a, Pending(0, id, payload), o)]
  }

  /** In every run, a call with its own job ID whose execution has submitted at most n times has had at
    most one result accepted. */
  ghost predicate AtMostOne(n: nat) {
    forall run, c: nat :: Legal(run) && c < |After(run).calls| && OwnID(After(run), c) && Submissions(run, c) <= n ==>
      After(run).calls[c].accepted <= 1
  }

  /** Among calls with their own job IDs, "a waiter accepts at most one result" holds exactly for
    submissions that are not retried. */
  lemma AcceptsAtMostOneIff(n: nat)
    ensures AtMostOne(n) <==> n <= 1
  {
    if n <= 1 {
      forall run, c: nat | Legal(run) && c < |After(run).calls| && OwnID(After(run), c) && Submissions(run, c) <= n
        ensures After(run).calls[c].accepted <= 1
      {
        AcceptedWithinSubmissions(run, c);
      }
    } else {
      SecondAcceptHappens("", "", "", Output(""));
      var run :| Legal(run) && Submissions(run, 0) == 2 && TwiceAccepted(After(run), "", "", "", Output(""));
      assert OwnID(After(run), 0);
    }
  }
}
