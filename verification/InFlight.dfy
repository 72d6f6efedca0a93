/** The in-flight counters under concurrency. Each counter lives in a registry entry; `IncrInFlight` and
  `DecrInFlight` look the entry up under the lock and touch its counter afterwards, with separate atomic
  operations, while registration replaces entries and eviction removes them. */
module InFlight {
  import opened Wrappers

  /** An entry of the registry: whose it is, its counter, and whether none of the node's dispatches was
    under way when it was registered. */
  datatype Entry = Entry(node: string, count: int, clean: bool)

  /** How far a dispatch is. `taken` is the entry that IncrInFlight found, and `last` the one that
    DecrInFlight found. */
  datatype Phase =
    | Taking(taken: Option<nat>)                    // entry looked up, counter not yet incremented
    | Delivering(taken: Option<nat>)
    | Returning(taken: Option<nat>, last: Option<nat>) // entry looked up, counter not yet decremented
    | Resetting(at: nat)                            // decremented below zero, zero not yet stored
    | Over

  datatype Dispatch = Dispatch(node: string, phase: Phase)

  /** All entries there ever were, and the index of each node's current one. */
  datatype Fleet = Fleet(entries: seq<Entry>, current: map<string, nat>, dispatches: seq<Dispatch>)

  datatype Step =
    | Begin(node: string)  // IncrInFlight looks the entry up
    | Increment(d: nat)
    | End(d: nat)          // DecrInFlight looks the entry up
    | Decrement(d: nat)
    | Reset(d: nat)
    | Join(node: string)   // Register
    | Leave(node: string)  // eviction

  function Find(f: Fleet, node: string): Option<nat> {
    if node in f.current then Some(f.current[node]) else None
  }

  predicate UnderWay(d: Dispatch) { d.phase.Taking? || d.phase.Delivering? || d.phase.Returning? }

  predicate Possible(f: Fleet, step: Step) {
    match step
    case Begin(_) => true
    case Increment(d) => d < |f.dispatches| && f.dispatches[d].phase.Taking?
    case End(d) => d < |f.dispatches| && f.dispatches[d].phase.Delivering?
    case Decrement(d) => d < |f.dispatches| && f.dispatches[d].phase.Returning?
    case Reset(d) => d < |f.dispatches| && f.dispatches[d].phase.Resetting?
    case Join(_) => true
    case Leave(_) => true
  }

  /** The counter of entry e, if there is one, changed by delta. */
  function Add(entries: seq<Entry>, e: Option<nat>, delta: int): (r: seq<Entry>)
    ensures |r| == |entries|
  {
    if e.Some? && e.value < |entries| then entries[e.value := entries[e.value].(count := entries[e.value].count + delta)]
    else entries
  }

  function To(f: Fleet, d: nat, p: Phase): seq<Dispatch>
    requires d < |f.dispatches|
  {
    f.dispatches[d := f.dispatches[d].(phase := p)]
  }

  ghost function Next(f: Fleet, step: Step): Fleet
    requires Possible(f, step)
  {
    match step
    case Begin(node) => f.(dispatches := f.dispatches + [Dispatch(node, Taking(Find(f, node)))])
    case Increment(d) =>
      var taken := f.dispatches[d].phase.taken;
      f.(entries := Add(f.entries, taken, 1), dispatches := To(f, d, Delivering(taken)))
    case End(d) =>
      f.(dispatches := To(f, d, Returning(f.dispatches[d].phase.taken, Find(f, f.dispatches[d].node))))
    case Decrement(d) =>
      var last := f.dispatches[d].phase.last;
      var entries := Add(f.entries, last, -1);
      var below := last.Some? && last.value < |entries| && entries[last.value].count < 0;
      Fleet(entries, f.current, To(f, d, if below then Resetting(last.value) else Over))
    case Reset(d) =>
      var at := f.dispatches[d].phase.at;
      f.(entries := if at < |f.entries| then f.entries[at := f.entries[at].(count := 0)] else f.entries,
         dispatches := To(f, d, Over))
    case Join(node) =>
      f.(entries := f.entries + [Entry(node, 0, forall d :: 0 <= d < |f.dispatches| && f.dispatches[d].node == node ==> !UnderWay(f.dispatches[d]))],
         current := f.current[node := |f.entries|])
    case Leave(node) => f.(current := f.current - {node})
  }

  ghost predicate Run(fs: seq<Fleet>, steps: seq<Step>) {
    && |fs| == |steps| + 1 && fs[0] == Fleet([], map[], [])
    && forall i :: 0 <= i < |steps| ==> Possible(fs[i], steps[i]) && fs[i + 1] == Next(fs[i], steps[i])
  }

  ghost predicate Reachable(f: Fleet) {
    exists fs: seq<Fleet>, steps: seq<Step> :: Run(fs, steps) && f == fs[|fs| - 1]
  }

  // ---------------------------------------------------------------- the invariant

  /** The dispatch has incremented entry e and not yet decremented anything. */
  predicate Counts(d: Dispatch, e: nat) {
    (d.phase.Delivering? || d.phase.Returning?) && d.phase.taken == Some(e)
  }

  /** How many dispatches have. */
  function Counted(ds: seq<Dispatch>, e: nat): nat {
    if ds == [] then 0 else Counted(ds[..|ds| - 1], e) + if Counts(ds[|ds| - 1], e) then 1 else 0
  }

  lemma {:induction false} CountedUpdate(ds: seq<Dispatch>, e: nat, k: nat, d: Dispatch)
    requires k < |ds|
    ensures Counted(ds[k := d], e) == Counted(ds, e) - (if Counts(ds[k], e) then 1 else 0) + if Counts(d, e) then 1 else 0
  {
    var n := |ds| - 1;
    if k < n {
      CountedUpdate(ds[..n], e, k, d);
      assert ds[k := d][..n] == ds[..n][k := d];
    } else {
      assert ds[k := d][..n] == ds[..n];
    }
  }

  /** A dispatch refers to entries of its own node only; if the entry it took is still current, it is the
    one its end has found too. */
  ghost predicate RefersOk(f: Fleet, d: Dispatch) {
    && (!d.phase.Resetting? && !d.phase.Over? && d.phase.taken.Some? ==> Owned(f, d.phase.taken.value, d.node))
    && (d.phase.Returning? && d.phase.last.Some? ==> Owned(f, d.phase.last.value, d.node))
    && (d.phase.Resetting? ==> Owned(f, d.phase.at, d.node))
    && (d.phase.Returning? && d.phase.taken.Some? && IsCurrent(f, d.phase.taken.value) ==> d.phase.last == d.phase.taken)
  }

  predicate Owned(f: Fleet, e: nat, node: string) {
    e < |f.entries| && f.entries[e].node == node
  }

  predicate IsCurrent(f: Fleet, e: nat) {
    e < |f.entries| && f.entries[e].node in f.current && f.current[f.entries[e].node] == e
  }

  ghost predicate Refers(f: Fleet) {
    && (forall node :: node in f.current ==> Owned(f, f.current[node], node))
    && (forall d :: 0 <= d < |f.dispatches| ==> RefersOk(f, f.dispatches[d]))
  }

  /** The current counter of a node is at most the number of dispatches it counts; when the entry is clean
    all of the node's dispatches under way took it, and the counter is exact. */
  ghost predicate CounterOk(f: Fleet, e: nat)
    requires e < |f.entries|
  {
    && f.entries[e].count <= Counted(f.dispatches, e)
    && (f.entries[e].clean ==> f.entries[e].count == Counted(f.dispatches, e))
    && (f.entries[e].clean ==> forall d :: 0 <= d < |f.dispatches| && f.dispatches[d].node == f.entries[e].node ==>
          CleanOk(f.dispatches[d], e))
    && (f.entries[e].count < 0 ==> ResetPending(f, e))
  }

  predicate CleanOk(d: Dispatch, e: nat) {
    (UnderWay(d) ==> d.phase.taken == Some(e)) && d.phase != Resetting(e)
  }

  /** Some dispatch is about to store zero. */
  ghost predicate ResetPending(f: Fleet, e: nat) {
    exists d :: 0 <= d < |f.dispatches| && f.dispatches[d].phase == Resetting(e)
  }

  ghost predicate Counters(f: Fleet) {
    forall e :: 0 <= e < |f.entries| && IsCurrent(f, e) ==> CounterOk(f, e)
  }

  lemma RefersStep(f: Fleet, step: Step)
    requires Refers(f) && Possible(f, step)
    ensures Refers(Next(f, step))
  {
    var g := Next(f, step);
    CurrentStep(f, step);
    forall d | 0 <= d < |g.dispatches| ensures RefersOk(g, g.dispatches[d]) {
      ReferenceStep(f, step, d);
    }
    hide Next, RefersOk;
  }

  lemma CurrentStep(f: Fleet, step: Step)
    requires Refers(f) && Possible(f, step)
    ensures forall node :: node in Next(f, step).current ==> Owned(Next(f, step), Next(f, step).current[node], node)
  {
    hide RefersOk;
  }

  lemma ReferenceStep(f: Fleet, step: Step, d: nat)
    requires Refers(f) && Possible(f, step) && d < |Next(f, step).dispatches|
    ensures RefersOk(Next(f, step), Next(f, step).dispatches[d])
  {
    assert d < |f.dispatches| ==> RefersOk(f, f.dispatches[d]);
  }

  lemma {:induction false} NoneCounted(ds: seq<Dispatch>, e: nat)
    requires forall d :: 0 <= d < |ds| ==> !Counts(ds[d], e)
    ensures Counted(ds, e) == 0
  {
    if ds != [] {
      NoneCounted(ds[..|ds| - 1], e);
    }
  }

  /** Steps of a dispatch under way, and stores of zero, change one dispatch and at most one counter. */
  lemma OneDispatchStep(f: Fleet, step: Step, d: nat, e: nat)
    requires Refers(f) && Counters(f) && Possible(f, step)
    requires step == Increment(d) || step == End(d) || step == Decrement(d) || step == Reset(d)
    requires e < |f.entries| && IsCurrent(f, e)
    ensures CounterOk(Next(f, step), e)
  {
    var g := Next(f, step);
    CountedUpdate(f.dispatches, e, d, g.dispatches[d]);
    assert CounterOk(f, e) && RefersOk(f, f.dispatches[d]);
    if g.entries[e].count < 0 {
      if step == Decrement(d) && f.dispatches[d].phase.last == Some(e) {
        assert g.dispatches[d].phase == Resetting(e);
      } else {
        var r :| 0 <= r < |f.dispatches| && f.dispatches[r].phase == Resetting(e);
        assert g.dispatches[r].phase == Resetting(e);
      }
    }
  }

  lemma BeginStep(f: Fleet, node: string, e: nat)
    requires Refers(f) && Counters(f) && e < |f.entries| && IsCurrent(f, e)
    ensures CounterOk(Next(f, Begin(node)), e)
  {
    var g := Next(f, Begin(node));
    assert g.dispatches[..|f.dispatches|] == f.dispatches;
    assert CounterOk(f, e);
    if g.entries[e].count < 0 {
      var r :| 0 <= r < |f.dispatches| && f.dispatches[r].phase == Resetting(e);
      assert g.dispatches[r].phase == Resetting(e);
    }
  }

  lemma JoinStep(f: Fleet, node: string, e: nat)
    requires Refers(f) && Counters(f) && e < |Next(f, Join(node)).entries| && IsCurrent(Next(f, Join(node)), e)
    ensures CounterOk(Next(f, Join(node)), e)
  {
    var g := Next(f, Join(node));
    if e == |f.entries| {
      forall d | 0 <= d < |g.dispatches|
        ensures !Counts(g.dispatches[d], e)
        ensures g.entries[e].clean && g.dispatches[d].node == node ==> CleanOk(g.dispatches[d], e)
      {
        assert RefersOk(f, f.dispatches[d]);
      }
      NoneCounted(g.dispatches, e);
    } else {
      assert IsCurrent(f, e) && CounterOk(f, e);
      assert ResetPending(f, e) ==> ResetPending(g, e);
    }
  }

  lemma CountersStep(f: Fleet, step: Step, e: nat)
    requires Refers(f) && Counters(f) && Possible(f, step)
    requires e < |Next(f, step).entries| && IsCurrent(Next(f, step), e)
    ensures CounterOk(Next(f, step), e)
  {
    match step {
      case Begin(node) => BeginStep(f, node, e);
      case Increment(d) => OneDispatchStep(f, step, d, e);
      case End(d) => OneDispatchStep(f, step, d, e);
      case Decrement(d) => OneDispatchStep(f, step, d, e);
      case Reset(d) => OneDispatchStep(f, step, d, e);
      case Join(node) => JoinStep(f, node, e);
      case Leave(node) =>
        assert IsCurrent(f, e) && CounterOk(f, e);
        assert ResetPending(f, e) ==> ResetPending(Next(f, step), e);
    }
  }

  lemma {:induction false} RunInv(fs: seq<Fleet>, steps: seq<Step>, k: nat)
    requires Run(fs, steps) && k < |fs|
    ensures Refers(fs[k]) && Counters(fs[k])
  {
    if k > 0 {
      hide Refers, Next, CounterOk;
      RunInv(fs, steps, k - 1);
      RefersStep(fs[k - 1], steps[k - 1]);
      forall e | 0 <= e < |fs[k].entries| && IsCurrent(fs[k], e) ensures CounterOk(fs[k], e) {
        CountersStep(fs[k - 1], steps[k - 1], e);
      }
    }
  }

  lemma ReachableInv(f: Fleet)
    requires Reachable(f)
    ensures Refers(f) && Counters(f)
  {
    var fs, steps :| Run(fs, steps) && f == fs[|fs| - 1];
    RunInv(fs, steps, |fs| - 1);
  }

  // ---------------------------------------------------------------- what the counters mean

  /** How many dispatches to a node are between their increment and their decrement. */
  function Delivered(ds: seq<Dispatch>, node: string): nat {
    if ds == [] then 0 else
      var d := ds[|ds| - 1];
      Delivered(ds[..|ds| - 1], node) + if d.node == node && (d.phase.Delivering? || d.phase.Returning?) then 1 else 0
  }

  lemma {:induction false} CountedIsDelivered(ds: seq<Dispatch>, e: nat, node: string)
    requires forall d :: 0 <= d < |ds| && Counts(ds[d], e) ==> ds[d].node == node
    ensures Counted(ds, e) <= Delivered(ds, node)
    ensures (forall d :: 0 <= d < |ds| && ds[d].node == node && UnderWay(ds[d]) ==> ds[d].phase.taken == Some(e)) ==>
      Counted(ds, e) == Delivered(ds, node)
  {
    if ds != [] {
      CountedIsDelivered(ds[..|ds| - 1], e, node);
    }
  }

  /** Under every interleaving a counter never exceeds the node's dispatches that are between their
    increment and their decrement; it is their number for a node registered while none was under way. */
  lemma CountersTrackDispatches(f: Fleet, node: string)
    requires Reachable(f) && node in f.current
    ensures f.current[node] < |f.entries|
    ensures f.entries[f.current[node]].count <= Delivered(f.dispatches, node)
    ensures f.entries[f.current[node]].clean ==> f.entries[f.current[node]].count == Delivered(f.dispatches, node)
  {
    ReachableInv(f);
    var e := f.current[node];
    assert Owned(f, e, node) && CounterOk(f, e);
    forall d | 0 <= d < |f.dispatches| && Counts(f.dispatches[d], e) ensures f.dispatches[d].node == node {
      assert RefersOk(f, f.dispatches[d]);
    }
    CountedIsDelivered(f.dispatches, e, node);
  }

  /** Once every dispatch to a node has ended its counter is back at zero, whatever registered
    meanwhile. */
  lemma QuietMeansZero(f: Fleet, node: string)
    requires Reachable(f) && node in f.current
    requires forall d :: 0 <= d < |f.dispatches| && f.dispatches[d].node == node ==> f.dispatches[d].phase.Over?
    ensures f.current[node] < |f.entries| && f.entries[f.current[node]].count == 0
  {
    ReachableInv(f);
    var e := f.current[node];
    assert Owned(f, e, node) && CounterOk(f, e);
    forall d | 0 <= d < |f.dispatches| ensures !Counts(f.dispatches[d], e) && f.dispatches[d].phase != Resetting(e) {
      assert RefersOk(f, f.dispatches[d]);
    }
    NoneCounted(f.dispatches, e);
  }

  // ---------------------------------------------------------------- the floor at zero

  /** A counter is below zero only while some dispatch is about to store zero, and only for a node that
    was registered while dispatches to it were under way. */
  lemma BelowZeroIsTransient(f: Fleet, node: string)
    requires Reachable(f) && node in f.current
    ensures f.current[node] < |f.entries|
    ensures f.entries[f.current[node]].count < 0 ==> ResetPending(f, f.current[node]) && !f.entries[f.current[node]].clean
  {
    ReachableInv(f);
    assert Owned(f, f.current[node], node) && CounterOk(f, f.current[node]);
  }

  lemma Extend(f: Fleet, step: Step)
    requires Reachable(f) && Possible(f, step)
    ensures Reachable(Next(f, step))
  {
    var fs, steps :| Run(fs, steps) && f == fs[|fs| - 1];
    assert Run(fs + [Next(f, step)], steps + [step]);
  }

  /** Some dispatches began while the node was not registered. */
  function Unregistered(node: string, n: nat): Fleet {
    Fleet([], map[], seq(n, _ => Dispatch(node, Delivering(None))))
  }

  lemma {:induction false} UnregisteredIsReachable(node: string, n: nat)
    ensures Reachable(Unregistered(node, n))
  {
    hide Reachable;
    if n == 0 {
      EmptyIsReachable();
      assert Unregistered(node, 0) == Fleet([], map[], []);
    } else {
      UnregisteredIsReachable(node, n - 1);
      var f := Unregistered(node, n - 1);
      var g := Next(f, Begin(node));
      Extend(f, Begin(node));
      Extend(g, Increment(n - 1));
      assert Next(g, Increment(n - 1)) == Unregistered(node, n);
    }
  }

  lemma EmptyIsReachable()
    ensures Reachable(Fleet([], map[], []))
  {
    assert Run([Fleet([], map[], [])], []);
  }

  /** The node has registered since, and k of those dispatches have decremented its new counter. */
  function Below(node: string, n: nat, k: nat): Fleet {
    Fleet([Entry(node, 0 - k, n == 0)], map[node := 0],
          seq(n, i => Dispatch(node, if i < k then Resetting(0) else Delivering(None))))
  }

  lemma {:induction false} BelowIsReachable(node: string, n: nat, k: nat)
    requires k <= n
    ensures Reachable(Below(node, n, k))
  {
    hide Reachable;
    if k == 0 {
      UnregisteredIsReachable(node, n);
      var f := Unregistered(node, n);
      Extend(f, Join(node));
      assert n > 0 ==> UnderWay(f.dispatches[0]);
      assert Next(f, Join(node)).dispatches == Below(node, n, 0).dispatches;
      assert Next(f, Join(node)) == Below(node, n, 0);
    } else {
      BelowIsReachable(node, n, k - 1);
      var f := Below(node, n, k - 1);
      var g := Next(f, End(k - 1));
      Extend(f, End(k - 1));
      Extend(g, Decrement(k - 1));
      assert Next(g, Decrement(k - 1)).dispatches == Below(node, n, k).dispatches;
      assert Next(g, Decrement(k - 1)) == Below(node, n, k);
    }
  }

  /** The floor is not kept at every moment: a counter can be any amount below zero. */
  lemma CounterFallsBelowZero(node: string, n: nat)
    ensures exists f :: Reachable(f) && node in f.current && f.current[node] < |f.entries| && f.entries[f.current[node]].count == 0 - n
  {
    BelowIsReachable(node, n, n);
    var f := Below(node, n, n);
    assert f.entries[f.current[node]].count == 0 - n;
  }
}
