/** The concurrent fan-out of sub-tasks to nodes: one goroutine per sub-task, a shared map of
  completed results under a mutex, and a channel of errors. */
module FanOut {
  import opened Wrappers
  import opened Ordering

  datatype Task = Task(id: string, kind: string, prompt: string, deps: seq<string>)

  datatype Phase<+R> = Waiting | Running | Done(reply: R) | Failed | TimedOut

  /** `started` lists the dispatched sub-tasks in the order of their dispatches. */
  datatype State<R> = State(phase: seq<Phase<R>>, results: seq<Option<R>>, completed: map<string, R>,
                            errors: nat, started: seq<nat>)

  datatype Step<R> =
    | Start(i: nat)           // dependencies met, dispatch
    | Answer(i: nat, reply: R) // the node answers: results and completed under the mutex
    | Fail(i: nat)            // the dispatch fails
    | Timeout(i: nat)         // WaitForDependencies gives up; never without dependencies

  /** The sub-tasks, the nodes, and what a node may answer to a sub-task. */
  datatype Setting<!N, !R> = Setting(tasks: seq<Task>, nodes: seq<N>, answers: (N, Task, R) -> bool)
  {
    ghost predicate Valid() { nodes != [] }

    function NodeFor(i: nat): N
      requires nodes != []
    {
      nodes[i % |nodes|]
    }
  }

  function Initial<R>(n: nat): State<R> {
    State(seq(n, _ => Waiting), seq(n, _ => None), map[], 0, [])
  }

  predicate Possible<N, R>(c: Setting<N, R>, s: State<R>, step: Step<R>)
    requires c.nodes != []
  {
    step.i < |c.tasks| == |s.phase| &&
    match step
    case Start(i) => s.phase[i].Waiting? && forall d :: d in c.tasks[i].deps ==> d in s.completed
    case Answer(i, r) => s.phase[i].Running? && c.answers(c.NodeFor(i), c.tasks[i], r)
    case Fail(i) => s.phase[i].Running?
    case Timeout(i) => s.phase[i].Waiting? && c.tasks[i].deps != []
  }

  function Next<N, R>(c: Setting<N, R>, s: State<R>, step: Step<R>): State<R>
    requires c.nodes != [] && |s.results| == |c.tasks| && Possible(c, s, step)
  {
    match step
    case Start(i) => s.(phase := s.phase[i := Running], started := s.started + [i])
    case Answer(i, r) =>
      s.(phase := s.phase[i := Done(r)], results := s.results[i := Some(r)], completed := s.completed[c.tasks[i].id := r])
    case Fail(i) => s.(phase := s.phase[i := Failed], errors := s.errors + 1)
    case Timeout(i) => s.(phase := s.phase[i := TimedOut], errors := s.errors + 1)
  }

  ghost predicate Run<N(!new), R(!new)>(c: Setting<N, R>, ss: seq<State<R>>, steps: seq<Step<R>>) {
    && c.nodes != [] && |ss| == |steps| + 1 && ss[0] == Initial(|c.tasks|)
    && forall i :: 0 <= i < |steps| ==>
      |ss[i].results| == |c.tasks| && Possible(c, ss[i], steps[i]) && ss[i + 1] == Next(c, ss[i], steps[i])
  }

  ghost predicate Reachable<N(!new), R(!new)>(c: Setting<N, R>, s: State<R>) {
    exists ss: seq<State<R>>, steps: seq<Step<R>> :: Run(c, ss, steps) && s == ss[|ss| - 1]
  }

  lemma InitialReachable<N(!new), R(!new)>(c: Setting<N, R>)
    requires c.nodes != []
    ensures Reachable(c, Initial(|c.tasks|))
  {
    assert Run(c, [Initial(|c.tasks|)], []);
  }

  lemma Extend<N(!new), R(!new)>(c: Setting<N, R>, s: State<R>, step: Step<R>)
    requires c.nodes != [] && Reachable(c, s) && |s.results| == |c.tasks| && Possible(c, s, step)
    ensures Reachable(c, Next(c, s, step))
  {
    var ss, steps :| Run(c, ss, steps) && s == ss[|ss| - 1];
    assert Run(c, ss + [Next(c, s, step)], steps + [step]);
  }

  predicate Settled<R>(s: State<R>) {
    forall i :: 0 <= i < |s.phase| ==> !s.phase[i].Waiting? && !s.phase[i].Running?
  }

  /** What the function returns once all goroutines have ended. */
  function Returned<R>(s: State<R>): Option<seq<Option<R>>> {
    if s.errors > 0 then None else Some(s.results)
  }

  // ---------------------------------------------------------------- the invariant

  predicate Bad<R>(p: Phase<R>) { p.Failed? || p.TimedOut? }

  ghost predicate Results<N, R>(c: Setting<N, R>, s: State<R>)
    requires c.nodes != []
  {
    && |s.phase| == |s.results| == |c.tasks|
    && (forall i :: 0 <= i < |s.phase| ==> s.results[i] == if s.phase[i].Done? then Some(s.phase[i].reply) else None)
    && (forall i :: 0 <= i < |s.phase| && s.phase[i].Done? ==> c.answers(c.NodeFor(i), c.tasks[i], s.phase[i].reply))
    && (s.errors > 0 <==> exists i :: 0 <= i < |s.phase| && Bad(s.phase[i]))
  }

  /** A completed sub-task with the given ID, among the first k dispatched. */
  ghost predicate DoneBefore<N, R>(c: Setting<N, R>, s: State<R>, k: nat, id: string) {
    exists l :: 0 <= l < k && l < |s.started| && s.started[l] < |c.tasks| == |s.phase| &&
      c.tasks[s.started[l]].id == id && s.phase[s.started[l]].Done?
  }

  /** The k-th dispatch came after the completion of everything it depends on. */
  ghost predicate InOrder<N, R>(c: Setting<N, R>, s: State<R>, k: nat)
    requires k < |s.started| && s.started[k] < |c.tasks|
  {
    forall d :: d in c.tasks[s.started[k]].deps ==> DoneBefore(c, s, k, d)
  }

  ghost predicate Dispatches<N, R>(c: Setting<N, R>, s: State<R>) {
    && |s.phase| == |c.tasks| && Distinct(s.started)
    && (forall k :: 0 <= k < |s.started| ==> s.started[k] < |c.tasks|)
    && (forall i :: 0 <= i < |s.phase| ==> (i in s.started <==> !s.phase[i].Waiting? && !s.phase[i].TimedOut?))
    && (forall k :: 0 <= k < |s.started| ==> InOrder(c, s, k))
    && (forall id :: id in s.completed <==> DoneBefore(c, s, |s.started|, id))
  }

  lemma ResultsStep<N, R>(c: Setting<N, R>, s: State<R>, step: Step<R>)
    requires c.nodes != [] && Results(c, s) && Possible(c, s, step)
    ensures Results(c, Next(c, s, step))
  {
    var t, i := Next(c, s, step), step.i;
    assert forall j :: 0 <= j < |s.phase| && j != i ==> t.phase[j] == s.phase[j];
    assert !Bad(s.phase[i]);
    if exists j :: 0 <= j < |s.phase| && Bad(s.phase[j]) {
      var j :| 0 <= j < |s.phase| && Bad(s.phase[j]);
      assert Bad(t.phase[j]);
    }
    assert step.Fail? || step.Timeout? ==> Bad(t.phase[i]);
  }

  /** Completions are never undone, and the log only grows. */
  lemma DoneBeforeKept<N, R>(c: Setting<N, R>, s: State<R>, t: State<R>, k: nat, id: string)
    requires DoneBefore(c, s, k, id) && |t.phase| == |s.phase| && s.started <= t.started
    requires forall j :: 0 <= j < |s.phase| && s.phase[j].Done? ==> t.phase[j].Done?
    ensures DoneBefore(c, t, k, id)
  {
    var l :| 0 <= l < k && l < |s.started| && s.started[l] < |c.tasks| && c.tasks[s.started[l]].id == id && s.phase[s.started[l]].Done?;
    assert t.started[l] == s.started[l];
  }

  lemma InOrderKept<N, R>(c: Setting<N, R>, s: State<R>, t: State<R>, k: nat)
    requires k < |s.started| && s.started[k] < |c.tasks| && InOrder(c, s, k)
    requires |t.phase| == |s.phase| && s.started <= t.started
    requires forall j :: 0 <= j < |s.phase| && s.phase[j].Done? ==> t.phase[j].Done?
    ensures InOrder(c, t, k)
  {
    forall d | d in c.tasks[t.started[k]].deps ensures DoneBefore(c, t, k, d) {
      DoneBeforeKept(c, s, t, k, d);
    }
  }

  ghost predicate CompletedMeans<N, R>(c: Setting<N, R>, s: State<R>, id: string) {
    id in s.completed <==> DoneBefore(c, s, |s.started|, id)
  }

  lemma StartCompleted<N, R>(c: Setting<N, R>, s: State<R>, i: nat, id: string)
    requires c.nodes != [] && |s.results| == |c.tasks| && Dispatches(c, s) && Possible(c, s, Start(i))
    ensures CompletedMeans(c, Next(c, s, Start(i)), id)
  {
    hide InOrder;
    var t, n := Next(c, s, Start(i)), |s.started|;
    if id in s.completed {
      DoneBeforeKept(c, s, t, n, id);
    }
    if DoneBefore(c, t, n + 1, id) {
      var l :| 0 <= l < n + 1 && c.tasks[t.started[l]].id == id && t.phase[t.started[l]].Done?;
      assert s.started[l] == t.started[l];
      assert DoneBefore(c, s, n, id);
    }
  }

  lemma StartDispatches<N, R>(c: Setting<N, R>, s: State<R>, i: nat)
    requires c.nodes != [] && |s.results| == |c.tasks| && Dispatches(c, s) && Possible(c, s, Start(i))
    ensures Dispatches(c, Next(c, s, Start(i)))
  {
    var t, n := Next(c, s, Start(i)), |s.started|;
    forall k | 0 <= k < |t.started| ensures InOrder(c, t, k) {
      if k < n {
        InOrderKept(c, s, t, k);
      } else {
        forall d | d in c.tasks[i].deps ensures DoneBefore(c, t, n, d) {
          DoneBeforeKept(c, s, t, n, d);
        }
      }
    }
    forall id ensures CompletedMeans(c, t, id) {
      StartCompleted(c, s, i, id);
    }
    assert forall id :: CompletedMeans(c, t, id) ==> (id in t.completed <==> DoneBefore(c, t, |t.started|, id));
  }

  lemma OtherCompleted<N, R>(c: Setting<N, R>, s: State<R>, step: Step<R>, id: string)
    requires c.nodes != [] && |s.results| == |c.tasks| && Dispatches(c, s) && Possible(c, s, step) && !step.Start?
    ensures CompletedMeans(c, Next(c, s, step), id)
  {
    hide InOrder;
    var t, n := Next(c, s, step), |s.started|;
    if DoneBefore(c, s, n, id) {
      DoneBeforeKept(c, s, t, n, id);
    }
    if step.Answer? && id == c.tasks[step.i].id {
      var l :| 0 <= l < n && s.started[l] == step.i;
      assert DoneBefore(c, t, n, id);
    } else if DoneBefore(c, t, n, id) {
      var l :| 0 <= l < n && c.tasks[t.started[l]].id == id && t.phase[t.started[l]].Done?;
      assert DoneBefore(c, s, n, id);
    }
  }

  lemma OtherDispatches<N, R>(c: Setting<N, R>, s: State<R>, step: Step<R>)
    requires c.nodes != [] && |s.results| == |c.tasks| && Dispatches(c, s) && Possible(c, s, step) && !step.Start?
    ensures Dispatches(c, Next(c, s, step))
  {
    hide InOrder, DoneBefore;
    var t, n := Next(c, s, step), |s.started|;
    forall k | 0 <= k < n ensures InOrder(c, t, k) {
      InOrderKept(c, s, t, k);
    }
    forall id ensures CompletedMeans(c, t, id) {
      OtherCompleted(c, s, step, id);
    }
    assert forall id :: CompletedMeans(c, t, id) ==> (id in t.completed <==> DoneBefore(c, t, |t.started|, id));
  }

  lemma InitialInv<N, R>(c: Setting<N, R>)
    requires c.nodes != []
    ensures Results(c, Initial(|c.tasks|)) && Dispatches(c, Initial(|c.tasks|))
  {}

  lemma {:induction false} RunInv<N(!new), R(!new)>(c: Setting<N, R>, ss: seq<State<R>>, steps: seq<Step<R>>, k: nat)
    requires Run(c, ss, steps) && k < |ss|
    ensures Results(c, ss[k]) && Dispatches(c, ss[k])
  {
    hide Results, Dispatches;
    if k == 0 {
      InitialInv(c);
    } else {
      RunInv(c, ss, steps, k - 1);
      ResultsStep(c, ss[k - 1], steps[k - 1]);
      if steps[k - 1].Start? {
        StartDispatches(c, ss[k - 1], steps[k - 1].i);
      } else {
        OtherDispatches(c, ss[k - 1], steps[k - 1]);
      }
    }
  }

  lemma ReachableInv<N(!new), R(!new)>(c: Setting<N, R>, s: State<R>)
    requires Reachable(c, s)
    ensures c.nodes != [] && Results(c, s) && Dispatches(c, s)
  {
    var ss, steps :| Run(c, ss, steps) && s == ss[|ss| - 1];
    RunInv(c, ss, steps, |ss| - 1);
  }

  // ---------------------------------------------------------------- what the caller gets

  /** Under every schedule: an error is returned exactly when some sub-task failed or timed out;
    otherwise results[i] is the answer of node i mod n to sub-task i, for every i. */
  lemma ReturnedMeaning<N(!new), R(!new)>(c: Setting<N, R>, s: State<R>)
    requires Reachable(c, s) && Settled(s)
    ensures c.nodes != [] && |s.phase| == |c.tasks|
    ensures Returned(s).None? <==> exists i :: 0 <= i < |s.phase| && Bad(s.phase[i])
    ensures Returned(s).Some? ==> |Returned(s).value| == |c.tasks| && forall i :: 0 <= i < |c.tasks| ==>
      Returned(s).value[i].Some? && c.answers(c.NodeFor(i), c.tasks[i], Returned(s).value[i].value)
  {
    ReachableInv(c, s);
    if s.errors == 0 {
      forall i | 0 <= i < |c.tasks| ensures s.phase[i].Done? {
        assert !Bad(s.phase[i]);
      }
    }
  }

  /** Every sub-task is dispatched at most once, and only after everything it depends on completed. */
  lemma DependenciesFirst<N(!new), R(!new)>(c: Setting<N, R>, s: State<R>, k: nat)
    requires Reachable(c, s) && k < |s.started|
    ensures s.started[k] < |c.tasks| && InOrder(c, s, k)
    ensures forall l :: 0 <= l < |s.started| && l != k ==> s.started[l] != s.started[k]
  {
    ReachableInv(c, s);
    forall l | 0 <= l < |s.started| && l != k ensures s.started[l] != s.started[k] {
      assert l < k ==> s.started[l] != s.started[k];
    }
  }

  /** Every dependency names an earlier sub-task. */
  ghost predicate Topological(tasks: seq<Task>) {
    forall i, d :: 0 <= i < |tasks| && d in tasks[i].deps ==> EarlierHas(tasks, i, d)
  }

  predicate EarlierHas(tasks: seq<Task>, i: nat, d: string)
    requires i <= |tasks|
  {
    exists j :: 0 <= j < i && tasks[j].id == d
  }

  lemma DoneIsCompleted<N(!new), R(!new)>(c: Setting<N, R>, s: State<R>, j: nat)
    requires Reachable(c, s) && j < |c.tasks| == |s.phase| && s.phase[j].Done?
    ensures c.tasks[j].id in s.completed
  {
    ReachableInv(c, s);
    var l :| 0 <= l < |s.started| && s.started[l] == j;
    assert DoneBefore(c, s, |s.started|, c.tasks[j].id);
  }

  /** In topological order nobody waits in vain: short of a failure, some sub-task is with its node
    or may be dispatched at once. */
  lemma {:induction false} NoDeadlock<N(!new), R(!new)>(c: Setting<N, R>, s: State<R>, i: nat) returns (j: nat)
    requires Reachable(c, s) && Topological(c.tasks) && i < |c.tasks| == |s.phase| && !s.phase[i].Done?
    requires forall k :: 0 <= k < |s.phase| ==> !Bad(s.phase[k])
    ensures c.nodes != [] && j <= i && (s.phase[j].Running? || Possible(c, s, Start(j)))
    decreases i
  {
    ReachableInv(c, s);
    j := i;
    assert !Bad(s.phase[i]);
    if s.phase[i].Waiting? {
      if d :| d in c.tasks[i].deps && d !in s.completed {
        assert EarlierHas(c.tasks, i, d);
        var k :| 0 <= k < i && c.tasks[k].id == d;
        if s.phase[k].Done? {
          DoneIsCompleted(c, s, k);
        } else {
          j := NoDeadlock(c, s, k);
        }
      }
    }
  }

  /** A node has an answer to every sub-task. */
  ghost predicate Answerable<N, R>(c: Setting<N, R>, replies: seq<R>)
    requires c.nodes != []
  {
    |replies| == |c.tasks| && forall i :: 0 <= i < |c.tasks| ==> c.answers(c.NodeFor(i), c.tasks[i], replies[i])
  }

  /** The first k sub-tasks have their answers, and the others wait. */
  ghost predicate FirstDone<N, R>(c: Setting<N, R>, replies: seq<R>, k: nat, s: State<R>)
    requires k <= |replies| == |c.tasks|
  {
    && |s.phase| == |s.results| == |c.tasks| && s.errors == 0
    && (forall i :: 0 <= i < |c.tasks| ==> s.phase[i] == if i < k then Done(replies[i]) else Waiting)
    && (forall i :: 0 <= i < k ==> s.results[i] == Some(replies[i]) && c.tasks[i].id in s.completed)
  }

  lemma {:induction false} AnswersInTurn<N(!new), R(!new)>(c: Setting<N, R>, replies: seq<R>, k: nat) returns (s: State<R>)
    requires c.nodes != [] && Topological(c.tasks) && Answerable(c, replies) && k <= |c.tasks|
    ensures Reachable(c, s) && FirstDone(c, replies, k, s)
  {
    if k == 0 {
      s := Initial(|c.tasks|);
      InitialReachable(c);
    } else {
      hide Reachable;
      s := AnswersInTurn(c, replies, k - 1);
      forall d | d in c.tasks[k - 1].deps ensures d in s.completed {
        assert EarlierHas(c.tasks, k - 1, d);
      }
      Extend(c, s, Start(k - 1));
      s := Next(c, s, Start(k - 1));
      Extend(c, s, Answer(k - 1, replies[k - 1]));
      s := Next(c, s, Answer(k - 1, replies[k - 1]));
    }
  }

  /** Whatever the nodes have to answer, some schedule returns it: in topological order no sub-task has
    to fail. */
  lemma AnswersReachable<N(!new), R(!new)>(c: Setting<N, R>, replies: seq<R>) returns (s: State<R>)
    requires c.nodes != [] && Topological(c.tasks) && Answerable(c, replies)
    ensures Reachable(c, s) && Settled(s)
    ensures Returned(s).Some? && |Returned(s).value| == |replies|
    ensures forall i :: 0 <= i < |replies| ==> Returned(s).value[i] == Some(replies[i])
  {
    s := AnswersInTurn(c, replies, |replies|);
    hide Reachable;
  }
}
