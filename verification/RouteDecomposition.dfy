/** Routing a background job through decomposition: fan-out, spot verification, merge, and the
  fallbacks to a single node. */
module RouteDecomposition {
  import opened Wrappers
  import opened Ordering
  import opened Registry
  import opened Router
  import opened CanonicalJson
  import FanOut
  import Decomposer
  import HashRing

  /** A node's answer to a sub-task; None is a JSON null. */
  type Reply = Option<Value>
  type Task = FanOut.Task
  type Answers = (NodeWithLoad, Task, Reply) -> bool
  type Schedule = (seq<Task>, seq<NodeWithLoad>) -> FanOut.State<Reply>

  /** What a node makes of a second dispatch of a sub-task, and of the merge of the answers. */
  type Replica = (NodeWithLoad, Task) -> Option<Reply>
  type MergeCall = (NodeWithLoad, seq<Reply>) -> Option<Reply>

  datatype BackgroundJob = BackgroundJob(request: Decomposer.Request, job: Job, background: bool,
                                         deterministic: bool, maxParallelNodes: int)

  datatype Routed =
    | Single(body: string, servedBy: string)
    | Merged(output: Reply)
    | CallerBug | NoNode | NilResult | Unverified | MergeFailed

  // ---------------------------------------------------------------- the parts

  function Limited(tasks: seq<Task>, limit: int): seq<Task> {
    if limit > 0 && |tasks| > limit then tasks[..limit] else tasks
  }

  method SelectAnalytical(tasks: seq<Task>) returns (out: seq<Task>)
    ensures out == Decomposer.Analytical(tasks)
  {
    out := [];
    for i := 0 to |tasks|
      invariant out == Decomposer.Analytical(tasks[..i])
    {
      hide Decomposer.IsMerge;
      assert tasks[..i + 1][..i] == tasks[..i];
      if !Decomposer.IsMerge(tasks[i]) {
        out := out + [tasks[i]];
      }
    }
    assert tasks[..|tasks|] == tasks;
  }

  /** The nodes a high-sensitivity job may be handed to. */
  method KeepAttested(nodes: seq<NodeWithLoad>) returns (out: seq<NodeWithLoad>)
    ensures forall n :: n in out <==> n in nodes && n.attested
    ensures DistinctNodes(nodes) ==> DistinctNodes(out)
  {
    out := [];
    for i := 0 to |nodes|
      invariant forall n :: n in out <==> n in nodes[..i] && n.attested
      invariant DistinctNodes(nodes) ==> DistinctNodes(out)
    {
      assert nodes[..i + 1] == nodes[..i] + [nodes[i]];
      if nodes[i].attested {
        forall j | 0 <= j < |out| && DistinctNodes(nodes)
          ensures out[j].manifest.nodeID != nodes[i].manifest.nodeID
        {
          assert out[j] in nodes[..i];
        }
        out := out + [nodes[i]];
      }
    }
    assert nodes[..|nodes|] == nodes;
  }

  function ShouldUseParallelVerification(j: BackgroundJob, nodes: nat, tokens: int): bool {
    j.background && j.deterministic && tokens >= 500 && nodes >= 2
  }

  function NodeNamed(r: Reply): Option<string> {
    if r.Some? && r.value.Obj? && "_node_id" in r.value.fields && r.value.fields["_node_id"].Str?
    then Some(r.value.fields["_node_id"].text) else None
  }

  /** The first node no answer names, or the first node. */
  ghost predicate SelectedFor(nodes: seq<NodeWithLoad>, results: seq<Reply>, at: nat) {
    && at < |nodes|
    && (Unnamed(results, nodes[at].manifest.nodeID) || (at == 0 && forall n :: n in nodes ==> !Unnamed(results, n.manifest.nodeID)))
    && (forall i :: 0 <= i < at ==> !Unnamed(results, nodes[i].manifest.nodeID))
  }

  method SelectMergeNode(nodes: seq<NodeWithLoad>, results: seq<Reply>) returns (at: nat)
    requires nodes != []
    ensures SelectedFor(nodes, results, at)
    ensures at < |nodes| && forall i :: 0 <= i < at ==> !Unnamed(results, nodes[i].manifest.nodeID)
    ensures !Unnamed(results, nodes[at].manifest.nodeID) ==> at == 0 && forall n :: n in nodes ==> !Unnamed(results, n.manifest.nodeID)
  {
    var used: set<string> := {};
    for i := 0 to |results|
      invariant forall id :: id in used <==> !Unnamed(results[..i], id)
    {
      assert results[..i + 1] == results[..i] + [results[i]];
      hide NodeNamed;
      var named := NodeNamed(results[i]);
      if named.Some? {
        used := used + {named.value};
      }
    }
    assert results[..|results|] == results;
    for i := 0 to |nodes|
      invariant forall j :: 0 <= j < i ==> !Unnamed(results, nodes[j].manifest.nodeID)
    {
      if nodes[i].manifest.nodeID !in used {
        return i;
      }
    }
    at := 0;
  }

  /** An answer names a node by a text under "_node_id" in its object. */
  lemma UnnamedIff(results: seq<Reply>, id: string)
    ensures Unnamed(results, id) <==> forall i :: 0 <= i < |results| ==>
      (match results[i]
       case Some(Obj(fields)) => !("_node_id" in fields && fields["_node_id"] == Str(id))
       case _ => true)
  {
    forall i | 0 <= i < |results|
      ensures var r := results[i];
        NodeNamed(r) == Some(id) <==> r.Some? && r.value.Obj? && "_node_id" in r.value.fields && r.value.fields["_node_id"] == Str(id)
    {}
    if Unnamed(results, id) {
      forall i | 0 <= i < |results| ensures NodeNamed(results[i]) != Some(id) {
        assert results[i] in results;
      }
    }
    hide NodeNamed;
  }

  predicate Unnamed(results: seq<Reply>, id: string) {
    forall r :: r in results ==> NodeNamed(r) != Some(id)
  }

  /** The fan-out of t sub-tasks gave one to the node at position p. */
  ghost predicate Took(nodes: nat, t: nat, p: nat)
    requires nodes > 0
  {
    exists i: nat :: i < t && i % nodes == p
  }

  lemma TookIsBelow(nodes: nat, t: nat, p: nat)
    requires p < nodes
    ensures Took(nodes, t, p) <==> p < t
  {
    if p < t {
      Rest(p, nodes);
      assert p % nodes == p;
    }
    if i: nat :| i < t && i % nodes == p {
      Rest(i, nodes);
    }
  }

  lemma Rest(i: nat, n: nat)
    requires n > 0
    ensures i % n <= i && (i < n ==> i % n == i)
  {
    if i >= n {
      assert i == n * (i / n) + i % n && i / n >= 0;
    }
  }

  /** Every node that took a sub-task is named by some answer. */
  ghost predicate ParticipantsNamed(nodes: seq<NodeWithLoad>, t: nat, results: seq<Reply>)
    requires nodes != []
  {
    forall p: nat :: p < |nodes| && Took(|nodes|, t, p) ==> !Unnamed(results, nodes[p].manifest.nodeID)
  }

  /** Some node took no sub-task and no answer names it. */
  ghost predicate OtherAvailable(nodes: seq<NodeWithLoad>, t: nat, results: seq<Reply>)
    requires nodes != []
  {
    exists p: nat :: p < |nodes| && !Took(|nodes|, t, p) && Unnamed(results, nodes[p].manifest.nodeID)
  }

  /** The merge goes to a node that took no sub-task exactly when the answers name every node that did
    and leave one unnamed that did not. */
  lemma MergeAvoidsParticipantsIff(nodes: seq<NodeWithLoad>, t: nat, results: seq<Reply>, at: nat)
    requires nodes != [] && t >= 1 && SelectedFor(nodes, results, at)
    ensures !Took(|nodes|, t, at) <==> ParticipantsNamed(nodes, t, results) && OtherAvailable(nodes, t, results)
  {
    hide Unnamed, Took;
    forall p: nat | p < |nodes| ensures Took(|nodes|, t, p) <==> p < t {
      TookIsBelow(|nodes|, t, p);
    }
    if at >= t {
      assert 0 < at;
      assert !Took(|nodes|, t, at) && Unnamed(results, nodes[at].manifest.nodeID);
    } else if OtherAvailable(nodes, t, results) {
      var p: nat :| p < |nodes| && !Took(|nodes|, t, p) && Unnamed(results, nodes[p].manifest.nodeID);
      assert nodes[p] in nodes;
    }
  }

  /** When no answer names its node, which nothing in the repository makes it do, the merge goes to the
    first node, which took the first sub-task, whatever other nodes there are. */
  lemma MergeGoesToAParticipant(nodes: seq<NodeWithLoad>, t: nat, results: seq<Reply>, at: nat)
    requires nodes != [] && t >= 1 && SelectedFor(nodes, results, at)
    requires forall r :: r in results ==> NodeNamed(r).None?
    ensures at == 0 && Took(|nodes|, t, at)
  {
    assert Unnamed(results, nodes[0].manifest.nodeID);
    TookIsBelow(|nodes|, t, 0);
    MergeAvoidsParticipantsIff(nodes, t, results, at);
  }

  /** An answer that is no object counts as an empty one. */
  lemma ObjectIsTaken(r: Reply, fields: map<string, Value>)
    ensures AsObject(Some(Obj(fields))) == Obj(fields)
    ensures r.None? || !r.value.Obj? ==> AsObject(r) == Obj(map[])
  {}

  function AsObject(r: Reply): Value {
    if r.Some? && r.value.Obj? then r.value else Obj(map[])
  }

  /** Verification passes when the replica answers and the two checksums agree. */
  method Compare(first: Reply, replica: Option<Reply>, digest: string -> string) returns (passed: bool)
    ensures passed <==> replica.Some? && digest(Print(AsObject(first))) == digest(Print(AsObject(replica.value)))
  {
    if replica.None? {
      return false;
    }
    var a := ComputeOutputChecksum(AsObject(first), digest);
    var b := ComputeOutputChecksum(AsObject(replica.value), digest);
    passed := a == b;
  }

  // ---------------------------------------------------------------- the route

  /** The node is in the registry as the snapshot showed it. */
  ghost predicate InSnapshot(es: Entries, n: NodeWithLoad) {
    n.manifest.nodeID in es && n == WithLoad(es[n.manifest.nodeID])
  }

  /** The nodes the fan-out dispatched to. */
  ghost function FannedOut(c: FanOut.Setting<NodeWithLoad, Reply>, s: FanOut.State<Reply>): seq<NodeWithLoad>
    requires c.nodes != []
  {
    seq(|s.started|, k requires 0 <= k < |s.started| => c.NodeFor(s.started[k]))
  }

  /** Verification applied and the second node's answer to the first sub-task has the checksum of the
    first node's. */
  ghost predicate Verified(nodes: seq<NodeWithLoad>, tasks: seq<Task>, results: seq<Reply>, replica: Replica,
                           digest: string -> string)
    requires nodes != [] && tasks != [] && |results| == |tasks|
  {
    var second := replica(nodes[1 % |nodes|], tasks[0]);
    second.Some? && digest(Print(AsObject(results[0]))) == digest(Print(AsObject(second.value)))
  }

  /** A merge happened as it should: every sub-task that was handed out has its answer from its own
    node; where verification applies, a different node was given the first sub-task too and its answer
    has the same checksum; and the output is the chosen node's merge of these answers. */
  ghost predicate ProperMerge(j: BackgroundJob, tasks: seq<Task>, nodes: seq<NodeWithLoad>, answers: Answers,
                              results: seq<Reply>, tokens: int, replica: Replica, merge: MergeCall, output: Reply,
                              digest: string -> string)
  {
    && nodes != [] && DistinctNodes(nodes) && |results| == |tasks|
    && (forall i :: 0 <= i < |tasks| ==> results[i].Some? && answers(nodes[i % |nodes|], tasks[i], results[i]))
    && (ShouldUseParallelVerification(j, |nodes|, tokens) && |tasks| >= 1 ==>
          && nodes[1 % |nodes|].manifest.nodeID != nodes[0].manifest.nodeID
          && Verified(nodes, tasks, results, replica, digest)
          && answers(nodes[1 % |nodes|], tasks[0], replica(nodes[1 % |nodes|], tasks[0]).value))
    && (exists at: nat :: SelectedFor(nodes, results, at) && merge(nodes[at], results) == Some(output))
  }

  ghost predicate Replicates(replica: Replica, answers: Answers) {
    forall n, t :: replica(n, t).Some? ==> answers(n, t, replica(n, t).value)
  }

  ghost predicate Schedules(fanOut: Schedule, answers: Answers) {
    forall ts, ns :: ns != [] ==>
      FanOut.Reachable(FanOut.Setting(ts, ns, answers), fanOut(ts, ns)) && FanOut.Settled(fanOut(ts, ns))
  }

  /** The fan-out as the route uses it. */
  method RunFanOut(tasks: seq<Task>, nodes: seq<NodeWithLoad>, answers: Answers, fanOut: Schedule)
    returns (r: Option<seq<Option<Reply>>>, ghost contacted: seq<NodeWithLoad>)
    requires nodes != [] && Schedules(fanOut, answers)
    ensures r.Some? ==> |r.value| == |tasks| && forall i :: 0 <= i < |tasks| ==>
      r.value[i].Some? && answers(nodes[i % |nodes|], tasks[i], r.value[i].value)
    ensures r.None? <==> exists i :: 0 <= i < |fanOut(tasks, nodes).phase| && FanOut.Bad(fanOut(tasks, nodes).phase[i])
    ensures r.Some? ==> r.value == fanOut(tasks, nodes).results
    ensures forall n :: n in contacted ==> n in nodes
  {
    ghost var c := FanOut.Setting(tasks, nodes, answers);
    var s := fanOut(tasks, nodes);
    FanOut.ReturnedMeaning(c, s);
    r := FanOut.Returned(s);
    contacted := FannedOut(c, s);
    forall n | n in contacted ensures n in nodes {}
    forall i | r.Some? && 0 <= i < |tasks| ensures answers(nodes[i % |nodes|], tasks[i], r.value[i].value) {
      assert c.NodeFor(i) == nodes[i % |nodes|];
    }
  }

  /** All answers are there and none is null. */
  method Collect(results: seq<Option<Reply>>) returns (replies: seq<Reply>, ok: bool)
    requires forall i :: 0 <= i < |results| ==> results[i].Some?
    ensures |replies| <= |results| && forall i :: 0 <= i < |replies| ==> replies[i] == results[i].value
    ensures ok <==> forall i :: 0 <= i < |results| ==> results[i].value.Some?
    ensures ok ==> |replies| == |results|
  {
    replies := [];
    for i := 0 to |results|
      invariant |replies| == i && forall k :: 0 <= k < i ==> replies[k] == results[k].value && replies[k].Some?
    {
      if results[i].value.None? {
        return replies, false;
      }
      replies := replies + [results[i].value];
    }
    ok := true;
  }

  /** The steps after the fan-out: verification, choice of the merge node, merge. */
  method VerifyAndMerge(j: BackgroundJob, tasks: seq<Task>, nodes: seq<NodeWithLoad>, results: seq<Reply>, tokens: int,
                        replica: Replica, merge: MergeCall, digest: string -> string)
    returns (r: Routed, ghost contacted: seq<NodeWithLoad>)
    requires nodes != [] && DistinctNodes(nodes) && |results| == |tasks|
    ensures forall n :: n in contacted ==> n in nodes
    ensures r.Merged? || r.Unverified? || r.MergeFailed?
    ensures r.Unverified? <==> ShouldUseParallelVerification(j, |nodes|, tokens) && |tasks| >= 1 &&
                               !Verified(nodes, tasks, results, replica, digest)
    ensures r.Merged? ==> exists at: nat :: SelectedFor(nodes, results, at) && merge(nodes[at], results) == Some(r.output)
    // spelled out: when an answer is checked against the second node's, and what a merge takes
    ensures r.Unverified? <==>
      && j.background && j.deterministic && tokens >= 500 && |nodes| >= 2 && |tasks| >= 1
      && (replica(nodes[1], tasks[0]).None? ||
          digest(Print(AsObject(results[0]))) != digest(Print(AsObject(replica(nodes[1], tasks[0]).value))))
    ensures !r.Unverified? ==> exists at: nat | SelectedFor(nodes, results, at) ::
      var reply := merge(nodes[at], results);
      r == if nodes[at].manifest.endpoint != "" && reply.Some? then Merged(reply.value) else MergeFailed
  {
    hide AsObject, Print, Unnamed;
    contacted := [];
    var passed := true;
    if ShouldUseParallelVerification(j, |nodes|, tokens) && |tasks| >= 1 && |nodes| >= 2 {
      contacted := [nodes[1 % |nodes|]];
      assert nodes[1 % |nodes|] == nodes[1];
      passed := Compare(results[0], replica(nodes[1 % |nodes|], tasks[0]), digest);
    }
    if !passed && |results| > 0 {
      return Unverified, contacted;
    }
    var at := SelectMergeNode(nodes, results);
    if nodes[at].manifest.endpoint == "" {
      return MergeFailed, contacted;
    }
    contacted := contacted + [nodes[at]];
    var merged := merge(nodes[at], results);
    if merged.None? {
      return MergeFailed, contacted;
    }
    r := Merged(merged.value);
  }

  /** The chosen node has somewhere to be reached and its call returns, or the merge fails. */
  function MergedBy(n: NodeWithLoad, reply: Option<Reply>): Routed {
    if n.manifest.endpoint != "" && reply.Some? then Merged(reply.value) else MergeFailed
  }

  /** Single-node routing of the whole job: the answer of the first delivery that has one and that may be
    made, from its node; no node exactly if there is none. */
  method Fallback(job: Job, messages: seq<Message>, registry: NodeRegistry, maxAttempts: int, now: int,
                  h: HashRing.Hash, outcomes: nat -> Delivery)
    returns (r: Routed, ghost contacted: seq<NodeWithLoad>, ghost ranked: seq<NodeWithLoad>)
    requires KeysMatch(registry.entries)
    modifies registry
    ensures DistinctNodes(ranked) && forall n :: n in ranked <==> Routable(old(registry.entries), now, job, n)
    ensures exists candidates :: RankedFrom(old(registry.entries), now, job, messages, h, candidates, ranked)
    ensures r.Single? || r.NoNode?
    ensures r.NoNode? <==> forall k: nat :: k < |ranked| && k < maxAttempts ==> outcomes(k).Failed?
    ensures r.Single? ==> |contacted| > 0 && |contacted| <= maxAttempts
    ensures r.Single? ==> forall k: nat :: k < |contacted| - 1 ==> outcomes(k).Failed?
    ensures r.Single? ==> outcomes(|contacted| - 1).Answered? && r.body == outcomes(|contacted| - 1).body
    ensures r.Single? ==> r.servedBy == contacted[|contacted| - 1].manifest.nodeID
    ensures contacted <= ranked && forall n :: n in contacted ==> InSnapshot(old(registry.entries), n) && (job.highSensitivity ==> n.attested)
  {
    hide IsRanking, CandidateList, Dispatched;
    ghost var before := registry.entries;
    var answer, servedBy, attempted, candidates, listed :=
      DispatchFastLane(job, messages, registry, maxAttempts, now, h, outcomes);
    ranked, contacted := listed, listed[..attempted];
    assert RankedFrom(before, now, job, messages, h, candidates, ranked);
    forall n | n in contacted ensures InSnapshot(before, n) && (job.highSensitivity ==> n.attested) {
      assert n in ranked;
    }
    hide Router.Eligible, Registry.OnStandby;
    if answer.Some? {
      r := Single(answer.value, servedBy);
    } else {
      r := NoNode;
    }
  }

  /** A ranking of the candidates the registry offers. */
  ghost predicate RankedFrom(es: Entries, now: int, job: Job, messages: seq<Message>, h: HashRing.Hash,
                             candidates: seq<NodeWithLoad>, ranked: seq<NodeWithLoad>)
  {
    CandidateList(es, now, job.modelID, job.quantization, candidates) && IsRanking(ranked, candidates, job, messages, h)
  }

  /** The candidates of a decomposed job: all of them, or the attested ones. */
  method PodNodes(job: Job, registry: NodeRegistry, now: int)
    returns (nodes: seq<NodeWithLoad>, ghost candidates: seq<NodeWithLoad>)
    requires KeysMatch(registry.entries)
    ensures DistinctNodes(nodes) && CandidateList(registry.entries, now, job.modelID, job.quantization, candidates)
    ensures forall n :: n in nodes <==> n in candidates && (!job.highSensitivity || n.attested)
    ensures forall n :: n in nodes ==> InSnapshot(registry.entries, n) && (job.highSensitivity ==> n.attested)
  {
    hide Router.Eligible;
    var listed := registry.CandidatesWithLoad(job.modelID, job.quantization, now);
    CandidatesAreDistinct(registry.entries, now, job, listed);
    candidates := listed;
    if job.highSensitivity {
      nodes := KeepAttested(listed);
    } else {
      nodes := listed;
    }
  }

  /** What became of a job: refused; served by a single node, because it cannot be split or because the
    fan-out failed; or fanned out. */
  datatype Path = Refused | Alone | FanOutFailed | Split

  /** A job that may be split: the client agreed, a confident intent was found, and at least two of its
    kinds are analytical. */
  ghost predicate Splittable(j: BackgroundJob, classified: Option<Decomposer.Intent>) {
    && !j.request.fastLane && j.request.allowDecomposition && classified.Some?
    && classified.value.kinds != [] && classified.value.confidence >= 0.5
    && |set i | 0 <= i < |classified.value.kinds| && classified.value.kinds[i] != "MERGE"| >= 2
  }

  /** The analytical sub-tasks among as many as the limit allows. */
  ghost predicate HandedOut(tasks: seq<Task>, j: BackgroundJob, kinds: seq<string>) {
    exists subTasks :: Decomposer.Shape(subTasks, j.request.jobID, kinds) &&
      tasks == Decomposer.Analytical(Limited(subTasks, j.maxParallelNodes))
  }

  /** The sub-tasks of a job that is decomposed, and worth it. */
  method SubTasks(j: BackgroundJob, classified: Option<Decomposer.Intent>, prompt: (string, string) -> string)
    returns (tasks: Option<seq<Task>>)
    requires !j.request.fastLane
    ensures tasks.Some? <==> Splittable(j, classified)
    ensures tasks.Some? ==> Decomposer.Shape(tasks.value, j.request.jobID, classified.value.kinds)
  {
    hide Decomposer.Shape;
    var decomposition := Decomposer.DecomposeJob(j.request, classified, prompt);
    if decomposition.NotDecomposable? {
      return None;
    }
    var worth := Decomposer.IsDecompositionWorthIt(decomposition.tasks, 50.0);
    WorthMeans(decomposition.tasks, classified.value.kinds);
    if !worth {
      return None;
    }
    tasks := Some(decomposition.tasks);
  }

  /** The fan-out of a decomposed job and what follows it; None when a sub-task failed or timed out. */
  method SplitJob(j: BackgroundJob, subTasks: seq<Task>, nodes: seq<NodeWithLoad>, tokens: seq<Task> -> int,
                  answers: Answers, fanOut: Schedule, replica: Replica, merge: MergeCall, digest: string -> string)
    returns (r: Option<Routed>, ghost tasks: seq<Task>, ghost results: seq<Reply>, ghost contacted: seq<NodeWithLoad>)
    requires nodes != [] && DistinctNodes(nodes) && Schedules(fanOut, answers) && Replicates(replica, answers)
    ensures tasks == Decomposer.Analytical(Limited(subTasks, j.maxParallelNodes)) && forall n :: n in contacted ==> n in nodes
    ensures r.None? <==> exists i :: 0 <= i < |fanOut(tasks, nodes).phase| && FanOut.Bad(fanOut(tasks, nodes).phase[i])
    ensures r.Some? ==> |results| == |tasks| == |fanOut(tasks, nodes).results|
    ensures r.Some? ==> forall i :: 0 <= i < |tasks| ==> fanOut(tasks, nodes).results[i] == Some(results[i])
    ensures r.Some? ==> !r.value.Single? && !r.value.NoNode? && !r.value.CallerBug?
    ensures r == Some(NilResult) <==> r.Some? && exists i :: 0 <= i < |results| && results[i].None?
    ensures r == Some(Unverified) <==>
      && r.Some? && r != Some(NilResult)
      && j.background && j.deterministic && tokens(tasks) >= 500 && |nodes| >= 2 && |tasks| >= 1
      && (replica(nodes[1], tasks[0]).None? ||
          digest(Print(AsObject(results[0]))) != digest(Print(AsObject(replica(nodes[1], tasks[0]).value))))
    ensures r.Some? && r != Some(NilResult) && r != Some(Unverified) ==>
      exists at: nat | SelectedFor(nodes, results, at) :: r.value == MergedBy(nodes[at], merge(nodes[at], results))
    ensures r.Some? && r.value.Merged? ==>
      ProperMerge(j, tasks, nodes, answers, results, tokens(tasks), replica, merge, r.value.output, digest)
  {
    hide Schedules, Replicates, Decomposer.Analytical, ShouldUseParallelVerification, DistinctNodes, SelectedFor, Verified,
      AsObject, Print, ProperMerge;
    results := [];
    var analytical := SelectAnalytical(Limited(subTasks, j.maxParallelNodes));
    tasks := analytical;
    var answered, fanned := RunFanOut(analytical, nodes, answers, fanOut);
    contacted := fanned;
    if answered.None? {
      return None, tasks, results, contacted;
    }
    results := Values(answered.value);
    var replies, ok := Collect(answered.value);
    if !ok {
      return Some(NilResult), tasks, results, contacted;
    }
    assert results == replies;
    var routed, after := VerifyAndMerge(j, analytical, nodes, replies, tokens(analytical), replica, merge, digest);
    contacted := contacted + after;
    if routed.Merged? {
      MergeIsProper(j, analytical, nodes, answers, replies, tokens(analytical), replica, merge, routed.output, digest);
    }
    r := Some(routed);
  }

  /** `RouteWithDecomposition`. The parameters from `classified` on stand for the classifier, the
    nodes' behaviour, the schedule of the fan-out, and the clock. */
  method RouteWithDecomposition(j: BackgroundJob, messages: seq<Message>, registry: NodeRegistry, maxAttempts: int,
                                classified: Option<Decomposer.Intent>, prompt: (string, string) -> string,
                                tokens: seq<Task> -> int, answers: Answers, fanOut: Schedule,
                                replica: Replica, merge: MergeCall, digest: string -> string,
                                now: int, h: HashRing.Hash, outcomes: nat -> Delivery)
    returns (r: Routed, ghost path: Path, ghost candidates: seq<NodeWithLoad>, ghost nodes: seq<NodeWithLoad>,
             ghost tasks: seq<Task>, ghost results: seq<Reply>, ghost ranked: seq<NodeWithLoad>, ghost served: nat,
             ghost contacted: seq<NodeWithLoad>)
    requires KeysMatch(registry.entries) && Schedules(fanOut, answers) && Replicates(replica, answers)
    modifies registry
    // which path is taken: the fan-out for a job that may be split and has a node to go to
    ensures path.Refused? <==> j.request.fastLane
    ensures Splittable(j, classified) ==> CandidateList(old(registry.entries), now, j.job.modelID, j.job.quantization, candidates)
    ensures path.Split? || path.FanOutFailed? <==>
      Splittable(j, classified) && exists n :: n in candidates && (!j.job.highSensitivity || n.attested)
    ensures path.Split? || path.FanOutFailed? ==>
      && HandedOut(tasks, j, classified.value.kinds)
      && nodes != [] && DistinctNodes(nodes) && forall n :: n in nodes <==> n in candidates && (!j.job.highSensitivity || n.attested)
    ensures path.FanOutFailed? ==> exists i :: 0 <= i < |fanOut(tasks, nodes).phase| && FanOut.Bad(fanOut(tasks, nodes).phase[i])
    ensures path.Split? ==> forall i :: 0 <= i < |fanOut(tasks, nodes).phase| ==> !FanOut.Bad(fanOut(tasks, nodes).phase[i])
    // what each path returns
    ensures path.Refused? <==> r.CallerBug?
    ensures path.Alone? || path.FanOutFailed? <==> r.Single? || r.NoNode?
    // a single node's answer: that of the first delivery that has one, from its node
    ensures path.Alone? || path.FanOutFailed? ==>
      exists candidates :: RankedFrom(old(registry.entries), now, j.job, messages, h, candidates, ranked)
    ensures path.Alone? || path.FanOutFailed? ==>
      (r.NoNode? <==> forall k: nat :: k < |ranked| && k < maxAttempts ==> outcomes(k).Failed?)
    ensures r.Single? ==> served < |ranked| && served < maxAttempts && forall k: nat :: k < served ==> outcomes(k).Failed?
    ensures r.Single? ==> outcomes(served).Answered? && r == Single(outcomes(served).body, ranked[served].manifest.nodeID)
    // a fan-out's: an error for a null answer or a failed verification, else the chosen node's merge
    ensures path.Split? ==> |results| == |tasks| == |fanOut(tasks, nodes).results|
    ensures path.Split? ==> forall i :: 0 <= i < |tasks| ==> fanOut(tasks, nodes).results[i] == Some(results[i])
    ensures r.NilResult? <==> path.Split? && exists i :: 0 <= i < |results| && results[i].None?
    ensures r.Unverified? <==>
      && path.Split? && !r.NilResult?
      && j.background && j.deterministic && tokens(tasks) >= 500 && |nodes| >= 2 && |tasks| >= 1
      && (replica(nodes[1], tasks[0]).None? ||
          digest(Print(AsObject(results[0]))) != digest(Print(AsObject(replica(nodes[1], tasks[0]).value))))
    ensures path.Split? && !r.NilResult? && !r.Unverified? ==>
      exists at: nat | SelectedFor(nodes, results, at) :: r == MergedBy(nodes[at], merge(nodes[at], results))
    ensures r.Merged? ==> ProperMerge(j, tasks, nodes, answers, results, tokens(tasks), replica, merge, r.output, digest)
    // nobody else is contacted
    ensures forall n :: n in contacted ==> InSnapshot(old(registry.entries), n) && (j.job.highSensitivity ==> n.attested)
    ensures r.Single? ==> ranked[served] in contacted
  {
    hide Schedules, Replicates, Decomposer.Shape, Decomposer.Analytical, ShouldUseParallelVerification, DistinctNodes,
      RankedFrom, CandidateList, Routable, InSnapshot, SelectedFor, Verified, AsObject, Print, ProperMerge, FanOut.Bad, Limited;
    path, candidates, nodes, tasks, results, ranked, served, contacted := Refused, [], [], [], [], [], 0, [];
    if j.request.fastLane {
      r := CallerBug;
      return;
    }
    path := Alone;
    var subTasks := SubTasks(j, classified, prompt);
    if subTasks.None? {
      r, contacted, ranked := Fallback(j.job, messages, registry, maxAttempts, now, h, outcomes);
      served := if r.Single? then |contacted| - 1 else 0;
      return;
    }
    var pod, listed := PodNodes(j.job, registry, now);
    candidates := listed;
    if |pod| == 0 {
      r, contacted, ranked := Fallback(j.job, messages, registry, maxAttempts, now, h, outcomes);
      served := if r.Single? then |contacted| - 1 else 0;
      return;
    }
    assert pod[0] in pod;
    nodes := pod;
    var fannedOut, given, got, all := SplitJob(j, subTasks.value, pod, tokens, answers, fanOut, replica, merge, digest);
    tasks, results, contacted := given, got, all;
    assert HandedOut(tasks, j, classified.value.kinds);
    hide HandedOut, Splittable;
    if fannedOut.Some? {
      path, r := Split, fannedOut.value;
      return;
    }
    path := FanOutFailed;
    ghost var more;
    r, more, ranked := Fallback(j.job, messages, registry, maxAttempts, now, h, outcomes);
    served := if r.Single? then |more| - 1 else 0;
    contacted := contacted + more;
  }

  ghost function Values(results: seq<Option<Reply>>): (r: seq<Reply>)
    requires forall i :: 0 <= i < |results| ==> results[i].Some?
    ensures |r| == |results| && forall i :: 0 <= i < |results| ==> results[i] == Some(r[i])
  {
    seq(|results|, i requires 0 <= i < |results| => results[i].value)
  }

  /** A decomposition is worth it exactly when at least two kinds are analytical. */
  lemma WorthMeans(tasks: seq<Task>, kinds: seq<string>)
    requires |tasks| == |kinds| + 1 && tasks[|kinds|].kind == "MERGE"
    requires forall i :: 0 <= i < |kinds| ==> tasks[i].kind == kinds[i]
    ensures var n, m := |set i | 0 <= i < |tasks| && tasks[i].kind != "MERGE"|, |set i | 0 <= i < |kinds| && kinds[i] != "MERGE"|;
      n == m && (n >= 2 && 2000.0 < n as real * (1800.0 - 50.0) <==> m >= 2)
  {
    assert (set i | 0 <= i < |tasks| && tasks[i].kind != "MERGE") == set i | 0 <= i < |kinds| && kinds[i] != "MERGE";
  }

  lemma MergeIsProper(j: BackgroundJob, tasks: seq<Task>, nodes: seq<NodeWithLoad>, answers: Answers,
                      results: seq<Reply>, tokens: int, replica: Replica, merge: MergeCall, output: Reply,
                      digest: string -> string)
    requires nodes != [] && DistinctNodes(nodes) && |results| == |tasks| && Replicates(replica, answers)
    requires forall i :: 0 <= i < |tasks| ==> results[i].Some? && answers(nodes[i % |nodes|], tasks[i], results[i])
    requires ShouldUseParallelVerification(j, |nodes|, tokens) && |tasks| >= 1 ==>
      Verified(nodes, tasks, results, replica, digest)
    requires exists at: nat :: SelectedFor(nodes, results, at) && merge(nodes[at], results) == Some(output)
    ensures ProperMerge(j, tasks, nodes, answers, results, tokens, replica, merge, output, digest)
  {
    hide SelectedFor, DistinctNodes, Verified;
    if ShouldUseParallelVerification(j, |nodes|, tokens) && |tasks| >= 1 {
      SecondDiffers(nodes);
      SecondAnswered(nodes, tasks, results, replica, digest, answers);
    }
    hide ShouldUseParallelVerification;
  }

  lemma SecondDiffers(nodes: seq<NodeWithLoad>)
    requires |nodes| >= 2 && DistinctNodes(nodes)
    ensures nodes[1 % |nodes|].manifest.nodeID != nodes[0].manifest.nodeID
  {
    assert 1 % |nodes| == 1;
  }

  lemma SecondAnswered(nodes: seq<NodeWithLoad>, tasks: seq<Task>, results: seq<Reply>, replica: Replica,
                       digest: string -> string, answers: Answers)
    requires nodes != [] && tasks != [] && |results| == |tasks| && Replicates(replica, answers)
    requires Verified(nodes, tasks, results, replica, digest)
    ensures replica(nodes[1 % |nodes|], tasks[0]).Some?
    ensures answers(nodes[1 % |nodes|], tasks[0], replica(nodes[1 % |nodes|], tasks[0]).value)
  {
    hide Print, AsObject;
  }

  ghost predicate AnsweredByTwo(answers: Answers, t: Task, m: NodeWithLoad, a: Reply, n: NodeWithLoad, b: Reply,
                                digest: string -> string)
  {
    && m.manifest.nodeID != n.manifest.nodeID && answers(m, t, a) && answers(n, t, b)
    && (AsObject(a) == AsObject(b) || exists x, y :: x != y && digest(x) == digest(y))
  }

  /** A verified job's first sub-task was answered by two different nodes, and their answers are equal
    unless the digest collides. */
  lemma VerifiedByTwoNodes(j: BackgroundJob, tasks: seq<Task>, nodes: seq<NodeWithLoad>, answers: Answers,
                           results: seq<Reply>, tokens: int, replica: Replica, merge: MergeCall, output: Reply,
                           digest: string -> string)
    requires ProperMerge(j, tasks, nodes, answers, results, tokens, replica, merge, output, digest)
    requires ShouldUseParallelVerification(j, |nodes|, tokens) && |tasks| >= 1
    requires forall n, t, r :: answers(n, t, r) ==> WellFormed(AsObject(r))
    ensures exists m, n, b :: m in nodes && n in nodes && AnsweredByTwo(answers, tasks[0], m, results[0], n, b, digest)
  {
    var second := replica(nodes[1 % |nodes|], tasks[0]).value;
    assert nodes[0] in nodes && nodes[1 % |nodes|] in nodes && 0 % |nodes| == 0;
    assert answers(nodes[0], tasks[0], results[0]);
    VerifiedAnswersAgree(results[0], second, digest);
    assert AnsweredByTwo(answers, tasks[0], nodes[0], results[0], nodes[1 % |nodes|], second, digest);
  }

  /** A verified sub-task's two answers are equal, unless the digest collides. */
  lemma VerifiedAnswersAgree(a: Reply, b: Reply, digest: string -> string)
    requires WellFormed(AsObject(a)) && WellFormed(AsObject(b))
    requires digest(Print(AsObject(a))) == digest(Print(AsObject(b)))
    ensures AsObject(a) == AsObject(b) || exists x, y :: x != y && digest(x) == digest(y)
    ensures a.Some? && a.value.Obj? && b.Some? && b.value.Obj? ==> a == b || exists x, y :: x != y && digest(x) == digest(y)
  {
    ChecksumMeaning(AsObject(a), AsObject(b), digest);
  }

  // ---------------------------------------------------------------- what the parallelism limit drops

  /** The merge sees every analytical sub-task exactly when the limit is off or not below their
    number: a smaller limit does not run them in turns but leaves them out. */
  lemma AllAnalyticalIff(tasks: seq<Task>, jobID: string, kinds: seq<string>, limit: int)
    requires Decomposer.Shape(tasks, jobID, kinds)
    requires forall i :: 0 <= i < |kinds| ==> !Decomposer.IsMerge(tasks[i])
    ensures Decomposer.Analytical(Limited(tasks, limit)) == Decomposer.Analytical(tasks) <==> limit <= 0 || limit >= |kinds|
    ensures 0 < limit < |kinds| ==> |Decomposer.Analytical(Limited(tasks, limit))| == limit < |Decomposer.Analytical(tasks)|
    ensures Decomposer.Analytical(Limited(tasks, limit)) == tasks[..if 0 < limit < |kinds| then limit else |kinds|]
  {
    hide Decomposer.IsMerge, Decomposer.TaskID, Decomposer.MergeID;
    Decomposer.AnalyticalPart(tasks, |kinds|);
    if 0 < limit < |kinds| {
      Decomposer.AnalyticalPart(tasks[..limit], limit);
      assert tasks[..limit][..limit] == tasks[..limit];
    } else if limit == |kinds| {
      Decomposer.AnalyticalPart(tasks[..limit], limit);
      assert tasks[..limit][..limit] == tasks[..limit];
    }
  }

  // ---------------------------------------------------------------- schedules exist

  /** Every sub-task of the first k fails: by its node, or by waiting in vain. */
  function AllFail(tasks: seq<Task>, k: nat): FanOut.State<Reply>
    requires k <= |tasks|
  {
    FanOut.State(
      seq(|tasks|, i requires 0 <= i < |tasks| => if i >= k then FanOut.Waiting else if tasks[i].deps == [] then FanOut.Failed else FanOut.TimedOut),
      seq(|tasks|, _ => None), map[], k, Dispatched(tasks, k))
  }

  function Dispatched(tasks: seq<Task>, k: nat): seq<nat>
    requires k <= |tasks|
  {
    if k == 0 then [] else Dispatched(tasks, k - 1) + if tasks[k - 1].deps == [] then [k - 1] else []
  }

  lemma {:induction false} AllFailReachable(c: FanOut.Setting<NodeWithLoad, Reply>, k: nat)
    requires c.nodes != [] && k <= |c.tasks|
    ensures FanOut.Reachable(c, AllFail(c.tasks, k))
  {
    if k == 0 {
      assert AllFail(c.tasks, 0) == FanOut.Initial(|c.tasks|);
      FanOut.InitialReachable(c);
    } else {
      AllFailReachable(c, k - 1);
      var s, i := AllFail(c.tasks, k - 1), k - 1;
      var t := AllFail(c.tasks, k);
      if c.tasks[i].deps == [] {
        var running := FanOut.Next(c, s, FanOut.Start(i));
        FanOut.Extend(c, s, FanOut.Start(i));
        FanOut.Extend(c, running, FanOut.Fail(i));
        assert FanOut.Next(c, running, FanOut.Fail(i)).phase == t.phase;
      } else {
        FanOut.Extend(c, s, FanOut.Timeout(i));
        assert FanOut.Next(c, s, FanOut.Timeout(i)).phase == t.phase;
      }
    }
  }

  ghost predicate AlwaysAnswer(answers: Answers) {
    forall n, t :: HasAnswer(answers, n, t)
  }

  ghost predicate HasAnswer(answers: Answers, n: NodeWithLoad, t: Task) {
    exists r: Reply :: answers(n, t, r)
  }

  /** The schedule ends, and with an answer to every sub-task if every node always answers. */
  ghost predicate EndsWell(answers: Answers, ts: seq<Task>, ns: seq<NodeWithLoad>, s: FanOut.State<Reply>) {
    ns != [] ==>
      && FanOut.Reachable(FanOut.Setting(ts, ns, answers), s) && FanOut.Settled(s)
      && (AlwaysAnswer(answers) && FanOut.Topological(ts) ==> FanOut.Returned(s).Some?)
  }

  ghost function AnswerOf(answers: Answers, n: NodeWithLoad, t: Task): (r: Reply)
    requires HasAnswer(answers, n, t)
    ensures answers(n, t, r)
  {
    var r: Reply :| answers(n, t, r);
    r
  }

  lemma SomeEnd(answers: Answers, ts: seq<Task>, ns: seq<NodeWithLoad>) returns (s: FanOut.State<Reply>)
    ensures EndsWell(answers, ts, ns, s)
  {
    var c := FanOut.Setting(ts, ns, answers);
    s := AllFail(ts, |ts|);
    if ns != [] && AlwaysAnswer(answers) && FanOut.Topological(ts) {
      assert forall i :: 0 <= i < |ts| ==> HasAnswer(answers, c.NodeFor(i), ts[i]);
      var replies := seq(|ts|, i requires 0 <= i < |ts| => AnswerOf(answers, c.NodeFor(i), ts[i]));
      s := FanOut.AnswersReachable(c, replies);
    } else if ns != [] {
      AllFailReachable(c, |ts|);
    }
  }

  ghost function EndOf(answers: Answers, ts: seq<Task>, ns: seq<NodeWithLoad>): (s: FanOut.State<Reply>)
    ensures EndsWell(answers, ts, ns, s)
  {
    assert exists s :: EndsWell(answers, ts, ns, s) by {
      var s := SomeEnd(answers, ts, ns);
    }
    var s :| EndsWell(answers, ts, ns, s);
    s
  }

  ghost predicate ReturnsAll(fanOut: Schedule) {
    forall ts, ns :: ns != [] && FanOut.Topological(ts) ==> FanOut.Returned(fanOut(ts, ns)).Some?
  }

  /** Whatever the nodes may answer, the fan-out has schedules; and if every node always answers, one that
    returns an answer to every sub-task of any topologically ordered list. */
  lemma SchedulesExist(answers: Answers)
    ensures exists fanOut: Schedule :: Schedules(fanOut, answers) && (AlwaysAnswer(answers) ==> ReturnsAll(fanOut))
  {
    var fanOut: Schedule := (ts: seq<Task>, ns: seq<NodeWithLoad>) => EndOf(answers, ts, ns);
    assert Schedules(fanOut, answers);
  }
}
