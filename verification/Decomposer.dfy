/** Breaking a background job into sub-tasks: analytical ones that run in parallel, and a merge. */
module Decomposer {
  import opened Wrappers
  import opened Numerals
  import opened Ordering
  import opened FanOut

  function Merge(): string { "MERGE" }

  datatype Request = Request(jobID: string, allowDecomposition: bool, fastLane: bool)
  datatype Intent = Intent(kinds: seq<string>, confidence: real)
  datatype Decomposition = Decomposed(tasks: seq<Task>) | NotDecomposable

  predicate IsMerge(t: Task) { t.kind == Merge() }

  // ---------------------------------------------------------------- IDs

  /** `%02d` */
  function TwoDigits(n: nat): string {
    if n < 10 then "0" + Decimal(n) else Decimal(n)
  }

  lemma TwoDigitsReads(n: nat)
    ensures Reading(TwoDigits(n)) == n && TwoDigits(n) != "" && forall c :: c in TwoDigits(n) ==> IsDigit(c)
  {
    DecimalReads(n);
    if n < 10 {
      var d := Decimal(n);
      assert ("0" + d)[..|"0" + d| - 1] == "0";
      assert "0"[..0] == "" && Reading("0") == 0;
    }
  }

  function Lower(s: string): (r: string)
    ensures |r| == |s|
  {
    seq(|s|, i requires 0 <= i < |s| => if 'A' <= s[i] <= 'Z' then (s[i] as int + 32) as char else s[i])
  }

  function TaskID(jobID: string, i: nat, kind: string): string {
    jobID + "-sub-" + (TwoDigits(i) + "-" + Lower(kind))
  }

  function MergeID(jobID: string): string {
    jobID + "-sub-" + "merge"
  }

  lemma MergeIDIs(jobID: string)
    ensures MergeID(jobID) == jobID + "-sub-merge"
  {
    assert "-sub-" + "merge" == "-sub-merge";
    assert jobID + "-sub-" + "merge" == jobID + ("-sub-" + "merge");
  }

  /** An analytical sub-task's ID ends in its number, two digits at least, and its kind in lower case. */
  lemma TaskIDMeans(jobID: string, i: nat, kind: string)
    ensures exists digits, lower :: TaskID(jobID, i, kind) == jobID + "-sub-" + (digits + "-" + lower) &&
                                    NumberOf(digits, i) && InLowerCase(lower, kind)
  {
    TwoDigitsReads(i);
    assert NumberOf(TwoDigits(i), i) && InLowerCase(Lower(kind), kind);
  }

  predicate NumberOf(digits: string, i: nat) {
    |digits| >= 2 && Reading(digits) == i && forall c :: c in digits ==> '0' <= c <= '9'
  }

  predicate InLowerCase(lower: string, s: string) {
    |lower| == |s| && forall i :: 0 <= i < |s| ==>
      (if 'A' <= s[i] <= 'Z' then lower[i] as int == s[i] as int + 32 else lower[i] == s[i])
  }

  /** Text up to a dash can be read back. */
  lemma {:induction false} DashEnds(a: string, x: string, b: string, y: string)
    requires a + "-" + x == b + "-" + y && '-' !in a && '-' !in b
    ensures a == b
  {
    FirstDash(a, x);
    FirstDash(b, y);
    assert |a| == |b|;
    assert (a + "-" + x)[..|a|] == a && (b + "-" + y)[..|b|] == b;
  }

  lemma FirstDash(a: string, x: string)
    requires '-' !in a
    ensures (a + "-" + x)[|a|] == '-' && forall i :: 0 <= i < |a| ==> (a + "-" + x)[i] != '-'
  {}

  lemma SamePrefix(p: string, a: string, b: string)
    ensures p + a == p + b <==> a == b
  {
    assert (p + a)[|p|..] == a && (p + b)[|p|..] == b;
  }

  lemma IDsDiffer(jobID: string, i: nat, j: nat, kind: string, other: string)
    requires i != j
    ensures TaskID(jobID, i, kind) != TaskID(jobID, j, other)
  {
    TwoDigitsReads(i);
    TwoDigitsReads(j);
    var a, b := TwoDigits(i) + "-" + Lower(kind), TwoDigits(j) + "-" + Lower(other);
    if a == b {
      DashEnds(TwoDigits(i), Lower(kind), TwoDigits(j), Lower(other));
      assert false;
    }
    SamePrefix(jobID + "-sub-", a, b);
  }

  lemma MergeIDDiffers(jobID: string, i: nat, kind: string)
    ensures TaskID(jobID, i, kind) != MergeID(jobID)
  {
    TwoDigitsReads(i);
    var a := TwoDigits(i) + "-" + Lower(kind);
    assert IsDigit(a[0]) by {
      assert a[0] == TwoDigits(i)[0];
    }
    assert a != "merge";
    SamePrefix(jobID + "-sub-", a, "merge");
  }

  // ---------------------------------------------------------------- decomposition

  ghost function AnalyticalIDs(jobID: string, kinds: seq<string>): (r: seq<string>)
    ensures |r| == |kinds| && forall i :: 0 <= i < |kinds| ==> r[i] == TaskID(jobID, i, kinds[i])
  {
    seq(|kinds|, i requires 0 <= i < |kinds| => TaskID(jobID, i, kinds[i]))
  }

  function MergePrompt(): string {
    "Synthesize the sub-task outputs into a single coherent response."
  }

  /** One independent sub-task per kind, and at the end a merge of all of them. */
  ghost predicate Shape(tasks: seq<Task>, jobID: string, kinds: seq<string>) {
    && |tasks| == |kinds| + 1
    && (forall i :: 0 <= i < |kinds| ==> tasks[i].id == TaskID(jobID, i, kinds[i]) && tasks[i].kind == kinds[i] && tasks[i].deps == [])
    && tasks[|kinds|].id == MergeID(jobID) && IsMerge(tasks[|kinds|])
    && tasks[|kinds|].deps == AnalyticalIDs(jobID, kinds)
  }

  /** `classified` is the classifier's verdict on the query, or None for its error. `prompt` builds
    the instruction for a kind of sub-task. */
  method DecomposeJob(job: Request, classified: Option<Intent>, prompt: (string, string) -> string)
    returns (r: Decomposition)
    ensures r.Decomposed? <==> job.allowDecomposition && !job.fastLane && classified.Some? &&
                               classified.value.kinds != [] && classified.value.confidence >= 0.5
    ensures r.Decomposed? ==> Shape(r.tasks, job.jobID, classified.value.kinds)
    // one sub-task per kind, with its own prompt and nothing to wait for, and a merge that waits for all
    ensures r.Decomposed? ==> |r.tasks| == |classified.value.kinds| + 1
    ensures r.Decomposed? ==> forall i :: 0 <= i < |classified.value.kinds| ==>
      var kind := classified.value.kinds[i];
      r.tasks[i] == Task(TaskID(job.jobID, i, kind), kind, prompt(kind, job.jobID), [])
    ensures r.Decomposed? ==> var n := |r.tasks| - 1;
      && r.tasks[n].id == job.jobID + "-sub-merge" && r.tasks[n].kind == "MERGE"
      && |r.tasks[n].deps| == n && forall i :: 0 <= i < n ==> r.tasks[n].deps[i] == r.tasks[i].id
  {
    MergeIDIs(job.jobID);
    hide TaskID, MergeID, MergePrompt;
    if !job.allowDecomposition {
      return NotDecomposable;
    }
    if job.fastLane {
      return NotDecomposable;
    }
    if classified.None? {
      return NotDecomposable;
    }
    var kinds := classified.value.kinds;
    if |kinds| == 0 || classified.value.confidence < 0.5 {
      return NotDecomposable;
    }
    var tasks: seq<Task>, ids: seq<string> := [], [];
    for i := 0 to |kinds|
      invariant |tasks| == |ids| == i
      invariant forall j :: 0 <= j < i ==> ids[j] == TaskID(job.jobID, j, kinds[j])
      invariant forall j :: 0 <= j < i ==> tasks[j] == Task(ids[j], kinds[j], prompt(kinds[j], job.jobID), [])
    {
      var id := TaskID(job.jobID, i, kinds[i]);
      ids := ids + [id];
      tasks := tasks + [Task(id, kinds[i], prompt(kinds[i], job.jobID), [])];
    }
    assert ids == AnalyticalIDs(job.jobID, kinds);
    tasks := tasks + [Task(MergeID(job.jobID), Merge(), MergePrompt(), ids)];
    r := Decomposed(tasks);
  }

  /** The IDs of a decomposition are pairwise distinct, even when a kind is repeated. */
  lemma DistinctIDs(tasks: seq<Task>, jobID: string, kinds: seq<string>)
    requires Shape(tasks, jobID, kinds)
    ensures forall i, j :: 0 <= i < j < |tasks| ==> tasks[i].id != tasks[j].id
  {
    forall i, j | 0 <= i < j < |tasks| ensures tasks[i].id != tasks[j].id {
      if j < |kinds| {
        IDsDiffer(jobID, i, j, kinds[i], kinds[j]);
      } else {
        MergeIDDiffers(jobID, i, kinds[i]);
      }
    }
  }

  /** A decomposition is in topological order, and its last sub-task depends on exactly all the
    others: it is dispatched after every one of them. */
  lemma MergeLast(tasks: seq<Task>, jobID: string, kinds: seq<string>)
    requires Shape(tasks, jobID, kinds)
    ensures Topological(tasks)
    ensures forall i :: 0 <= i < |tasks| - 1 ==> tasks[i].id in tasks[|tasks| - 1].deps
  {
    hide TaskID, MergeID, IsMerge;
    var n := |kinds|;
    forall i, d | 0 <= i < |tasks| && d in tasks[i].deps ensures EarlierHas(tasks, i, d) {
      var j :| 0 <= j < n && tasks[n].deps[j] == d;
      assert tasks[j].id == d;
    }
    forall i | 0 <= i < n ensures tasks[i].id in tasks[n].deps {
      assert tasks[n].deps[i] == tasks[i].id;
    }
  }

  /** Fed to the fan-out, a decomposition's merge is dispatched only after every other sub-task has
    completed. */
  lemma MergeWaitsForAll<N(!new), R(!new)>(c: Setting<N, R>, s: State<R>, jobID: string, kinds: seq<string>, i: nat)
    requires Shape(c.tasks, jobID, kinds) && Reachable(c, s) && |kinds| in s.started && i < |kinds|
    ensures |s.phase| == |c.tasks| && s.phase[i].Done?
  {
    hide TaskID, MergeID, IsMerge;
    DistinctIDs(c.tasks, jobID, kinds);
    ReachableInv(c, s);
    var k :| 0 <= k < |s.started| && s.started[k] == |kinds|;
    assert c.tasks[i].id == c.tasks[|kinds|].deps[i];
    DependenciesFirst(c, s, k);
    assert DoneBefore(c, s, k, c.tasks[i].id);
    var l :| 0 <= l < k && c.tasks[s.started[l]].id == c.tasks[i].id && s.phase[s.started[l]].Done?;
    assert s.started[l] == i;
  }

  // ---------------------------------------------------------------- is it worth it

  function Analytical(tasks: seq<Task>): (r: seq<Task>)
    ensures |r| <= |tasks| && forall t :: t in r <==> t in tasks && !IsMerge(t)
  {
    if tasks == [] then [] else
      var init, t := Analytical(tasks[..|tasks| - 1]), tasks[|tasks| - 1];
      assert tasks == tasks[..|tasks| - 1] + [t];
      if !IsMerge(t) then init + [t] else init
  }

  method CountAnalytical(tasks: seq<Task>) returns (count: nat)
    ensures count == |Analytical(tasks)|
  {
    count := 0;
    for i := 0 to |tasks|
      invariant count == |Analytical(tasks[..i])|
    {
      assert tasks[..i + 1][..i] == tasks[..i];
      hide IsMerge;
      if !IsMerge(tasks[i]) {
        count := count + 1;
      }
    }
    assert tasks[..|tasks|] == tasks;
  }

  lemma {:induction false} AnalyticalCount(tasks: seq<Task>, n: nat)
    requires n <= |tasks|
    ensures |Analytical(tasks[..n])| == |set i | 0 <= i < n && tasks[i].kind != "MERGE"|
  {
    if n > 0 {
      AnalyticalCount(tasks, n - 1);
      assert tasks[..n][..n - 1] == tasks[..n - 1];
      OneMoreIndex(tasks, n);
    }
  }

  lemma OneMoreIndex(tasks: seq<Task>, n: nat)
    requires 0 < n <= |tasks|
    ensures |set i | 0 <= i < n && tasks[i].kind != "MERGE"| ==
      |set i | 0 <= i < n - 1 && tasks[i].kind != "MERGE"| + if tasks[n - 1].kind != "MERGE" then 1 else 0
  {
    var before, now := set i | 0 <= i < n - 1 && tasks[i].kind != "MERGE", set i | 0 <= i < n && tasks[i].kind != "MERGE";
    assert now == if tasks[n - 1].kind != "MERGE" then before + {n - 1} else before;
  }

  lemma AnalyticalIndices(tasks: seq<Task>)
    ensures |Analytical(tasks)| == |set i | 0 <= i < |tasks| && tasks[i].kind != "MERGE"|
  {
    AnalyticalCount(tasks, |tasks|);
    assert tasks[..|tasks|] == tasks;
  }

  method IsDecompositionWorthIt(tasks: seq<Task>, overheadMs: real) returns (worth: bool)
    ensures var n, overhead := |set i | 0 <= i < |tasks| && tasks[i].kind != "MERGE"|, if overheadMs <= 0.0 then 50.0 else overheadMs;
      worth <==> n >= 2 && 2000.0 < n as real * (1800.0 - overhead)
  {
    hide Analytical;
    var overhead := if overheadMs <= 0.0 then 50.0 else overheadMs;
    var count := CountAnalytical(tasks);
    AnalyticalIndices(tasks);
    if count < 2 {
      return false;
    }
    ShareTimes(2000.0, count as real, 1800.0 - overhead);
    var share := 2000.0 / count as real;
    worth := share + overhead < 2000.0 * 0.9;
  }

  lemma ShareTimes(total: real, n: real, limit: real)
    requires n > 0.0
    ensures total / n < limit <==> total < n * limit
  {
    var q := total / n;
    assert q * n == total;
    if q < limit {
      assert (limit - q) * n > 0.0;
    } else {
      assert (q - limit) * n >= 0.0;
    }
  }

  /** A decomposition has one analytical sub-task per kind, if the classifier names no merge. */
  lemma {:induction false} AnalyticalPart(tasks: seq<Task>, k: nat)
    requires k <= |tasks| && forall i :: 0 <= i < k ==> !IsMerge(tasks[i])
    requires forall i :: k <= i < |tasks| ==> IsMerge(tasks[i])
    ensures Analytical(tasks) == tasks[..k]
  {
    hide IsMerge;
    if tasks != [] {
      var n := |tasks| - 1;
      if k <= n {
        AnalyticalPart(tasks[..n], k);
        assert tasks[..n][..k] == tasks[..k];
      } else {
        AnalyticalPart(tasks[..n], n);
        assert tasks[..n][..n] == tasks[..n] && tasks[..k] == tasks;
        assert tasks[..n] + [tasks[n]] == tasks;
      }
    } else {
      assert tasks[..k] == [];
    }
  }
}
