/** Placement of a mixture-of-experts model on nodes, routing a token to the node that holds its
  expert, and noticing nodes whose experts are used out of proportion. */
module MoePlanner {
  import opened Numerals
  import opened Ordering
  import opened ExpertShares
  import opened ExpertTies

  datatype Plan = Plan(experts: map<string, seq<int>>) | NoCandidates | NotPositive
  datatype Candidate = Candidate(nodeID: string, memoryGB: real, capPct: real)

  function Capacity(c: Candidate): (r: real)
    ensures r > 0.0
  {
    if c.memoryGB * c.capPct <= 0.0 then 1.0 else c.memoryGB * c.capPct
  }

  function Capacities(cs: seq<Candidate>): (r: seq<real>)
    ensures |r| == |cs| && AllPositive(r)
    ensures forall i :: 0 <= i < |cs| ==> r[i] == Capacity(cs[i])
  {
    if cs == [] then [] else Capacities(cs[..|cs| - 1]) + [Capacity(cs[|cs| - 1])]
  }

  // ---------------------------------------------------------------- the layout of a plan

  datatype Entry = Entry(nodeID: string, count: nat)

  predicate ById(a: Entry, b: Entry) { LexLe(a.nodeID, b.nodeID) }

  function Total(order: seq<Entry>): nat {
    if order == [] then 0 else Total(order[..|order| - 1]) + order[|order| - 1].count
  }

  /** The first expert of the i-th block. */
  function Start(order: seq<Entry>, i: nat): nat
    requires i <= |order|
  {
    Total(order[..i])
  }

  function Range(lo: nat, n: nat): (r: seq<int>)
    ensures |r| == n && forall i :: 0 <= i < n ==> r[i] == lo + i
  {
    seq(n, i => lo + i)
  }

  function Layout(order: seq<Entry>): map<string, seq<int>> {
    if order == [] then map[] else
      var e, m := order[|order| - 1], Layout(order[..|order| - 1]);
      if e.count == 0 then m else m[e.nodeID := Range(Start(order, |order| - 1), e.count)]
  }

  /** The final loop of the planner. */
  method AssignBlocks(order: seq<Entry>) returns (m: map<string, seq<int>>)
    ensures m == Layout(order)
  {
    m := map[];
    var expertID := 0;
    for i := 0 to |order|
      invariant m == Layout(order[..i]) && expertID == Start(order, i)
    {
      assert order[..i + 1][..i] == order[..i];
      if order[i].count == 0 {
        continue;
      }
      var experts: seq<int> := [];
      for k := 0 to order[i].count
        invariant experts == Range(Start(order, i), k) && expertID == Start(order, i) + k
      {
        experts := experts + [expertID];
        expertID := expertID + 1;
      }
      m := m[order[i].nodeID := experts];
    }
    assert order[..|order|] == order;
  }

  /** The i-th entry is the last one with experts under its node ID. */
  ghost predicate LastOfId(order: seq<Entry>, i: nat) {
    i < |order| && order[i].count > 0 &&
    forall j :: i < j < |order| && order[j].count > 0 ==> order[j].nodeID != order[i].nodeID
  }

  lemma {:induction false} LayoutAt(order: seq<Entry>, i: nat)
    requires LastOfId(order, i)
    ensures order[i].nodeID in Layout(order)
    ensures Layout(order)[order[i].nodeID] == Range(Start(order, i), order[i].count)
  {
    var n := |order| - 1;
    if i < n {
      assert LastOfId(order[..n], i) by {
        forall j | i < j < n && order[..n][j].count > 0 ensures order[..n][j].nodeID != order[i].nodeID {
          assert order[j].nodeID != order[i].nodeID;
        }
      }
      LayoutAt(order[..n], i);
      assert order[..n][..i] == order[..i];
      assert order[n].count > 0 ==> order[n].nodeID != order[i].nodeID;
    }
  }

  lemma {:induction false} LayoutFrom(order: seq<Entry>, node: string) returns (i: nat)
    requires node in Layout(order)
    ensures LastOfId(order, i) && order[i].nodeID == node
    ensures Layout(order)[node] == Range(Start(order, i), order[i].count)
  {
    var n := |order| - 1;
    if order[n].count > 0 && order[n].nodeID == node {
      i := n;
    } else {
      i := LayoutFrom(order[..n], node);
      assert order[..n][..i] == order[..i];
      forall j | i < j < |order| && order[j].count > 0 ensures order[j].nodeID != node {
        if j < n {
          assert order[..n][j].nodeID != order[..n][i].nodeID;
        }
      }
    }
  }

  lemma {:induction false} StartMonotone(order: seq<Entry>, i: nat, j: nat)
    requires i < j <= |order|
    ensures Start(order, i) + order[i].count <= Start(order, j) <= Total(order)
    decreases |order|
  {
    var n := |order| - 1;
    if j <= n {
      StartMonotone(order[..n], i, j);
      assert order[..n][..i] == order[..i] && order[..n][..j] == order[..j];
    } else {
      assert order[..j] == order;
      if i < n {
        StartMonotone(order[..n], i, n);
        assert order[..n][..i] == order[..i] && order[..n][..n] == order[..n];
      }
    }
  }

  lemma {:induction false} FindBlock(order: seq<Entry>, e: nat) returns (i: nat)
    requires e < Total(order)
    ensures i < |order| && Start(order, i) <= e < Start(order, i) + order[i].count
  {
    var n := |order| - 1;
    if e >= Total(order[..n]) {
      i := n;
    } else {
      i := FindBlock(order[..n], e);
      assert order[..n][..i] == order[..i];
    }
  }

  // ---------------------------------------------------------------- what a plan promises

  predicate Holds(m: map<string, seq<int>>, node: string, e: int) {
    node in m && e in m[node]
  }

  /** Every expert has a holder. */
  ghost predicate Complete(m: map<string, seq<int>>, total: nat) {
    forall e: nat :: e < total ==> Held(m, e)
  }

  ghost predicate Held(m: map<string, seq<int>>, e: int) {
    exists node :: Holds(m, node, e)
  }

  /** No expert has two holders, and only experts of the model are held. */
  ghost predicate Exclusive(m: map<string, seq<int>>, total: nat) {
    && (forall node, e :: Holds(m, node, e) ==> 0 <= e < total)
    && (forall a, b, e :: Holds(m, a, e) && Holds(m, b, e) ==> a == b)
  }

  /** Every node's experts are one block of consecutive IDs, and blocks are in node-ID order. */
  ghost predicate Contiguous(m: map<string, seq<int>>) {
    && (forall node :: node in m ==> exists lo: nat :: m[node] == Range(lo, |m[node]|) && m[node] != [])
    && (forall a, b, d, e :: Holds(m, a, d) && Holds(m, b, e) && LexLess(a, b) ==> d < e)
  }

  ghost predicate DistinctHolders(order: seq<Entry>) {
    forall i, j :: 0 <= i < j < |order| && order[i].count > 0 && order[j].count > 0 ==>
      order[i].nodeID != order[j].nodeID
  }

  lemma InRange(lo: nat, n: nat, e: int)
    ensures e in Range(lo, n) <==> lo <= e < lo + n
  {
    if lo <= e < lo + n {
      assert Range(lo, n)[e - lo] == e;
    }
  }

  lemma HeldInBlock(order: seq<Entry>, node: string, e: int) returns (i: nat)
    requires Holds(Layout(order), node, e)
    ensures LastOfId(order, i) && order[i].nodeID == node
    ensures Start(order, i) <= e < Start(order, i) + order[i].count <= Total(order)
  {
    i := LayoutFrom(order, node);
    InRange(Start(order, i), order[i].count, e);
    StartMonotone(order, i, i + 1);
  }

  lemma SameBlock(order: seq<Entry>, i: nat, j: nat, e: int)
    requires i < |order| && j < |order|
    requires Start(order, i) <= e < Start(order, i) + order[i].count
    requires Start(order, j) <= e < Start(order, j) + order[j].count
    ensures i == j
  {
    if i < j {
      StartMonotone(order, i, j);
    } else if j < i {
      StartMonotone(order, j, i);
    }
  }

  lemma LayoutExclusive(order: seq<Entry>)
    ensures Exclusive(Layout(order), Total(order))
  {
    var m := Layout(order);
    forall node, e | Holds(m, node, e) ensures 0 <= e < Total(order) {
      var i := HeldInBlock(order, node, e);
    }
    forall a, b, e | Holds(m, a, e) && Holds(m, b, e) ensures a == b {
      var i := HeldInBlock(order, a, e);
      var j := HeldInBlock(order, b, e);
      SameBlock(order, i, j, e);
    }
  }

  lemma LayoutContiguous(order: seq<Entry>)
    requires SortedBy(ById, order)
    ensures Contiguous(Layout(order))
  {
    var m := Layout(order);
    forall node | node in m
      ensures exists lo: nat :: m[node] == Range(lo, |m[node]|) && m[node] != []
    {
      var i := LayoutFrom(order, node);
      assert m[node] == Range(Start(order, i), |m[node]|);
    }
    forall a, b, d, e | Holds(m, a, d) && Holds(m, b, e) && LexLess(a, b) ensures d < e {
      var i := HeldInBlock(order, a, d);
      var j := HeldInBlock(order, b, e);
      LexTotal(a, b);
      assert j < i ==> ById(order[j], order[i]);
      StartMonotone(order, i, j);
    }
  }

  lemma AllPlaced(order: seq<Entry>)
    requires DistinctHolders(order)
    ensures Complete(Layout(order), Total(order))
  {
    forall e: nat | e < Total(order) ensures Held(Layout(order), e) {
      var i := FindBlock(order, e);
      LayoutAt(order, i);
      InRange(Start(order, i), order[i].count, e);
      assert Holds(Layout(order), order[i].nodeID, e);
    }
  }

  lemma FirstBlockLost(order: seq<Entry>, i: nat, j: nat)
    requires i < j < |order| && order[i].count > 0 && order[j].count > 0 && order[i].nodeID == order[j].nodeID
    ensures Start(order, i) < Total(order) && !Held(Layout(order), Start(order, i))
  {
    var e := Start(order, i);
    StartMonotone(order, i, i + 1);
    if node :| Holds(Layout(order), node, e) {
      var k := HeldInBlock(order, node, e);
      SameBlock(order, i, k, e);
      assert false;
    }
  }

  /** Every expert is placed exactly when no two entries with experts share a node ID: the later of
    two such entries overwrites the earlier. */
  lemma LayoutCompleteIff(order: seq<Entry>)
    ensures Complete(Layout(order), Total(order)) <==> DistinctHolders(order)
  {
    if DistinctHolders(order) {
      AllPlaced(order);
    } else {
      var i, j :| 0 <= i < j < |order| && order[i].count > 0 && order[j].count > 0 &&
        order[i].nodeID == order[j].nodeID;
      FirstBlockLost(order, i, j);
    }
  }

  // ---------------------------------------------------------------- the planner

  /** The entries are the candidates with their counts, sorted by node ID. */
  ghost predicate Arranged(order: seq<Entry>, cs: seq<Candidate>, counts: seq<int>) {
    && |counts| == |cs| && SortedBy(ById, order)
    && (forall i :: 0 <= i < |counts| ==> counts[i] >= 0)
    && multiset(order) == multiset(Entries(cs, counts))
  }

  ghost function Entries(cs: seq<Candidate>, counts: seq<int>): (r: seq<Entry>)
    requires |counts| == |cs| && forall i :: 0 <= i < |counts| ==> counts[i] >= 0
    ensures |r| == |cs|
  {
    seq(|cs|, i requires 0 <= i < |cs| => Entry(cs[i].nodeID, counts[i]))
  }

  ghost predicate PlannedAs(m: map<string, seq<int>>, cs: seq<Candidate>, total: nat, counts: seq<int>,
                            order: seq<Entry>)
  {
    Apportions(counts, Capacities(cs), total) && Arranged(order, cs, counts) && m == Layout(order)
  }

  /** A plan lays out an apportionment by largest remainders in node-ID order. */
  ghost predicate IsPlan(m: map<string, seq<int>>, cs: seq<Candidate>, total: nat) {
    exists counts, order :: PlannedAs(m, cs, total, counts, order)
  }

  /** The first loop: a node without declared memory still counts as one unit. */
  method ReadCapacities(cs: seq<Candidate>) returns (caps: seq<real>, totalCap: real)
    ensures caps == Capacities(cs) && totalCap == SumReal(caps)
  {
    caps, totalCap := [], 0.0;
    assert SumReal([]) == 0.0;
    hide SumReal;
    for i := 0 to |cs|
      invariant |caps| == i && totalCap == SumReal(caps)
      invariant forall j :: 0 <= j < i ==> caps[j] == Capacity(cs[j])
    {
      var cap := cs[i].memoryGB * cs[i].capPct;
      if cap <= 0.0 {
        cap := 1.0;
      }
      SumRealAppend(caps, cap);
      caps, totalCap := caps + [cap], totalCap + cap;
    }
    assert caps == Capacities(cs);
  }

  method PlanMoEExpertAssignment(totalExperts: int, candidates: seq<Candidate>) returns (r: Plan)
    ensures r.NoCandidates? <==> candidates == []
    ensures r.NotPositive? <==> candidates != [] && totalExperts <= 0
    ensures r.Plan? ==> IsPlan(r.experts, candidates, totalExperts)
  {
    if |candidates| == 0 {
      return NoCandidates;
    }
    if totalExperts <= 0 {
      return NotPositive;
    }
    var caps, totalCap := ReadCapacities(candidates);
    var counts := Apportion(caps, totalCap, totalExperts);
    NoNegativeCount(counts, caps, totalExperts);
    var unsorted: seq<Entry> := [];
    for i := 0 to |candidates|
      invariant |unsorted| == i
      invariant forall j :: 0 <= j < i ==> unsorted[j] == Entry(candidates[j].nodeID, counts[j])
    {
      unsorted := unsorted + [Entry(candidates[i].nodeID, counts[i])];
    }
    assert unsorted == Entries(candidates, counts);
    ByIdIsTotalPreorder();
    var order := SortSlice(unsorted, ById);
    var m := AssignBlocks(order);
    assert PlannedAs(m, candidates, totalExperts, counts, order);
    r := Plan(m);
  }

  lemma ByIdIsTotalPreorder()
    ensures TotalPreorder(ById)
  {
    LexLeIsTotalPreorder();
    forall x: Entry, y: Entry, z: Entry | ById(x, y) && ById(y, z) ensures ById(x, z) {
      assert LexLe(x.nodeID, y.nodeID) && LexLe(y.nodeID, z.nodeID);
    }
    forall x: Entry, y: Entry ensures ById(x, y) || ById(y, x) {
      assert LexLe(x.nodeID, y.nodeID) || LexLe(y.nodeID, x.nodeID);
    }
  }

  lemma NoNegativeCount(counts: seq<int>, caps: seq<real>, total: nat)
    requires caps != [] && AllPositive(caps) && Apportions(counts, caps, total)
    ensures forall i :: 0 <= i < |counts| ==> counts[i] >= 0
  {
    forall i | 0 <= i < |counts| ensures counts[i] >= 0 {
      QuotaNonNegative(caps[i], SumReal(caps), total);
      assert Rounded(counts[i], Quota(caps[i], SumReal(caps), total));
    }
  }

  // ---------------------------------------------------------------- the plan, read off the candidates

  function CountAsReal(e: Entry): real { e.count as real }

  lemma {:induction false} TotalIsSum(order: seq<Entry>)
    ensures Total(order) as real == SumBy(CountAsReal, order)
  {
    if order != [] {
      var n := |order| - 1;
      TotalIsSum(order[..n]);
      SumBySplit(CountAsReal, order, n);
      assert order[n..] == [order[n]];
    }
  }

  lemma {:induction false} EntriesSum(entries: seq<Entry>, counts: seq<int>)
    requires |entries| == |counts| && forall i :: 0 <= i < |entries| ==> entries[i].count == counts[i]
    ensures SumBy(CountAsReal, entries) == Sum(counts) as real
  {
    if entries != [] {
      EntriesSum(entries[1..], counts[1..]);
    }
  }

  lemma TotalOfPlan(order: seq<Entry>, cs: seq<Candidate>, counts: seq<int>)
    requires Arranged(order, cs, counts)
    ensures Total(order) == Sum(counts)
  {
    TotalIsSum(order);
    SumByPermutation(CountAsReal, order, Entries(cs, counts));
    EntriesSum(Entries(cs, counts), counts);
  }

  ghost predicate OnlyHolder(s: seq<Entry>, x: Entry) {
    multiset(s)[x] <= 1 && forall y :: y in multiset(s) && y.count > 0 && y.nodeID == x.nodeID ==> y == x
  }

  lemma Occurrences(s: seq<Entry>, i: nat)
    requires i < |s|
    ensures multiset(s) == multiset(s[..i]) + multiset{s[i]} + multiset(s[i + 1..])
  {
    assert s == s[..i] + [s[i]] + s[i + 1..];
  }

  lemma DistinctIsOnly(s: seq<Entry>, x: Entry)
    requires DistinctHolders(s) && x in multiset(s) && x.count > 0
    ensures OnlyHolder(s, x)
  {
    var i :| 0 <= i < |s| && s[i] == x;
    Occurrences(s, i);
    assert x !in s[..i] && x !in s[i + 1..];
  }

  lemma RepeatIsNotOnly(s: seq<Entry>, i: nat, j: nat)
    requires i < j < |s| && s[i].count > 0 && s[j].count > 0 && s[i].nodeID == s[j].nodeID
    ensures !OnlyHolder(s, s[i])
  {
    Occurrences(s, i);
    assert s[j] == s[i + 1..][j - i - 1];
  }

  /** Distinctness does not depend on the order of the entries. */
  lemma DistinctHoldersUnordered(s: seq<Entry>)
    ensures DistinctHolders(s) <==> forall x :: x in multiset(s) && x.count > 0 ==> OnlyHolder(s, x)
  {
    hide OnlyHolder;
    if DistinctHolders(s) {
      forall x | x in multiset(s) && x.count > 0 ensures OnlyHolder(s, x) {
        DistinctIsOnly(s, x);
      }
    } else {
      var i, j :| 0 <= i < j < |s| && s[i].count > 0 && s[j].count > 0 && s[i].nodeID == s[j].nodeID;
      RepeatIsNotOnly(s, i, j);
      assert s[i] in multiset(s);
    }
  }

  /** Two candidates that get experts never share a node ID. */
  ghost predicate DistinctWinners(cs: seq<Candidate>, counts: seq<int>)
    requires |counts| == |cs|
  {
    forall i, j :: 0 <= i < j < |cs| && counts[i] > 0 && counts[j] > 0 ==> cs[i].nodeID != cs[j].nodeID
  }

  lemma OnlyHolderUnordered(a: seq<Entry>, b: seq<Entry>, x: Entry)
    requires multiset(a) == multiset(b)
    ensures OnlyHolder(a, x) <==> OnlyHolder(b, x)
  {}

  lemma EntriesDistinct(cs: seq<Candidate>, counts: seq<int>)
    requires |counts| == |cs| && forall i :: 0 <= i < |counts| ==> counts[i] >= 0
    ensures DistinctHolders(Entries(cs, counts)) <==> DistinctWinners(cs, counts)
  {
    var entries := Entries(cs, counts);
    if DistinctHolders(entries) {
      forall i, j | 0 <= i < j < |cs| && counts[i] > 0 && counts[j] > 0 ensures cs[i].nodeID != cs[j].nodeID {
        assert entries[i].nodeID != entries[j].nodeID;
      }
    }
  }

  lemma HoldersAreWinners(order: seq<Entry>, cs: seq<Candidate>, counts: seq<int>)
    requires Arranged(order, cs, counts)
    ensures DistinctHolders(order) <==> DistinctWinners(cs, counts)
  {
    hide OnlyHolder, DistinctHolders, Entries, DistinctWinners, SortedBy;
    var entries := Entries(cs, counts);
    DistinctHoldersUnordered(order);
    DistinctHoldersUnordered(entries);
    EntriesDistinct(cs, counts);
    forall x ensures OnlyHolder(order, x) <==> OnlyHolder(entries, x) {
      OnlyHolderUnordered(order, entries, x);
    }
  }

  ghost predicate DistinctIds(cs: seq<Candidate>) {
    forall i, j :: 0 <= i < j < |cs| ==> cs[i].nodeID != cs[j].nodeID
  }

  /** How many experts a node holds. */
  function Load(m: map<string, seq<int>>, node: string): nat {
    if node in m then |m[node]| else 0
  }

  /** With distinct node IDs the plan is a partition, and every node's block has its count. */
  lemma PlanOfDistinctIds(m: map<string, seq<int>>, cs: seq<Candidate>, total: nat, counts: seq<int>,
                          order: seq<Entry>)
    requires PlannedAs(m, cs, total, counts, order) && DistinctIds(cs)
    ensures Complete(m, total) && Exclusive(m, total) && Contiguous(m)
    ensures forall i :: 0 <= i < |cs| ==> Load(m, cs[i].nodeID) == counts[i]
  {
    hide Apportions, Total, Exclusive, Contiguous, Complete;
    assert DistinctWinners(cs, counts);
    PlanPartitionsIff(m, cs, total, counts, order);
    HoldersAreWinners(order, cs, counts);
    forall i | 0 <= i < |cs| ensures Load(m, cs[i].nodeID) == counts[i] {
      LoadIsCount(order, cs, counts, i);
    }
  }

  lemma CountOfId(order: seq<Entry>, cs: seq<Candidate>, counts: seq<int>, k: nat, i: nat)
    requires Arranged(order, cs, counts) && DistinctIds(cs) && i < |cs| && k < |order|
    requires order[k].nodeID == cs[i].nodeID
    ensures order[k].count == counts[i]
  {
    SameElements(order, Entries(cs, counts));
    assert order[k] in Entries(cs, counts);
  }

  lemma LoadIsCount(order: seq<Entry>, cs: seq<Candidate>, counts: seq<int>, i: nat)
    requires Arranged(order, cs, counts) && DistinctIds(cs) && i < |cs| && DistinctHolders(order)
    ensures Load(Layout(order), cs[i].nodeID) == counts[i]
  {
    hide Layout;
    if counts[i] > 0 {
      SameElements(order, Entries(cs, counts));
      assert Entries(cs, counts)[i] in order;
      var k :| 0 <= k < |order| && order[k] == Entries(cs, counts)[i];
      LayoutAt(order, k);
    } else if cs[i].nodeID in Layout(order) {
      var k := LayoutFrom(order, cs[i].nodeID);
      CountOfId(order, cs, counts, k, i);
      assert false;
    }
  }

  /** Every node ends up with its exact share of the experts, rounded down or up. */
  lemma LoadIsShare(m: map<string, seq<int>>, cs: seq<Candidate>, total: nat, i: nat)
    requires IsPlan(m, cs, total) && DistinctIds(cs) && i < |cs|
    ensures SumReal(Capacities(cs)) > 0.0
    ensures Rounded(Load(m, cs[i].nodeID), Quota(Capacity(cs[i]), SumReal(Capacities(cs)), total))
  {
    var counts, order :| PlannedAs(m, cs, total, counts, order);
    PlanOfDistinctIds(m, cs, total, counts, order);
    PositiveSum(Capacities(cs));
  }

  /** A candidate's weight: its memory times the share it offers, or 1 if that is not positive. */
  lemma WeightMeans(c: Candidate)
    ensures c.memoryGB * c.capPct > 0.0 ==> Capacity(c) == c.memoryGB * c.capPct
    ensures c.memoryGB * c.capPct <= 0.0 ==> Capacity(c) == 1.0
  {}

  lemma {:induction false} WeightsAddUp(cs: seq<Candidate>)
    ensures SumReal(Capacities(cs)) == SumBy(Capacity, cs)
  {
    if cs != [] {
      var n := |cs| - 1;
      WeightsAddUp(cs[..n]);
      SumRealAppend(Capacities(cs[..n]), Capacity(cs[n]));
      SumBySplit(Capacity, cs, n);
      assert cs[n..] == [cs[n]];
      hide Capacity;
    }
  }

  /** A node's load is its part of the experts in proportion to memory times offered share, or 1 where that
    is not positive, to within one expert. */
  lemma LoadFollowsMemory(m: map<string, seq<int>>, cs: seq<Candidate>, total: nat, i: nat, weight: Candidate -> real)
    requires IsPlan(m, cs, total) && DistinctIds(cs) && i < |cs|
    requires forall c :: weight(c) == if c.memoryGB * c.capPct > 0.0 then c.memoryGB * c.capPct else 1.0
    ensures SumBy(weight, cs) > 0.0
    ensures var part, load, all := weight(cs[i]) * total as real, Load(m, cs[i].nodeID) as real, SumBy(weight, cs);
      part - all < load * all < part + all
  {
    hide Capacity, Load, SumBy, IsPlan, DistinctIds;
    SameWeights(weight);
    SumBySame(Capacity, weight, cs);
    LoadFollowsCapacity(m, cs, total, i);
  }

  lemma SameWeights(weight: Candidate -> real)
    requires forall c :: weight(c) == if c.memoryGB * c.capPct > 0.0 then c.memoryGB * c.capPct else 1.0
    ensures forall c :: Capacity(c) == weight(c)
  {}

  lemma LoadFollowsCapacity(m: map<string, seq<int>>, cs: seq<Candidate>, total: nat, i: nat)
    requires IsPlan(m, cs, total) && DistinctIds(cs) && i < |cs|
    ensures SumBy(Capacity, cs) > 0.0
    ensures var part, load, all := Capacity(cs[i]) * total as real, Load(m, cs[i].nodeID) as real, SumBy(Capacity, cs);
      part - all < load * all < part + all
  {
    hide Quota, Capacity, Load, SumReal, SumBy, IsPlan, DistinctIds;
    LoadIsShare(m, cs, total, i);
    WeightsAddUp(cs);
    Proportional(Load(m, cs[i].nodeID), Capacity(cs[i]), SumReal(Capacities(cs)), total);
  }

  lemma Proportional(load: int, capacity: real, all: real, total: nat)
    requires all > 0.0 && Rounded(load, Quota(capacity, all, total))
    ensures capacity * total as real - all < load as real * all < capacity * total as real + all
  {
    hide Quota;
    var quota := Quota(capacity, all, total);
    QuotaTimes(capacity, all, total);
    ScaledTo(load as real, quota, all, capacity * total as real);
  }

  lemma ScaledTo(load: real, quota: real, all: real, part: real)
    requires all > 0.0 && load - 1.0 < quota < load + 1.0 && quota * all == part
    ensures part - all < load * all < part + all
  {
    Exceeds(quota, load, all, part, load * all);
    Exceeds(load, quota, all, load * all, part);
  }

  lemma Exceeds(a: real, b: real, all: real, x: real, y: real)
    requires all > 0.0 && b - 1.0 < a && a * all == x && b * all == y
    ensures y - all < x
  {
    var d := a - (b - 1.0);
    assert d * all > 0.0;
    assert d * all == a * all - (b - 1.0) * all;
    assert (b - 1.0) * all == b * all - all;
  }

  /** The plan of candidates with distinct IDs is a partition into blocks; a node with more capacity
    never holds fewer experts. */
  lemma PlanIsPartition(m: map<string, seq<int>>, cs: seq<Candidate>, total: nat)
    requires IsPlan(m, cs, total) && DistinctIds(cs) && total > 0
    ensures Complete(m, total) && Exclusive(m, total) && Contiguous(m)
    ensures forall i, j :: 0 <= i < |cs| && 0 <= j < |cs| && Capacity(cs[i]) > Capacity(cs[j]) ==>
      Load(m, cs[i].nodeID) >= Load(m, cs[j].nodeID)
  {
    hide Complete, Exclusive, Contiguous, Layout;
    var counts, order :| PlannedAs(m, cs, total, counts, order);
    PlanOfDistinctIds(m, cs, total, counts, order);
    forall i, j | 0 <= i < |cs| && 0 <= j < |cs| && Capacity(cs[i]) > Capacity(cs[j])
      ensures Load(m, cs[i].nodeID) >= Load(m, cs[j].nodeID)
    {
      MoreMemoryNeverFewer(counts, Capacities(cs), total, i, j);
    }
  }

  /** Every plan gives each expert at most one holder, in blocks of consecutive IDs that follow the
    node-ID order. It gives every expert a holder exactly when no node ID is listed twice with
    experts to its name. */
  lemma PlanPartitionsIff(m: map<string, seq<int>>, cs: seq<Candidate>, total: nat, counts: seq<int>,
                          order: seq<Entry>)
    requires PlannedAs(m, cs, total, counts, order)
    ensures Exclusive(m, total) && Contiguous(m)
    ensures Complete(m, total) <==> DistinctWinners(cs, counts)
  {
    hide Layout, Total, Exclusive, Contiguous, Complete, WithinShare;
    TotalOfPlan(order, cs, counts);
    LayoutExclusive(order);
    LayoutContiguous(order);
    LayoutCompleteIff(order);
    HoldersAreWinners(order, cs, counts);
  }

  /** Two candidates under one node ID who may both get experts: the nodes that have to be rounded up for
    that are no more than the experts that rounding down leaves over. */
  ghost predicate MayClash(cs: seq<Candidate>, total: nat, i: nat, j: nat)
    requires SumReal(Capacities(cs)) > 0.0 && i < j < |cs|
  {
    cs[i].nodeID == cs[j].nodeID && |Needed(Capacities(cs), total, i, j)| <= Leftover(Capacities(cs), total)
  }

  ghost predicate NoClash(cs: seq<Candidate>, total: nat)
    requires SumReal(Capacities(cs)) > 0.0
  {
    forall i, j :: 0 <= i < j < |cs| ==> !MayClash(cs, total, i, j)
  }

  /** Every plan gives each expert a holder, however ties are broken, exactly when no two candidates of
    one ID may both get experts. */
  lemma EveryPlanIsCompleteIff(cs: seq<Candidate>, total: nat)
    requires cs != []
    ensures SumReal(Capacities(cs)) > 0.0
    ensures (forall m :: IsPlan(m, cs, total) ==> Complete(m, total)) <==> NoClash(cs, total)
  {
    PositiveSum(Capacities(cs));
    hide SumReal, Needed, Leftover, Apportions, Complete, Layout, Capacities;
    forall i: nat, j: nat | i < j < |cs| && MayClash(cs, total, i, j)
      ensures exists m :: IsPlan(m, cs, total) && !Complete(m, total)
    {
      var m := ClashingPlan(cs, total, i, j);
    }
    if NoClash(cs, total) {
      forall m | IsPlan(m, cs, total) ensures Complete(m, total) {
        ClashFreePlan(m, cs, total);
      }
    }
  }

  lemma ClashFreePlan(m: map<string, seq<int>>, cs: seq<Candidate>, total: nat)
    requires cs != [] && SumReal(Capacities(cs)) > 0.0 && NoClash(cs, total) && IsPlan(m, cs, total)
    ensures Complete(m, total)
  {
    hide SumReal, Needed, Leftover, Apportions, Complete, Layout;
    var counts, order :| PlannedAs(m, cs, total, counts, order);
    PlanPartitionsIff(m, cs, total, counts, order);
    forall i, j | 0 <= i < j < |cs| && counts[i] > 0 && counts[j] > 0 ensures cs[i].nodeID != cs[j].nodeID {
      assert GivesBoth(counts, Capacities(cs), total, i, j);
      BothGetIff(Capacities(cs), total, i, j);
      assert !MayClash(cs, total, i, j);
    }
  }

  lemma ClashingPlan(cs: seq<Candidate>, total: nat, i: nat, j: nat) returns (m: map<string, seq<int>>)
    requires cs != [] && SumReal(Capacities(cs)) > 0.0 && i < j < |cs| && MayClash(cs, total, i, j)
    ensures IsPlan(m, cs, total) && !Complete(m, total)
  {
    hide SumReal, Needed, Leftover, Apportions, Complete, Layout;
    var caps := Capacities(cs);
    BothGetIff(caps, total, i, j);
    var counts :| GivesBoth(counts, caps, total, i, j);
    assert |counts| == |cs| by { LengthOfApportionment(counts, caps, total); }
    NoNegativeCount(counts, caps, total);
    ByIdIsTotalPreorder();
    var order := SortedExists(Entries(cs, counts), ById);
    m := Layout(order);
    assert PlannedAs(m, cs, total, counts, order);
    PlanPartitionsIff(m, cs, total, counts, order);
    assert !DistinctWinners(cs, counts);
  }

  lemma LengthOfApportionment(counts: seq<int>, caps: seq<real>, total: nat)
    requires AllPositive(caps) && Apportions(counts, caps, total)
    ensures |counts| == |caps|
  {}

  /** Two candidates under one node ID, each with a share of at least one expert: every plan loses
    an expert. */
  lemma RepeatedIdLosesExperts(m: map<string, seq<int>>, cs: seq<Candidate>, total: nat, i: nat, j: nat)
    requires IsPlan(m, cs, total) && i < j < |cs| && cs[i].nodeID == cs[j].nodeID
    requires SumReal(Capacities(cs)) > 0.0
    requires Quota(Capacity(cs[i]), SumReal(Capacities(cs)), total) >= 1.0
    requires Quota(Capacity(cs[j]), SumReal(Capacities(cs)), total) >= 1.0
    ensures !Complete(m, total)
  {
    hide Quota, Complete, Layout;
    var counts, order :| PlannedAs(m, cs, total, counts, order);
    assert Rounded(counts[i], Quota(Capacities(cs)[i], SumReal(Capacities(cs)), total));
    assert Rounded(counts[j], Quota(Capacities(cs)[j], SumReal(Capacities(cs)), total));
    PlanPartitionsIff(m, cs, total, counts, order);
    assert !DistinctWinners(cs, counts);
  }

  // ---------------------------------------------------------------- routing a token

  /** A decoded JSON value, as far as routing looks at it. */
  datatype Json = IntValue(int) | Number(real) | OtherValue
  datatype ExpertList = Ints(seq<int>) | Anys(seq<Json>) | NoList
  datatype Decision = Decision(hasActivated: bool, activated: ExpertList, hasExpert: bool, expert: Json)
  datatype Route = Node(id: string) | NoExperts | Unplaced

  function Numbers(vs: seq<Json>): seq<int> {
    if vs == [] then [] else
      var rest := Numbers(vs[..|vs| - 1]);
      match vs[|vs| - 1]
      case IntValue(i) => rest + [i]
      case Number(x) => rest + [Truncate(x)]
      case OtherValue => rest
  }

  /** The experts a decision names; a malformed list does not fall back to the single expert. */
  function ExpertsNamed(d: Decision): seq<int> {
    if d.hasActivated then
      match d.activated
      case Ints(v) => v
      case Anys(v) => Numbers(v)
      case NoList => []
    else if d.hasExpert then Numbers([d.expert])
    else []
  }

  method DecodeNumbers(vs: seq<Json>) returns (ids: seq<int>)
    ensures ids == Numbers(vs)
  {
    ids := [];
    for i := 0 to |vs|
      invariant ids == Numbers(vs[..i])
    {
      assert vs[..i + 1][..i] == vs[..i];
      match vs[i]
      case IntValue(n) => ids := ids + [n];
      case Number(x) => ids := ids + [Truncate(x)];
      case OtherValue =>
    }
    assert vs[..|vs|] == vs;
  }

  /** A number read as an expert: a fraction is cut off, toward zero. */
  predicate ReadsAs(j: Json, e: int) {
    match j
    case IntValue(i) => e == i
    case Number(x) => if x >= 0.0 then e as real <= x < e as real + 1.0 else e as real - 1.0 < x <= e as real
    case OtherValue => false
  }

  lemma {:induction false} FirstNumber(vs: seq<Json>, k: nat)
    requires k <= |vs| && forall i :: 0 <= i < k ==> vs[i].OtherValue?
    ensures k == |vs| ==> Numbers(vs) == []
    ensures k < |vs| && !vs[k].OtherValue? ==> Numbers(vs) != [] && ReadsAs(vs[k], Numbers(vs)[0])
    decreases |vs|
  {
    if vs != [] {
      var n := |vs| - 1;
      FirstNumber(vs[..n], if k <= n then k else n);
    }
  }

  /** Which expert decides: the first of the activated ones, where other entries of a mixed list are read
    past; the single expert only where there is no entry for activated ones at all. */
  lemma FirstExpert(d: Decision, ids: seq<int>, vs: seq<Json>, k: nat)
    requires k <= |vs| && forall i :: 0 <= i < k ==> vs[i].OtherValue?
    ensures d.hasActivated && d.activated == Ints(ids) ==> ExpertsNamed(d) == ids
    ensures d.hasActivated && d.activated.NoList? ==> ExpertsNamed(d) == []
    ensures d.hasActivated && d.activated == Anys(vs) && k == |vs| ==> ExpertsNamed(d) == []
    ensures d.hasActivated && d.activated == Anys(vs) && k < |vs| && !vs[k].OtherValue? ==>
      ExpertsNamed(d) != [] && ReadsAs(vs[k], ExpertsNamed(d)[0])
    ensures !d.hasActivated && d.hasExpert && !d.expert.OtherValue? ==> ExpertsNamed(d) != [] && ReadsAs(d.expert, ExpertsNamed(d)[0])
    ensures !d.hasActivated && (!d.hasExpert || d.expert.OtherValue?) ==> ExpertsNamed(d) == []
  {
    FirstNumber(vs, k);
    FirstNumber([d.expert], if d.expert.OtherValue? then 1 else 0);
  }

  /** The assignment is searched in no particular order. */
  method RouteTokenToExpertNode(d: Decision, m: map<string, seq<int>>) returns (r: Route)
    ensures r.NoExperts? <==> ExpertsNamed(d) == []
    ensures r.Node? ==> ExpertsNamed(d) != [] && Holds(m, r.id, ExpertsNamed(d)[0])
    ensures r.Unplaced? ==> ExpertsNamed(d) != [] && forall node :: !Holds(m, node, ExpertsNamed(d)[0])
  {
    var ids: seq<int> := [];
    if d.hasActivated {
      match d.activated
      case Ints(v) => ids := v;
      case Anys(v) => ids := DecodeNumbers(v);
      case NoList =>
    } else if d.hasExpert {
      ids := DecodeNumbers([d.expert]);
    }
    if |ids| == 0 {
      return NoExperts;
    }
    var left := m.Keys;
    while left != {}
      invariant left <= m.Keys
      invariant forall node :: node in m && node !in left ==> ids[0] !in m[node]
      decreases left
    {
      var node :| node in left;
      left := left - {node};
      if ids[0] in m[node] {
        return Node(node);
      }
    }
    r := Unplaced;
  }

  /** In a plan of candidates with distinct IDs, an expert of the model is found on its only holder,
    and nothing else is found. */
  lemma RouteFindsTheHolder(m: map<string, seq<int>>, cs: seq<Candidate>, total: nat, e: int)
    requires IsPlan(m, cs, total) && DistinctIds(cs) && total > 0
    ensures Held(m, e) <==> 0 <= e < total
    ensures forall a, b :: Holds(m, a, e) && Holds(m, b, e) ==> a == b
  {
    PlanIsPartition(m, cs, total);
  }
}
