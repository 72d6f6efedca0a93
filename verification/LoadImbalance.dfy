/** Noticing the nodes whose experts are activated out of proportion. */
module LoadImbalance {
  import opened Ordering
  import opened MoePlanner

  /** How often each expert was activated. */
  function Activations(stats: map<int, int>): int -> int {
    e => if e in stats then stats[e] else 0
  }

  ghost function AllActivations(stats: map<int, int>): int {
    SumSet(stats.Keys, Activations(stats))
  }

  function NodeActivations(experts: seq<int>, stats: map<int, int>): int {
    if experts == [] then 0
    else NodeActivations(experts[..|experts| - 1], stats) + Activations(stats)(experts[|experts| - 1])
  }

  ghost function AllExperts(m: map<string, seq<int>>): int {
    SumSet(m.Keys, Size(m))
  }

  function Size(m: map<string, seq<int>>): string -> int {
    node => Load(m, node)
  }

  /** More than twice the activations its number of experts predicts. */
  ghost predicate Overloaded(m: map<string, seq<int>>, stats: map<int, int>, node: string) {
    && node in m && m[node] != [] && AllExperts(m) != 0 && AllActivations(stats) != 0
    && NodeActivations(m[node], stats) as real >
       2.0 * (AllActivations(stats) as real * |m[node]| as real / AllExperts(m) as real)
  }

  method CountExperts(m: map<string, seq<int>>) returns (total: int)
    ensures total == AllExperts(m) && total >= 0
  {
    total := 0;
    var left := m.Keys;
    SumSetNonNegative(left, Size(m));
    while left != {}
      invariant left <= m.Keys && total >= 0
      invariant total + SumSet(left, Size(m)) == AllExperts(m)
      decreases left
    {
      var node :| node in left;
      SumSetPick(left, Size(m), node);
      total := total + |m[node]|;
      left := left - {node};
    }
  }

  method CountActivations(stats: map<int, int>) returns (total: int)
    ensures total == AllActivations(stats)
  {
    total := 0;
    var left := stats.Keys;
    while left != {}
      invariant left <= stats.Keys && total + SumSet(left, Activations(stats)) == AllActivations(stats)
      decreases left
    {
      var e := PickAny(left);
      SumSetPick(left, Activations(stats), e);
      total := total + stats[e];
      left := left - {e};
    }
  }

  method CountNode(experts: seq<int>, stats: map<int, int>) returns (total: int)
    ensures total == NodeActivations(experts, stats)
  {
    total := 0;
    for i := 0 to |experts|
      invariant total == NodeActivations(experts[..i], stats)
    {
      assert experts[..i + 1][..i] == experts[..i];
      total := total + if experts[i] in stats then stats[experts[i]] else 0;
    }
    assert experts[..|experts|] == experts;
  }

  /** The overloaded nodes, sorted; the maps are read in any order. */
  method DetectExpertLoadImbalance(m: map<string, seq<int>>, stats: map<int, int>) returns (r: seq<string>)
    ensures Distinct(r) && SortedBy(LexLe, r)
    ensures forall node :: node in r <==> Overloaded(m, stats, node)
  {
    r := [];
    if |m| == 0 || |stats| == 0 {
      assert |stats| == 0 ==> AllActivations(stats) == 0;
      return;
    }
    var totalExperts := CountExperts(m);
    var totalActivations := CountActivations(stats);
    if totalExperts == 0 || totalActivations == 0 {
      return;
    }
    var left := m.Keys;
    while left != {}
      invariant left <= m.Keys && Distinct(r)
      invariant forall node :: node in r ==> node !in left
      invariant forall node :: node in r <==> Overloaded(m, stats, node) && node !in left
      decreases left
    {
      var node :| node in left;
      left := left - {node};
      if |m[node]| == 0 {
        continue;
      }
      var nodeActivations := CountNode(m[node], stats);
      var expected := totalActivations as real * |m[node]| as real / totalExperts as real;
      if nodeActivations as real > 2.0 * expected {
        r := r + [node];
      }
    }
    hide Overloaded;
    LexLeIsTotalPreorder();
    var sorted := SortSlice(r, LexLe);
    DistinctPermutation(r, sorted);
    SameElements(r, sorted);
    r := sorted;
  }

  // The flagged nodes together hold fewer than half of the experts

  /** Every node lists an expert at most once. */
  ghost predicate NoRepeats(m: map<string, seq<int>>) {
    forall node :: node in m ==> Distinct(m[node])
  }

  ghost function Elements(experts: seq<int>): set<int> {
    set e | e in experts
  }

  /** Taking a node's experts out of a pool takes out their activations. */
  lemma {:induction false} TakeExperts(experts: seq<int>, pool: set<int>, stats: map<int, int>)
    requires Distinct(experts) && forall e :: e in experts && e !in pool ==> e !in stats
    ensures SumSet(pool, Activations(stats)) ==
      NodeActivations(experts, stats) + SumSet(pool - Elements(experts), Activations(stats))
  {
    if experts == [] {
      assert pool - Elements(experts) == pool;
    } else {
      var n := |experts| - 1;
      var e := experts[n];
      TakeExperts(experts[..n], pool, stats);
      var rest := pool - Elements(experts[..n]);
      if e in pool {
        assert e !in experts[..n];
        SumSetPick(rest, Activations(stats), e);
        assert rest - {e} == pool - Elements(experts);
      } else {
        assert rest == pool - Elements(experts);
      }
    }
  }

  /** Nodes with different experts share out at most all the activations. */
  lemma {:induction false} SharedActivations(nodes: set<string>, m: map<string, seq<int>>, stats: map<int, int>,
                                             pool: set<int>)
    requires nodes <= m.Keys && NoRepeats(m) && forall e :: e in stats ==> stats[e] >= 0
    requires forall a, b, e :: Holds(m, a, e) && Holds(m, b, e) ==> a == b
    requires forall node, e :: node in nodes && Holds(m, node, e) && e !in pool ==> e !in stats
    ensures SumSet(nodes, ActivationsOf(m, stats)) <= SumSet(pool, Activations(stats))
  {
    if nodes == {} {
      forall e | e in pool ensures Activations(stats)(e) >= 0 {}
      SumSetNonNegative(pool, Activations(stats));
    } else {
      var node :| node in nodes;
      SumSetPick(nodes, ActivationsOf(m, stats), node);
      forall e | e in m[node] && e !in pool ensures e !in stats {
        assert Holds(m, node, e);
      }
      TakeExperts(m[node], pool, stats);
      var rest := pool - Elements(m[node]);
      forall other, e | other in nodes - {node} && Holds(m, other, e) && e !in rest ensures e !in stats {
        if e in m[node] {
          assert Holds(m, node, e);
        }
      }
      SharedActivations(nodes - {node}, m, stats, rest);
    }
  }

  function ActivationsOf(m: map<string, seq<int>>, stats: map<int, int>): string -> int {
    node => if node in m then NodeActivations(m[node], stats) else 0
  }

  lemma OverThreshold(acts: int, total: int, size: int, experts: int)
    requires experts > 0
    ensures acts as real > 2.0 * (total as real * size as real / experts as real) <==> acts * experts > 2 * total * size
  {
    var x := total as real * size as real / experts as real;
    assert x * experts as real == total as real * size as real;
    assert (total * size) as real == total as real * size as real;
    assert (acts * experts) as real == acts as real * experts as real;
    Factor(acts as real, 2.0 * x, experts as real);
    assert 2.0 * x * experts as real == (2 * total * size) as real;
  }

  lemma Factor(a: real, b: real, x: real)
    requires x > 0.0
    ensures a > b <==> a * x > b * x
  {
    if a > b {
      assert (a - b) * x > 0.0;
    } else {
      assert (b - a) * x >= 0.0;
    }
  }

  /** In whole numbers: the node has experts, something was activated, and its part of all activations is
    more than twice its part of all experts. */
  lemma OverloadedIff(m: map<string, seq<int>>, stats: map<int, int>, node: string)
    ensures Overloaded(m, stats, node) <==>
      node in m && |m[node]| > 0 && AllActivations(stats) != 0 &&
      NodeActivations(m[node], stats) * AllExperts(m) > 2 * AllActivations(stats) * |m[node]|
  {
    if node in m && m[node] != [] {
      SomeExperts(m, node);
      OverThreshold(NodeActivations(m[node], stats), AllActivations(stats), |m[node]|, AllExperts(m));
      hide NodeActivations, AllActivations, AllExperts;
    }
  }

  lemma SomeExperts(m: map<string, seq<int>>, node: string)
    requires node in m && m[node] != []
    ensures AllExperts(m) > 0
  {
    SumSetPick(m.Keys, Size(m), node);
    SumSetNonNegative(m.Keys - {node}, Size(m));
  }

  /** A node's activations are those of its experts one by one; an expert without a count has none. */
  lemma ActivationsAddUp(experts: seq<int>, e: int, stats: map<int, int>)
    ensures NodeActivations([], stats) == 0
    ensures NodeActivations(experts + [e], stats) == NodeActivations(experts, stats) + if e in stats then stats[e] else 0
  {
    assert (experts + [e])[..|experts|] == experts;
  }

  lemma OverloadedNode(m: map<string, seq<int>>, stats: map<int, int>, node: string)
    requires Overloaded(m, stats, node) && AllExperts(m) > 0
    ensures ActivationsOf(m, stats)(node) * AllExperts(m) > 2 * AllActivations(stats) * Size(m)(node)
  {
    OverThreshold(NodeActivations(m[node], stats), AllActivations(stats), |m[node]|, AllExperts(m));
  }

  lemma {:induction false} FlaggedAdd(nodes: set<string>, m: map<string, seq<int>>, stats: map<int, int>)
    requires nodes != {} && AllExperts(m) > 0
    requires forall node :: node in nodes ==> Overloaded(m, stats, node)
    ensures SumSet(nodes, ActivationsOf(m, stats)) * AllExperts(m) >
            2 * AllActivations(stats) * SumSet(nodes, Size(m))
  {
    hide Overloaded, ActivationsOf, Size, AllExperts, AllActivations;
    var node :| node in nodes;
    var rest := nodes - {node};
    SumSetPick(nodes, ActivationsOf(m, stats), node);
    SumSetPick(nodes, Size(m), node);
    OverloadedNode(m, stats, node);
    if rest != {} {
      FlaggedAdd(rest, m, stats);
      AddProducts(ActivationsOf(m, stats)(node), SumSet(rest, ActivationsOf(m, stats)), AllExperts(m),
                  2 * AllActivations(stats), Size(m)(node), SumSet(rest, Size(m)));
    }
  }

  lemma AddProducts(a: int, b: int, n: int, t: int, x: int, y: int)
    requires a * n > t * x && b * n > t * y
    ensures (a + b) * n > t * (x + y)
  {
    assert (a + b) * n == a * n + b * n;
    assert t * (x + y) == t * x + t * y;
  }

  lemma HalfOf(acts: int, total: int, experts: int, held: int)
    requires 0 <= acts <= total && experts > 0 && held >= 0 && acts * experts > 2 * total * held
    ensures 2 * held < experts
  {
    assert acts * experts <= total * experts;
    assert 2 * total * held == total * (2 * held);
    Cancels(total, 2 * held, experts);
  }

  lemma Cancels(t: int, x: int, y: int)
    requires t >= 0 && t * x < t * y
    ensures x < y
  {
    if x >= y {
      Scale(t, y, x);
      assert false;
    }
  }

  lemma Scale(t: int, y: int, x: int)
    requires t >= 0 && y <= x
    ensures t * y <= t * x
  {}

  /** On any assignment whose nodes hold different experts, and for any counts that are not negative,
    the flagged nodes hold strictly fewer than half of all experts. */
  lemma FlaggedHoldUnderHalf(m: map<string, seq<int>>, stats: map<int, int>, flagged: set<string>)
    requires NoRepeats(m) && forall e :: e in stats ==> stats[e] >= 0
    requires forall a, b, e :: Holds(m, a, e) && Holds(m, b, e) ==> a == b
    requires forall node :: node in flagged <==> Overloaded(m, stats, node)
    ensures flagged <= m.Keys
    ensures flagged != {} ==> 2 * SumSet(flagged, Size(m)) < AllExperts(m)
  {
    if flagged != {} {
      SumSetNonNegative(m.Keys, Size(m));
      SumSetNonNegative(flagged, Size(m));
      SharedActivations(flagged, m, stats, stats.Keys);
      FlaggedAdd(flagged, m, stats);
      FlaggedNonNegative(flagged, m, stats);
      HalfOf(SumSet(flagged, ActivationsOf(m, stats)), AllActivations(stats), AllExperts(m), SumSet(flagged, Size(m)));
    }
  }

  lemma {:induction false} NodeNonNegative(experts: seq<int>, stats: map<int, int>)
    requires forall e :: e in stats ==> stats[e] >= 0
    ensures NodeActivations(experts, stats) >= 0
  {
    if experts != [] {
      NodeNonNegative(experts[..|experts| - 1], stats);
    }
  }

  lemma FlaggedNonNegative(nodes: set<string>, m: map<string, seq<int>>, stats: map<int, int>)
    requires forall e :: e in stats ==> stats[e] >= 0
    ensures SumSet(nodes, ActivationsOf(m, stats)) >= 0
  {
    forall node | node in nodes ensures ActivationsOf(m, stats)(node) >= 0 {
      if node in m {
        NodeNonNegative(m[node], stats);
      }
    }
    SumSetNonNegative(nodes, ActivationsOf(m, stats));
  }
}
