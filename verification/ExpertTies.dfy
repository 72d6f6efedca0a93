/** Who may get experts: largest remainders leave the choice among equal remainders to the unstable
  sort, so several apportionments are possible. */
module ExpertTies {
  import opened Ordering
  import opened ExpertShares

  /** The exact share of the k-th node. */
  function ShareOf(caps: seq<real>, total: nat, k: nat): real
    requires SumReal(caps) > 0.0 && k < |caps|
  {
    Quota(caps[k], SumReal(caps), total)
  }

  ghost function Floors(caps: seq<real>, total: nat): (r: seq<int>)
    requires SumReal(caps) > 0.0
    ensures |r| == |caps|
  {
    seq(|caps|, k requires 0 <= k < |caps| => ShareOf(caps, total, k).Floor)
  }

  /** The experts that rounding down leaves over. */
  ghost function Leftover(caps: seq<real>, total: nat): int
    requires SumReal(caps) > 0.0
  {
    total - Sum(Floors(caps, total))
  }

  /** For node n to get an expert, node k has to be rounded up. */
  ghost predicate Needs(caps: seq<real>, total: nat, n: nat, k: nat)
    requires SumReal(caps) > 0.0 && n < |caps| && k < |caps|
  {
    ShareOf(caps, total, n).Floor == 0 &&
    (k == n || Frac(ShareOf(caps, total, k)) > Frac(ShareOf(caps, total, n)))
  }

  /** The nodes that have to be rounded up for both i and j to get an expert. */
  ghost function Needed(caps: seq<real>, total: nat, i: nat, j: nat): set<nat>
    requires SumReal(caps) > 0.0 && i < |caps| && j < |caps|
  {
    set k: nat | k < |caps| && (Needs(caps, total, i, k) || Needs(caps, total, j, k))
  }

  ghost predicate GivesBoth(counts: seq<int>, caps: seq<real>, total: nat, i: nat, j: nat)
    requires AllPositive(caps) && i < |caps| && j < |caps|
  {
    Apportions(counts, caps, total) && counts[i] > 0 && counts[j] > 0
  }

  // ---------------------------------------------------------------- only if

  ghost function RaisedBelow(counts: seq<int>, floors: seq<int>, n: nat): set<nat>
    requires |counts| == |floors| && n <= |counts|
  {
    set k: nat | k < n && counts[k] == floors[k] + 1
  }

  lemma {:induction false} RaisedCount(counts: seq<int>, floors: seq<int>, n: nat)
    requires |counts| == |floors| && n <= |counts|
    requires forall k :: 0 <= k < n ==> counts[k] == floors[k] || counts[k] == floors[k] + 1
    ensures Sum(counts[..n]) == Sum(floors[..n]) + |RaisedBelow(counts, floors, n)|
  {
    if n > 0 {
      RaisedCount(counts, floors, n - 1);
      SumAppend(counts[..n - 1], counts[n - 1]);
      SumAppend(floors[..n - 1], floors[n - 1]);
      assert counts[..n] == counts[..n - 1] + [counts[n - 1]] && floors[..n] == floors[..n - 1] + [floors[n - 1]];
      RaisedStep(counts, floors, n);
      hide Sum, RaisedBelow;
    }
  }

  lemma RaisedStep(counts: seq<int>, floors: seq<int>, n: nat)
    requires |counts| == |floors| && 0 < n <= |counts|
    ensures |RaisedBelow(counts, floors, n)| ==
      |RaisedBelow(counts, floors, n - 1)| + if counts[n - 1] == floors[n - 1] + 1 then 1 else 0
  {
    var before, now := RaisedBelow(counts, floors, n - 1), RaisedBelow(counts, floors, n);
    assert now == if counts[n - 1] == floors[n - 1] + 1 then before + {n - 1} else before;
  }

  lemma Subset<T>(a: set<T>, b: set<T>)
    requires a <= b
    ensures |a| <= |b|
  {
    assert b == a + (b - a);
  }

  lemma NeededFit(counts: seq<int>, caps: seq<real>, total: nat, i: nat, j: nat)
    requires AllPositive(caps) && SumReal(caps) > 0.0 && i < |caps| && j < |caps|
    requires GivesBoth(counts, caps, total, i, j)
    ensures |Needed(caps, total, i, j)| <= Leftover(caps, total)
  {
    hide Quota, Sum, SumReal;
    var floors := Floors(caps, total);
    forall k | 0 <= k < |caps| ensures counts[k] == floors[k] || counts[k] == floors[k] + 1 {
      assert Rounded(counts[k], ShareOf(caps, total, k));
    }
    RaisedCount(counts, floors, |caps|);
    assert counts[..|caps|] == counts && floors[..|caps|] == floors;
    forall k | k in Needed(caps, total, i, j) ensures k in RaisedBelow(counts, floors, |caps|) {
      var n := if Needs(caps, total, i, k) then i else j;
      assert Rounded(counts[n], ShareOf(caps, total, n));
      assert RoundedUp(counts[n], ShareOf(caps, total, n));
    }
    Subset(Needed(caps, total, i, j), RaisedBelow(counts, floors, |caps|));
  }

  // ---------------------------------------------------------------- if

  lemma {:induction false} SortedExists<T(!new)>(s: seq<T>, le: (T, T) -> bool) returns (r: seq<T>)
    requires TotalPreorder(le)
    ensures SortedBy(le, r) && multiset(r) == multiset(s)
  {
    r := [];
    if s != [] {
      var rest := SortedExists(s[1..], le);
      var k := PlaceExists(rest, s[0], le, 0);
      InsertSorted(rest, s[0], k, le);
      assert s == [s[0]] + s[1..];
      r := rest[..k] + [s[0]] + rest[k..];
    }
  }

  lemma {:induction false} PlaceExists<T(!new)>(r: seq<T>, x: T, le: (T, T) -> bool, n: nat) returns (k: nat)
    requires TotalPreorder(le) && SortedBy(le, r) && n <= |r|
    requires forall j :: 0 <= j < n ==> le(r[j], x)
    ensures k <= |r|
    ensures forall j :: 0 <= j < k ==> le(r[j], x)
    ensures forall j :: k <= j < |r| ==> le(x, r[j])
    decreases |r| - n
  {
    if n < |r| && le(r[n], x) {
      k := PlaceExists(r, x, le, n + 1);
    } else {
      k := n;
      forall j | n <= j < |r| ensures le(x, r[j]) {
        assert n < j ==> le(r[n], r[j]);
      }
    }
  }

  /** Larger remainders first, and `first` before the others where they are equal. */
  predicate Before(first: set<nat>, a: Rem, b: Rem) {
    a.frac > b.frac || (a.frac == b.frac && (b.idx in first ==> a.idx in first))
  }

  lemma BeforeIsTotalPreorder(first: set<nat>)
    ensures TotalPreorder((a, b) => Before(first, a, b))
  {}

  /** Rounding up the first remainders, as the loop does. */
  lemma {:induction false} RaiseFirst(floors: seq<int>, rems: seq<Rem>, leftover: nat) returns (counts: seq<int>)
    requires leftover <= |rems| && forall k :: 0 <= k < |rems| ==> rems[k].idx < |floors|
    requires forall k, l :: 0 <= k < l < |rems| ==> rems[k].idx != rems[l].idx
    ensures |counts| == |floors| && Sum(counts) == Sum(floors) + leftover
    ensures forall k :: 0 <= k < |rems| ==> counts[rems[k].idx] == floors[rems[k].idx] + (if k < leftover then 1 else 0)
    decreases leftover
  {
    counts := floors;
    if leftover > 0 {
      var j := rems[leftover - 1].idx;
      var before := RaiseFirst(floors, rems, leftover - 1);
      SumUpdate(before, j, before[j] + 1);
      counts := before[j := before[j] + 1];
    }
  }

  ghost predicate UpClosed(first: set<nat>, quotas: seq<real>) {
    forall k, l: nat :: k in first && k < |quotas| && l < |quotas| && Frac(quotas[l]) > Frac(quotas[k]) ==> l in first
  }

  ghost function FirstIndices(rems: seq<Rem>, n: nat): set<nat>
    requires n <= |rems|
  {
    set k | 0 <= k < n :: rems[k].idx
  }

  lemma {:induction false} IndicesAreDistinct(rems: seq<Rem>, n: nat)
    requires n <= |rems| && forall k, l :: 0 <= k < l < |rems| ==> rems[k].idx != rems[l].idx
    ensures |FirstIndices(rems, n)| == n
  {
    if n > 0 {
      IndicesAreDistinct(rems, n - 1);
      assert FirstIndices(rems, n) == FirstIndices(rems, n - 1) + {rems[n - 1].idx};
    }
  }

  /** The nodes of an upward-closed set come first. */
  lemma FirstComeFirst(first: set<nat>, quotas: seq<real>, rems: seq<Rem>, k: nat)
    requires UpClosed(first, quotas) && k < |rems| && rems[k].idx in first
    requires SortedBy((a, b) => Before(first, a, b), rems)
    requires forall l :: 0 <= l < |rems| ==> rems[l].idx < |quotas| && rems[l].frac == Frac(quotas[rems[l].idx])
    requires forall a, b :: 0 <= a < b < |rems| ==> rems[a].idx != rems[b].idx
    ensures k < |first|
  {
    hide Frac;
    forall l | 0 <= l <= k ensures rems[l].idx in first {
      if l < k {
        assert Before(first, rems[l], rems[k]);
      }
    }
    IndicesAreDistinct(rems, k + 1);
    Subset(FirstIndices(rems, k + 1), first);
  }

  ghost function Remainders(quotas: seq<real>): (r: seq<Rem>)
    ensures RemsOf(r, quotas)
  {
    seq(|quotas|, k requires 0 <= k < |quotas| => Rem(k, Frac(quotas[k])))
  }

  /** Some apportionment rounds up every node of an upward-closed set that is not too large. */
  lemma RaiseAll(caps: seq<real>, total: nat, first: set<nat>) returns (counts: seq<int>)
    requires caps != [] && AllPositive(caps) && SumReal(caps) > 0.0
    requires UpClosed(first, Quotas(caps, SumReal(caps), total)) && |first| <= Leftover(caps, total)
    ensures Apportions(counts, caps, total)
    ensures forall k: nat :: k < |caps| && k in first ==> counts[k] == Floors(caps, total)[k] + 1
  {
    hide Sum, SumBy, SumReal, Quota, Quotas, Frac, WithinShare, Names, UpClosed, Before;
    var tc, floors, leftover := SumReal(caps), Floors(caps, total), Leftover(caps, total);
    var quotas := Quotas(caps, tc, total);
    SharesAddUp(caps, total);
    QuotasAt(caps, tc, total);
    var unsorted := Remainders(quotas);
    FractionsAddUp(unsorted, quotas, floors, 0);
    assert unsorted[0..] == unsorted && quotas[0..] == quotas && floors[0..] == floors;
    BeforeIsTotalPreorder(first);
    var rems := SortedExists(unsorted, (a, b) => Before(first, a, b));
    SortedRems(unsorted, rems, quotas);
    BeforeIsHigher(first, rems);
    LeftoverFits(rems, leftover);
    counts := RaiseFirst(floors, rems, leftover);
    RoundedShares(counts, floors, caps, tc, total, rems, leftover);
    forall k: nat | k < |caps| && k in first ensures counts[k] == floors[k] + 1 {
      assert Names(rems, k);
      var p := PositionOf(rems, k);
      FirstComeFirst(first, quotas, rems, p);
    }
  }

  lemma PositionOf(rems: seq<Rem>, i: nat) returns (k: nat)
    requires Names(rems, i)
    ensures k < |rems| && rems[k].idx == i
  {
    k :| 0 <= k < |rems| && rems[k].idx == i;
  }

  lemma BeforeIsHigher(first: set<nat>, rems: seq<Rem>)
    requires SortedBy((a, b) => Before(first, a, b), rems)
    ensures SortedBy(Higher, rems)
  {
    forall i, j | 0 <= i < j < |rems| ensures Higher(rems[i], rems[j]) {
      assert Before(first, rems[i], rems[j]);
    }
  }

  /** Two nodes may both get experts exactly when the nodes that have to be rounded up for that are no
    more than the experts left over. */
  lemma BothGetIff(caps: seq<real>, total: nat, i: nat, j: nat)
    requires AllPositive(caps) && SumReal(caps) > 0.0 && i < |caps| && j < |caps|
    ensures (exists counts :: GivesBoth(counts, caps, total, i, j))
       <==> |Needed(caps, total, i, j)| <= Leftover(caps, total)
  {
    hide Quota, Quotas, Sum, SumReal;
    forall counts | GivesBoth(counts, caps, total, i, j) ensures |Needed(caps, total, i, j)| <= Leftover(caps, total) {
      NeededFit(counts, caps, total, i, j);
    }
    var first := Needed(caps, total, i, j);
    if |first| <= Leftover(caps, total) {
      QuotasAt(caps, SumReal(caps), total);
      assert UpClosed(first, Quotas(caps, SumReal(caps), total));
      var counts := RaiseAll(caps, total, first);
      forall n | n == i || n == j ensures counts[n] > 0 {
        Positive(counts, caps, total, n);
      }
      assert GivesBoth(counts, caps, total, i, j);
    }
  }

  lemma Positive(counts: seq<int>, caps: seq<real>, total: nat, n: nat)
    requires AllPositive(caps) && SumReal(caps) > 0.0 && n < |caps| && Apportions(counts, caps, total)
    requires Needs(caps, total, n, n) ==> counts[n] == Floors(caps, total)[n] + 1
    ensures counts[n] > 0
  {
    hide Quota, Sum, SumReal;
    QuotaNonNegative(caps[n], SumReal(caps), total);
    assert Rounded(counts[n], ShareOf(caps, total, n));
  }
}
