/** How many experts of a mixture-of-experts model each node gets: the largest-remainder method,
  over exact arithmetic. */
module ExpertShares {
  import opened Ordering

  predicate AllPositive(caps: seq<real>) {
    forall i :: 0 <= i < |caps| ==> caps[i] > 0.0
  }

  lemma {:induction false} PositiveSum(caps: seq<real>)
    requires AllPositive(caps)
    ensures SumReal(caps) >= 0.0
    ensures caps != [] ==> SumReal(caps) > 0.0
  {
    if caps != [] {
      PositiveSum(caps[1..]);
    }
  }

  /** A node's exact proportional share of the experts. */
  function Quota(cap: real, totalCap: real, total: nat): real
    requires totalCap > 0.0
  {
    cap / totalCap * (total as real)
  }

  lemma QuotaNonNegative(cap: real, totalCap: real, total: nat)
    requires totalCap > 0.0 && cap > 0.0
    ensures Quota(cap, totalCap, total) >= 0.0
  {
    assert cap / totalCap >= 0.0;
  }

  function Frac(x: real): (r: real)
    ensures 0.0 <= r < 1.0
  {
    x - x.Floor as real
  }

  ghost function Quotas(caps: seq<real>, totalCap: real, total: nat): seq<real>
    requires totalCap > 0.0
  {
    if caps == [] then [] else [Quota(caps[0], totalCap, total)] + Quotas(caps[1..], totalCap, total)
  }

  lemma {:induction false} QuotasAt(caps: seq<real>, totalCap: real, total: nat)
    requires totalCap > 0.0
    ensures |Quotas(caps, totalCap, total)| == |caps|
    ensures forall i :: 0 <= i < |caps| ==> Quotas(caps, totalCap, total)[i] == Quota(caps[i], totalCap, total)
  {
    if caps != [] {
      QuotasAt(caps[1..], totalCap, total);
    }
  }

  lemma QuotaTimes(cap: real, totalCap: real, total: nat)
    requires totalCap > 0.0
    ensures Quota(cap, totalCap, total) * totalCap == cap * (total as real)
  {
    var share := cap / totalCap;
    assert share * totalCap == cap;
    assert share * (total as real) * totalCap == share * totalCap * (total as real);
  }

  lemma {:induction false} SumOfQuotas(caps: seq<real>, totalCap: real, total: nat)
    requires totalCap > 0.0
    ensures SumReal(Quotas(caps, totalCap, total)) * totalCap == SumReal(caps) * (total as real)
  {
    if caps != [] {
      SumOfQuotas(caps[1..], totalCap, total);
      QuotaTimes(caps[0], totalCap, total);
      Distribute(Quota(caps[0], totalCap, total), SumReal(Quotas(caps[1..], totalCap, total)), totalCap);
      Distribute(caps[0], SumReal(caps[1..]), total as real);
      assert Quotas(caps, totalCap, total)[1..] == Quotas(caps[1..], totalCap, total);
    }
  }

  lemma Distribute(x: real, y: real, z: real)
    ensures (x + y) * z == x * z + y * z
  {}

  lemma Cancel(x: real, y: real, z: real)
    requires z > 0.0 && x * z == z * y
    ensures x == y
  {
    assert (x - y) * z == 0.0;
  }

  /** The shares add up to all the experts. */
  lemma SharesAddUp(caps: seq<real>, total: nat)
    requires caps != [] && AllPositive(caps)
    ensures SumReal(caps) > 0.0
    ensures SumReal(Quotas(caps, SumReal(caps), total)) == total as real
  {
    PositiveSum(caps);
    SumOfQuotas(caps, SumReal(caps), total);
    Cancel(SumReal(Quotas(caps, SumReal(caps), total)), total as real, SumReal(caps));
  }

  datatype Rem = Rem(idx: nat, frac: real)

  predicate Higher(a: Rem, b: Rem) { a.frac >= b.frac }

  ghost predicate RemsOf(rems: seq<Rem>, quotas: seq<real>) {
    |rems| == |quotas| && forall i :: 0 <= i < |rems| ==> rems[i] == Rem(i, Frac(quotas[i]))
  }

  /** What the fractional parts add up to is what flooring loses. */
  lemma {:induction false} FractionsAddUp(rems: seq<Rem>, quotas: seq<real>, floors: seq<int>, k: nat)
    requires RemsOf(rems, quotas) && |floors| == |quotas| && k <= |quotas|
    requires forall i :: 0 <= i < |floors| ==> floors[i] == quotas[i].Floor
    ensures SumBy((r: Rem) => r.frac, rems[k..]) == SumReal(quotas[k..]) - Sum(floors[k..]) as real
    decreases |quotas| - k
  {
    if k < |quotas| {
      FractionsAddUp(rems, quotas, floors, k + 1);
      assert rems[k..][1..] == rems[k + 1..] && quotas[k..][1..] == quotas[k + 1..] && floors[k..][1..] == floors[k + 1..];
    }
  }

  lemma {:induction false} FractionsBelow(rems: seq<Rem>)
    requires forall r :: r in rems ==> 0.0 <= r.frac < 1.0
    ensures SumBy((r: Rem) => r.frac, rems) >= 0.0
    ensures rems != [] ==> SumBy((r: Rem) => r.frac, rems) < |rems| as real
  {
    if rems != [] {
      FractionsBelow(rems[1..]);
    }
  }

  lemma {:induction false} ZeroFractions(rems: seq<Rem>)
    requires forall r :: r in rems ==> r.frac <= 0.0
    ensures SumBy((r: Rem) => r.frac, rems) <= 0.0
  {
    if rems != [] {
      ZeroFractions(rems[1..]);
    }
  }

  /** The leftover experts are fewer than the nodes with a fractional part to give up: the loop
    stays in range and rounds up only nodes that are short of their share. */
  lemma LeftoverFits(rems: seq<Rem>, leftover: int)
    requires rems != [] && SortedBy(Higher, rems)
    requires forall r :: r in rems ==> 0.0 <= r.frac < 1.0
    requires SumBy((r: Rem) => r.frac, rems) == leftover as real
    ensures 0 <= leftover < |rems|
    ensures forall k :: 0 <= k < leftover ==> rems[k].frac > 0.0
  {
    FractionsBelow(rems);
    assert 0 <= leftover < |rems|;
    if k :| 0 <= k < leftover && rems[k].frac <= 0.0 {
      SumBySplit((r: Rem) => r.frac, rems, k);
      forall r | r in rems[k..] ensures r.frac <= 0.0 {
        var j :| 0 <= j < |rems[k..]| && rems[k..][j] == r;
        assert j > 0 ==> Higher(rems[k], rems[k + j]);
      }
      ZeroFractions(rems[k..]);
      if k > 0 {
        FractionsBelow(rems[..k]);
      }
      assert false;
    }
  }

  /** The counts are an apportionment by largest remainders. */
  ghost predicate Apportions(counts: seq<int>, caps: seq<real>, total: nat)
    requires AllPositive(caps)
  {
    && |counts| == |caps|
    && Sum(counts) == total
    && (caps != [] ==> WithinShare(counts, caps, SumReal(caps), total))
  }

  /** Every count is its share rounded down or up, and the larger fractions are rounded up first. */
  ghost predicate WithinShare(counts: seq<int>, caps: seq<real>, totalCap: real, total: nat)
    requires |counts| == |caps|
  {
    && totalCap > 0.0
    && (forall i :: 0 <= i < |caps| ==> Rounded(counts[i], Quota(caps[i], totalCap, total)))
    && (forall i, j :: 0 <= i < |caps| && 0 <= j < |caps| ==>
          Frac(Quota(caps[i], totalCap, total)) > Frac(Quota(caps[j], totalCap, total)) ==>
          RoundedUp(counts[j], Quota(caps[j], totalCap, total)) ==>
          RoundedUp(counts[i], Quota(caps[i], totalCap, total)))
  }

  /** The floor or the ceiling. */
  predicate Rounded(count: int, share: real) {
    count as real - 1.0 < share < count as real + 1.0
  }

  predicate RoundedUp(count: int, share: real) {
    count == share.Floor + 1
  }

  predicate Names(rems: seq<Rem>, i: int) {
    exists k :: 0 <= k < |rems| && rems[k].idx == i
  }

  /** The sorted remainders still name every node exactly once. */
  lemma SortedRems(rems: seq<Rem>, sorted: seq<Rem>, quotas: seq<real>)
    requires RemsOf(rems, quotas) && multiset(sorted) == multiset(rems)
    ensures |sorted| == |quotas|
    ensures forall k :: 0 <= k < |sorted| ==> sorted[k].idx < |quotas| && sorted[k].frac == Frac(quotas[sorted[k].idx])
    ensures forall k, l :: 0 <= k < l < |sorted| ==> sorted[k].idx != sorted[l].idx
    ensures forall i :: 0 <= i < |quotas| ==> Names(sorted, i)
    ensures SumBy((r: Rem) => r.frac, sorted) == SumBy((r: Rem) => r.frac, rems)
  {
    assert |multiset(sorted)| == |multiset(rems)|;
    SameElements(sorted, rems);
    assert Distinct(rems);
    DistinctPermutation(rems, sorted);
    forall k | 0 <= k < |sorted|
      ensures sorted[k].idx < |quotas| && sorted[k].frac == Frac(quotas[sorted[k].idx])
    {
      assert sorted[k] in rems;
    }
    forall i | 0 <= i < |quotas| ensures Names(sorted, i) {
      assert rems[i] in sorted;
      var k :| 0 <= k < |sorted| && sorted[k] == rems[i];
    }
    SumByPermutation((r: Rem) => r.frac, sorted, rems);
  }

  /** The leftover loop: one more expert for each node at the head of the sorted remainders. */
  method RoundUp(counts: array<int>, rems: seq<Rem>, leftover: nat)
    requires leftover <= |rems| && forall k :: 0 <= k < |rems| ==> rems[k].idx < counts.Length
    requires forall k, l :: 0 <= k < l < |rems| ==> rems[k].idx != rems[l].idx
    modifies counts
    ensures Sum(counts[..]) == old(Sum(counts[..])) + leftover
    ensures forall k :: 0 <= k < |rems| ==>
      counts[rems[k].idx] == old(counts[rems[k].idx]) + (if k < leftover then 1 else 0)
  {
    for i := 0 to leftover
      invariant Sum(counts[..]) == old(Sum(counts[..])) + i
      invariant forall k :: 0 <= k < |rems| ==>
        counts[rems[k].idx] == old(counts[rems[k].idx]) + (if k < i then 1 else 0)
    {
      var j := rems[i].idx;
      SumUpdate(counts[..], j, counts[j] + 1);
      ghost var before := counts[..];
      counts[j] := counts[j] + 1;
      assert counts[..] == before[j := before[j] + 1];
    }
  }

  /** The first loop: floors, and what each floor leaves over. */
  method FloorShares(caps: seq<real>, totalCap: real, total: nat)
    returns (counts: array<int>, rems: seq<Rem>, given: int)
    requires totalCap > 0.0 && AllPositive(caps)
    ensures fresh(counts) && counts.Length == |caps|
    ensures RemsOf(rems, Quotas(caps, totalCap, total))
    ensures forall i :: 0 <= i < |caps| ==> counts[i] == Quota(caps[i], totalCap, total).Floor
    ensures given == Sum(counts[..])
  {
    QuotasAt(caps, totalCap, total);
    counts := new int[|caps|](_ => 0);
    rems := [];
    given := 0;
    for i := 0 to |caps|
      invariant |rems| == i && given == Sum(counts[..i])
      invariant forall j :: 0 <= j < i ==> counts[j] == Quota(caps[j], totalCap, total).Floor
      invariant forall j :: 0 <= j < i ==> rems[j] == Rem(j, Frac(Quota(caps[j], totalCap, total)))
    {
      var exact := Quota(caps[i], totalCap, total);
      var floor := exact.Floor;
      counts[i] := floor;
      given := given + floor;
      rems := rems + [Rem(i, exact - floor as real)];
      SumAppend(counts[..i], floor);
      assert counts[..i + 1] == counts[..i] + [floor];
    }
    assert counts[..|caps|] == counts[..];
  }

  method Apportion(caps: seq<real>, totalCap: real, total: nat) returns (counts: seq<int>)
    requires caps != [] && AllPositive(caps) && totalCap == SumReal(caps)
    ensures Apportions(counts, caps, total)
  {
    hide Sum, SumBy, SumReal, Quota, Quotas, Frac, WithinShare, Names;
    SharesAddUp(caps, total);
    var floors, unsorted, given := FloorShares(caps, totalCap, total);
    ghost var quotas := Quotas(caps, totalCap, total);
    QuotasAt(caps, totalCap, total);
    FractionsAddUp(unsorted, quotas, floors[..], 0);
    assert unsorted[0..] == unsorted && quotas[0..] == quotas && floors[..][0..] == floors[..];
    var rems := SortSlice(unsorted, Higher);
    SortedRems(unsorted, rems, quotas);
    LeftoverFits(rems, total - given);
    ghost var start := floors[..];
    RoundUp(floors, rems, total - given);
    counts := floors[..];
    RoundedShares(counts, start, caps, totalCap, total, rems, total - given);
  }

  lemma RoundedShares(counts: seq<int>, floors: seq<int>, caps: seq<real>, totalCap: real, total: nat,
                      rems: seq<Rem>, leftover: nat)
    requires totalCap > 0.0 && |counts| == |floors| == |caps| == |rems| && leftover <= |rems|
    requires forall i :: 0 <= i < |caps| ==> floors[i] == Quota(caps[i], totalCap, total).Floor
    requires forall k :: 0 <= k < |rems| ==>
      rems[k].idx < |caps| && rems[k].frac == Frac(Quota(caps[rems[k].idx], totalCap, total))
    requires forall i :: 0 <= i < |caps| ==> Names(rems, i)
    requires forall k :: 0 <= k < |rems| ==> counts[rems[k].idx] == floors[rems[k].idx] + (if k < leftover then 1 else 0)
    requires SortedBy(Higher, rems) && forall k :: 0 <= k < leftover ==> rems[k].frac > 0.0
    ensures WithinShare(counts, caps, totalCap, total)
  {
    hide Quota;
    forall i | 0 <= i < |caps| ensures Rounded(counts[i], Quota(caps[i], totalCap, total)) {
      assert Names(rems, i);
      var k :| 0 <= k < |rems| && rems[k].idx == i;
      assert counts[i] == floors[i] + (if k < leftover then 1 else 0);
    }
    forall i, j | 0 <= i < |caps| && 0 <= j < |caps| &&
      Frac(Quota(caps[i], totalCap, total)) > Frac(Quota(caps[j], totalCap, total)) &&
      RoundedUp(counts[j], Quota(caps[j], totalCap, total))
      ensures RoundedUp(counts[i], Quota(caps[i], totalCap, total))
    {
      assert Names(rems, i) && Names(rems, j);
      var k :| 0 <= k < |rems| && rems[k].idx == i;
      var l :| 0 <= l < |rems| && rems[l].idx == j;
      assert l < k ==> Higher(rems[l], rems[k]);
    }
  }

  /** Apportionment is monotone: a node with more memory never gets fewer experts. */
  lemma MoreMemoryNeverFewer(counts: seq<int>, caps: seq<real>, total: nat, i: nat, j: nat)
    requires AllPositive(caps) && Apportions(counts, caps, total)
    requires i < |caps| && j < |caps| && caps[i] > caps[j] && total > 0
    ensures counts[i] >= counts[j]
  {
    var tc := SumReal(caps);
    var qi, qj := Quota(caps[i], tc, total), Quota(caps[j], tc, total);
    QuotaMonotone(caps[i], caps[j], tc, total);
    assert Rounded(counts[i], qi) && Rounded(counts[j], qj);
    if counts[j] > counts[i] {
      assert qi.Floor == counts[i] && qj.Floor == counts[i];
      assert Frac(qi) > Frac(qj) && RoundedUp(counts[j], qj);
    }
  }

  lemma QuotaMonotone(a: real, b: real, totalCap: real, total: nat)
    requires totalCap > 0.0 && a > b && total > 0
    ensures Quota(a, totalCap, total) > Quota(b, totalCap, total)
  {
    assert a / totalCap > b / totalCap;
    var t := total as real;
    assert (a / totalCap - b / totalCap) * t > 0.0;
  }
}
