/** Orders, sorting and finite sums shared by the models of the coordinator.

  Go's `sort.Slice` is not stable, so `SortSlice` promises a sorted permutation
  and nothing about elements that compare equal. */
module Ordering {

  /** Byte order on strings, as `sort.Strings` and Go's `<` use it. */
  predicate LexLess(a: string, b: string)
  {
    b != [] && (a == [] || a[0] < b[0] || (a[0] == b[0] && LexLess(a[1..], b[1..])))
  }

  predicate LexLe(a: string, b: string) {
    !LexLess(b, a)
  }

  lemma {:induction false} LexTotal(a: string, b: string)
    ensures LexLess(a, b) || LexLess(b, a) || a == b
    ensures !(LexLess(a, b) && LexLess(b, a))
    ensures !LexLess(a, a)
  {
    if a != [] {
      LexTotal(a[1..], a[1..]);
      if b != [] {
        LexTotal(a[1..], b[1..]);
        assert a == [a[0]] + a[1..] && b == [b[0]] + b[1..];
      }
    }
  }

  lemma {:induction false} LexTransitive(a: string, b: string, c: string)
    requires LexLess(a, b) && LexLess(b, c)
    ensures LexLess(a, c)
  {
    if a != [] && b != [] && c != [] && a[0] == b[0] == c[0] {
      LexTransitive(a[1..], b[1..], c[1..]);
    }
  }

  ghost predicate TotalPreorder<T(!new)>(le: (T, T) -> bool) {
    && (forall x, y :: le(x, y) || le(y, x))
    && (forall x, y, z :: le(x, y) && le(y, z) ==> le(x, z))
  }

  lemma LexLeIsTotalPreorder()
    ensures TotalPreorder(LexLe)
  {
    forall x, y ensures LexLe(x, y) || LexLe(y, x) {
      LexTotal(x, y);
    }
    forall x, y, z | LexLe(x, y) && LexLe(y, z) ensures LexLe(x, z) {
      LexTotal(x, y);
      LexTotal(y, z);
      LexTotal(x, z);
      if LexLess(x, y) && LexLess(y, z) {
        LexTransitive(x, y, z);
      }
    }
  }

  ghost predicate SortedBy<T>(le: (T, T) -> bool, s: seq<T>) {
    forall i, j :: 0 <= i < j < |s| ==> le(s[i], s[j])
  }

  /** The position of `x` in a sorted sequence, scanning from the right. */
  method InsertionPoint<T(!new)>(r: seq<T>, x: T, le: (T, T) -> bool) returns (k: nat)
    requires TotalPreorder(le) && SortedBy(le, r)
    ensures k <= |r|
    ensures forall j :: 0 <= j < k ==> le(r[j], x)
    ensures forall j :: k <= j < |r| ==> le(x, r[j])
  {
    k := |r|;
    while k > 0 && !le(r[k - 1], x)
      invariant 0 <= k <= |r|
      invariant forall j :: k <= j < |r| ==> le(x, r[j])
    {
      k := k - 1;
    }
    forall j | 0 <= j < k ensures le(r[j], x) {
      assert j < k - 1 ==> le(r[j], r[k - 1]);
    }
  }

  lemma InsertSorted<T(!new)>(r: seq<T>, x: T, k: nat, le: (T, T) -> bool)
    requires TotalPreorder(le) && SortedBy(le, r) && k <= |r|
    requires forall j :: 0 <= j < k ==> le(r[j], x)
    requires forall j :: k <= j < |r| ==> le(x, r[j])
    ensures SortedBy(le, r[..k] + [x] + r[k..])
    ensures multiset(r[..k] + [x] + r[k..]) == multiset(r) + multiset{x}
  {
    var t := r[..k] + [x] + r[k..];
    assert r == r[..k] + r[k..];
    forall i, j | 0 <= i < j < |t| ensures le(t[i], t[j]) {
      var i', j' := if i < k then i else i - 1, if j < k then j else j - 1;
      if i != k && j != k { assert le(r[i'], r[j']); }
    }
  }

  /** Go's `sort.Slice`: the same elements, in some order that respects `le`. */
  method SortSlice<T(!new)>(s: seq<T>, le: (T, T) -> bool) returns (r: seq<T>)
    requires TotalPreorder(le)
    ensures SortedBy(le, r)
    ensures multiset(r) == multiset(s) && |r| == |s|
  {
    r := [];
    for n := 0 to |s|
      invariant |r| == n
      invariant SortedBy(le, r)
      invariant multiset(r) == multiset(s[..n])
    {
      var k := InsertionPoint(r, s[n], le);
      InsertSorted(r, s[n], k, le);
      assert s[..n + 1] == s[..n] + [s[n]];
      r := r[..k] + [s[n]] + r[k..];
    }
    assert s[..|s|] == s;
  }

  /** The least key of a non-empty set of strings. */
  ghost function Least(ks: set<string>): (m: string)
    requires ks != {}
    ensures m in ks && forall k :: k in ks ==> LexLe(m, k)
  {
    LexLeIsTotalPreorder();
    LeastExists(ks, LexLe);
    var m :| m in ks && forall k :: k in ks ==> LexLe(m, k);
    m
  }

  lemma {:induction false} LeastExists<T(!new)>(ks: set<T>, le: (T, T) -> bool)
    requires ks != {} && TotalPreorder(le)
    ensures exists m :: m in ks && forall k :: k in ks ==> le(m, k)
  {
    var x :| x in ks;
    var rest := ks - {x};
    assert ks == rest + {x} && le(x, x);
    if rest != {} {
      LeastExists(rest, le);
      var m :| m in rest && forall k :: k in rest ==> le(m, k);
      var least := if le(m, x) then m else x;
      forall k | k in ks ensures le(least, k) {
        if k in rest {
          assert le(m, k);
        }
      }
      assert least in ks;
    } else {
      assert x in ks && forall k :: k in ks ==> le(x, k);
    }
  }

  /** The elements of a set of strings in byte order. */
  ghost function Sorted(ks: set<string>): seq<string> {
    if ks == {} then [] else [Least(ks)] + Sorted(ks - {Least(ks)})
  }

  lemma {:induction false} SortedElements(ks: set<string>)
    ensures forall k :: k in Sorted(ks) <==> k in ks
    ensures Distinct(Sorted(ks)) && SortedBy(LexLe, Sorted(ks))
  {
    if ks != {} {
      SortedElements(ks - {Least(ks)});
    }
  }

  /** Any sorted listing of the set, without repetition, is that one. */
  lemma {:induction false} SortedIsUnique(s: seq<string>, ks: set<string>)
    requires Distinct(s) && SortedBy(LexLe, s) && forall k :: k in s <==> k in ks
    ensures s == Sorted(ks)
  {
    if s == [] {
      assert ks == {};
    } else {
      assert s[0] in ks;
      var m := Least(ks);
      var i :| 0 <= i < |s| && s[i] == m;
      assert LexLe(s[0], m) by {
        LexTotal(m, m);
        assert i > 0 ==> LexLe(s[0], s[i]);
      }
      LexTotal(s[0], m);
      var t := s[1..];
      assert forall k :: k in t <==> k in ks - {m};
      SortedIsUnique(t, ks - {m});
    }
  }

  lemma SameElements<T>(a: seq<T>, b: seq<T>)
    requires multiset(a) == multiset(b)
    ensures forall x :: x in a <==> x in b
  {
    forall x ensures x in a <==> x in b {
      assert x in a <==> x in multiset(a);
      assert x in b <==> x in multiset(b);
    }
  }

  function Swap<T>(s: seq<T>, i: nat, j: nat): seq<T>
    requires i < |s| && j < |s|
  {
    s[i := s[j]][j := s[i]]
  }

  lemma SwapPermutes<T>(s: seq<T>, i: nat, j: nat)
    requires i < |s| && j < |s|
    ensures multiset(Swap(s, i, j)) == multiset(s)
    ensures forall x :: x in Swap(s, i, j) <==> x in s
  {
    SameElements(Swap(s, i, j), s);
  }

  ghost predicate Distinct<T>(s: seq<T>) {
    forall i, j :: 0 <= i < j < |s| ==> s[i] != s[j]
  }

  lemma {:induction false} DistinctMultiset<T>(s: seq<T>)
    ensures Distinct(s) <==> forall x :: multiset(s)[x] <= 1
  {
    if !Distinct(s) {
      var i, j :| 0 <= i < j < |s| && s[i] == s[j];
      assert s == s[..i] + [s[i]] + s[i + 1..];
      assert s[j] == s[i + 1..][j - i - 1];
      assert multiset(s)[s[i]] >= 2;
    } else if s != [] {
      DistinctMultiset(s[1..]);
      assert s == [s[0]] + s[1..];
      assert s[0] !in s[1..];
    }
  }

  lemma DistinctPermutation<T>(a: seq<T>, b: seq<T>)
    requires multiset(a) == multiset(b) && Distinct(a)
    ensures Distinct(b)
  {
    DistinctMultiset(a);
    DistinctMultiset(b);
  }

  lemma DistinctHalves<T>(a: seq<T>, b: seq<T>)
    requires Distinct(a + b)
    ensures Distinct(a) && Distinct(b) && forall x :: x in a ==> x !in b
  {
    forall i, j | 0 <= i < |a| && 0 <= j < |b| ensures a[i] != b[j] {
      assert (a + b)[i] != (a + b)[|a| + j];
    }
    forall i, j | 0 <= i < j < |b| ensures b[i] != b[j] {
      assert (a + b)[|a| + i] != (a + b)[|a| + j];
    }
    forall i, j | 0 <= i < j < |a| ensures a[i] != a[j] {
      assert (a + b)[i] != (a + b)[j];
    }
  }

  // Sums of integers and of reals over a sequence

  function Sum(s: seq<int>): int {
    if s == [] then 0 else s[0] + Sum(s[1..])
  }

  function SumReal(s: seq<real>): real {
    if s == [] then 0.0 else s[0] + SumReal(s[1..])
  }

  lemma {:induction false} SumAppend(s: seq<int>, x: int)
    ensures Sum(s + [x]) == Sum(s) + x
  {
    if s != [] {
      SumAppend(s[1..], x);
      assert (s + [x])[1..] == s[1..] + [x];
    }
  }

  lemma {:induction false} SumRealAppend(s: seq<real>, x: real)
    ensures SumReal(s + [x]) == SumReal(s) + x
  {
    if s != [] {
      SumRealAppend(s[1..], x);
      assert (s + [x])[1..] == s[1..] + [x];
    }
  }

  lemma {:induction false} SumUpdate(s: seq<int>, i: nat, v: int)
    requires i < |s|
    ensures Sum(s[i := v]) == Sum(s) - s[i] + v
  {
    if i > 0 {
      SumUpdate(s[1..], i - 1, v);
      assert s[i := v][1..] == s[1..][i - 1 := v];
    } else {
      assert s[0 := v][1..] == s[1..];
    }
  }

  /** A real-valued measure added up over a sequence. */
  function SumBy<T>(f: T -> real, s: seq<T>): real {
    if s == [] then 0.0 else f(s[0]) + SumBy(f, s[1..])
  }

  lemma {:induction false} SumBySame<T(!new)>(f: T -> real, g: T -> real, s: seq<T>)
    requires forall x :: f(x) == g(x)
    ensures SumBy(f, s) == SumBy(g, s)
  {
    if s != [] {
      SumBySame(f, g, s[1..]);
    }
  }

  lemma {:induction false} SumBySplit<T>(f: T -> real, s: seq<T>, k: nat)
    requires k <= |s|
    ensures SumBy(f, s) == SumBy(f, s[..k]) + SumBy(f, s[k..])
  {
    if k > 0 {
      SumBySplit(f, s[1..], k - 1);
      assert s[1..][..k - 1] == s[..k][1..] && s[1..][k - 1..] == s[k..];
    } else {
      assert s[0..] == s;
    }
  }

  lemma SumByRemove<T>(f: T -> real, s: seq<T>, j: nat)
    requires j < |s|
    ensures SumBy(f, s) == f(s[j]) + SumBy(f, s[..j] + s[j + 1..])
  {
    var c := s[..j] + s[j + 1..];
    SumBySplit(f, s, j);
    SumBySplit(f, c, j);
    assert c[..j] == s[..j] && c[j..] == s[j + 1..] == s[j..][1..];
  }

  lemma RemoveAt<T>(s: seq<T>, j: nat)
    requires j < |s|
    ensures multiset(s) == multiset(s[..j] + s[j + 1..]) + multiset{s[j]}
  {
    assert s == s[..j] + [s[j]] + s[j + 1..];
  }

  lemma RemoveEqual<T>(a: seq<T>, b: seq<T>, j: nat)
    requires multiset(a) == multiset(b) && a != [] && j < |b| && b[j] == a[0]
    ensures multiset(a[1..]) == multiset(b[..j] + b[j + 1..])
  {
    RemoveAt(b, j);
    RemoveAt(a, 0);
    assert a[..0] + a[1..] == a[1..];
    CancelOne(multiset(a[1..]), multiset(b[..j] + b[j + 1..]), a[0]);
  }

  lemma CancelOne<T>(m: multiset<T>, n: multiset<T>, x: T)
    requires m + multiset{x} == n + multiset{x}
    ensures m == n
  {
    assert m == m + multiset{x} - multiset{x};
    assert n == n + multiset{x} - multiset{x};
  }

  lemma {:induction false} SumByPermutation<T>(f: T -> real, a: seq<T>, b: seq<T>)
    requires multiset(a) == multiset(b)
    ensures SumBy(f, a) == SumBy(f, b)
  {
    if a == [] {
      assert |multiset(b)| == 0;
    } else {
      assert a[0] in multiset(a);
      var j :| 0 <= j < |b| && b[j] == a[0];
      RemoveEqual(a, b, j);
      SumByPermutation(f, a[1..], b[..j] + b[j + 1..]);
      SumByRemove(f, b, j);
    }
  }

  /** The next key of a map iteration, which follows no order. */
  method PickAny<T>(s: set<T>) returns (x: T)
    requires s != {}
    ensures x in s
  {
    x :| x in s;
  }

  /** An integer measure added up over a finite set. */
  ghost function SumSet<T(!new)>(s: set<T>, f: T -> int): int {
    if s == {} then 0 else var x :| x in s; f(x) + SumSet(s - {x}, f)
  }

  /** Which element is taken out first does not matter. */
  lemma {:induction false} SumSetPick<T(!new)>(s: set<T>, f: T -> int, y: T)
    requires y in s
    ensures SumSet(s, f) == f(y) + SumSet(s - {y}, f)
    decreases |s|
  {
    var x :| x in s && SumSet(s, f) == f(x) + SumSet(s - {x}, f);
    if x != y {
      SumSetPick(s - {x}, f, y);
      SumSetPick(s - {y}, f, x);
      assert s - {x} - {y} == s - {y} - {x};
    }
  }

  lemma {:induction false} SumSetNonNegative<T(!new)>(s: set<T>, f: T -> int)
    requires forall x :: x in s ==> f(x) >= 0
    ensures SumSet(s, f) >= 0
  {
    if s != {} {
      var x :| x in s;
      SumSetPick(s, f, x);
      SumSetNonNegative(s - {x}, f);
    }
  }
}
