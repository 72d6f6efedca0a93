/** The consistent-hash ring behind prompt affinity.

  The hash (FNV-1a in the program) is an arbitrary function to 32-bit values. `Owns` defines
  ownership without any index: a member owns a key when one of its virtual points is at least as
  close, going clockwise from the key, as every point of every member. */
module HashRing {
  import opened Wrappers
  import opened Numerals
  import opened Ordering

  const RING: nat := 0x1_0000_0000
  const REPLICAS: nat := 512

  type uint32 = x: int | 0 <= x < RING
  type Hash = string -> uint32

  datatype Point = Point(hash: uint32, member: string)

  /** The i-th virtual point of a member. */
  function PointOf(h: Hash, member: string, i: nat): Point {
    Point(h(member + "#" + Decimal(i)), member)
  }

  ghost predicate OnRing(h: Hash, members: set<string>, p: Point) {
    p.member in members && exists i: nat :: i < REPLICAS && p == PointOf(h, p.member, i)
  }

  predicate HashLe(a: Point, b: Point) {
    a.hash <= b.hash
  }

  /** `points` indexes exactly the virtual points of `members`, in hash order; points with equal
    hashes may stand in any order, since the sort is not stable. */
  ghost predicate IsRing(h: Hash, members: set<string>, points: seq<Point>) {
    && SortedBy(HashLe, points)
    && forall p :: p in points <==> OnRing(h, members, p)
  }

  // ---------------------------------------------------------------- ownership

  /** How far one has to go clockwise to get from one position to another. */
  function Clockwise(from: uint32, to: uint32): nat {
    if from <= to then to - from else to + RING - from
  }

  ghost predicate Closest(h: Hash, members: set<string>, key: string, p: Point) {
    forall q :: OnRing(h, members, q) ==> Clockwise(h(key), p.hash) <= Clockwise(h(key), q.hash)
  }

  ghost predicate Owns(h: Hash, members: set<string>, key: string, m: string) {
    exists p :: OnRing(h, members, p) && p.member == m && Closest(h, members, key, p)
  }

  ghost predicate OneOwner(h: Hash, members: set<string>, key: string) {
    forall m, n :: Owns(h, members, key, m) && Owns(h, members, key, n) ==> m == n
  }

  /** Points of different members never share a hash. */
  ghost predicate NoTies(h: Hash, members: set<string>) {
    forall p, q :: OnRing(h, members, p) && OnRing(h, members, q) && p.hash == q.hash ==> p.member == q.member
  }

  // ---------------------------------------------------------------- the program

  ghost function Members(members: seq<string>): set<string> {
    set m | m in members
  }

  method NewHashRing(members: seq<string>, h: Hash) returns (points: seq<Point>)
    ensures IsRing(h, Members(members), points)
    ensures |points| == |members| * 512
  {
    points := [];
    for n := 0 to |members|
      invariant |points| == n * REPLICAS
      invariant forall p :: p in points <==> OnRing(h, Members(members[..n]), p)
    {
      ghost var before := points;
      for i := 0 to REPLICAS
        invariant |points| == n * REPLICAS + i
        invariant forall p :: p in points <==> p in before || exists j: nat :: j < i && p == PointOf(h, members[n], j)
      {
        points := points + [PointOf(h, members[n], i)];
      }
      assert members[..n + 1] == members[..n] + [members[n]];
      forall p ensures p in points <==> OnRing(h, Members(members[..n + 1]), p) {
        assert p.member in Members(members[..n + 1]) <==> p.member in Members(members[..n]) || p.member == members[n];
      }
    }
    assert members[..|members|] == members;
    var unsorted := points;
    points := SortSlice(points, HashLe);
    SameElements(points, unsorted);
  }

  /** A ring has 512 points for each member, hashed from the member, "#" and their number, in order. */
  lemma RingMeans(h: Hash, members: set<string>, points: seq<Point>, m: string, i: nat)
    requires IsRing(h, members, points)
    ensures PointOf(h, m, i) == Point(h(m + "#" + Decimal(i)), m)
    ensures forall p :: p in points <==> p.member in members && exists k: nat :: k < 512 && p == PointOf(h, p.member, k)
    ensures forall k, l :: 0 <= k < l < |points| ==> points[k].hash <= points[l].hash
  {
    forall k, l | 0 <= k < l < |points| ensures points[k].hash <= points[l].hash {
      assert HashLe(points[k], points[l]);
    }
  }

  /** Different points are hashed from different texts. */
  lemma PointTextsDiffer(m: string, i: nat, n: string, j: nat)
    requires m + "#" + Decimal(i) == n + "#" + Decimal(j)
    ensures m == n && i == j
  {
    var d, e := Decimal(i), Decimal(j);
    DecimalReads(i);
    DecimalReads(j);
    var s, t := m + "#" + d, n + "#" + e;
    if |m| < |n| {
      HashInside(m, d, n, e);
    } else if |n| < |m| {
      HashInside(n, e, m, d);
    }
    assert s[..|m|] == m && t[..|n|] == n && s[|m| + 1..] == d && t[|n| + 1..] == e;
  }

  lemma HashInside(m: string, d: string, n: string, e: string)
    requires |m| < |n| && m + "#" + d == n + "#" + e
    ensures '#' in d
  {
    var s := m + "#" + d;
    assert (n + "#" + e)[|n|] == '#';
    assert s[|n|] == d[|n| - |m| - 1];
  }

  /** The clockwise scan: the first position at or after `x`, wrapping to 0. */
  function Scan(points: seq<Point>, x: uint32, i: nat): (k: nat)
    requires i <= |points|
    ensures points != [] ==> k < |points|
    decreases |points| - i
  {
    if i == |points| then 0 else if points[i].hash >= x then i else Scan(points, x, i + 1)
  }

  lemma {:induction false} ScanFrom(points: seq<Point>, x: uint32, i: nat, k: nat)
    requires i <= k <= |points|
    requires forall j :: i <= j < k ==> points[j].hash < x
    ensures Scan(points, x, i) == Scan(points, x, k)
    decreases k - i
  {
    if i < k {
      ScanFrom(points, x, i + 1, k);
    }
  }

  /** Go's `sort.Search` for the first hash at or after `x`. */
  method Search(points: seq<Point>, x: uint32) returns (i: nat)
    requires SortedBy(HashLe, points)
    ensures i <= |points|
    ensures forall j :: 0 <= j < i ==> points[j].hash < x
    ensures forall j :: i <= j < |points| ==> points[j].hash >= x
  {
    i := 0;
    var hi := |points|;
    while i < hi
      invariant 0 <= i <= hi <= |points|
      invariant forall j :: 0 <= j < i ==> points[j].hash < x
      invariant forall j :: hi <= j < |points| ==> points[j].hash >= x
    {
      var mid := (i + hi) / 2;
      if points[mid].hash < x {
        assert forall j :: 0 <= j < mid ==> HashLe(points[j], points[mid]);
        i := mid + 1;
      } else {
        assert forall j :: mid < j < |points| ==> HashLe(points[mid], points[j]);
        hi := mid;
      }
    }
  }

  method Get(points: seq<Point>, key: string, h: Hash) returns (r: Option<string>)
    requires SortedBy(HashLe, points)
    ensures r.None? <==> points == []
    ensures r.Some? ==> r.value == points[Scan(points, h(key), 0)].member
    // the first point at or after the key's hash, or the first of all if there is none
    ensures r.Some? ==> exists k | 0 <= k < |points| && r.value == points[k].member ::
      if h(key) <= points[k].hash then forall j :: 0 <= j < k ==> points[j].hash < h(key)
      else k == 0 && forall j :: 0 <= j < |points| ==> points[j].hash < h(key)
  {
    if points == [] {
      return None;
    }
    var i := Search(points, h(key));
    ScanFrom(points, h(key), 0, i);
    if i == |points| {
      i := 0;
    }
    assert points[i].hash < h(key) ==> i == 0;
    r := Some(points[i].member);
  }

  // ---------------------------------------------------------------- what a lookup means

  /** The answer of a ring that indexes at least one point. */
  function Answer(points: seq<Point>, x: uint32): string
    requires points != []
  {
    points[Scan(points, x, 0)].member
  }

  lemma {:induction false} ScanFinds(points: seq<Point>, x: uint32, i: nat)
    requires i <= |points| && points != []
    ensures var k := Scan(points, x, i);
      || (i <= k < |points| && points[k].hash >= x && forall j :: i <= j < k ==> points[j].hash < x)
      || (k == 0 && forall j :: i <= j < |points| ==> points[j].hash < x)
    decreases |points| - i
  {
    if i < |points| && points[i].hash < x {
      ScanFinds(points, x, i + 1);
    }
  }

  /** The scan stops at a point no other point is strictly closer than. */
  lemma ScanIsClosest(h: Hash, members: set<string>, points: seq<Point>, key: string)
    requires IsRing(h, members, points) && points != []
    ensures Closest(h, members, key, points[Scan(points, h(key), 0)])
  {
    var x := h(key);
    ScanFinds(points, x, 0);
    var k := Scan(points, x, 0);
    forall q | OnRing(h, members, q) ensures Clockwise(x, points[k].hash) <= Clockwise(x, q.hash) {
      assert q in points;
      var j :| 0 <= j < |points| && points[j] == q;
      assert k < j ==> HashLe(points[k], points[j]);
    }
  }

  /** Whatever order the members are listed in and however the sort breaks ties, a lookup returns
    an owner of the key. */
  lemma LookupIsOwner(h: Hash, members: set<string>, points: seq<Point>, key: string)
    requires IsRing(h, members, points) && points != []
    ensures Owns(h, members, key, Answer(points, h(key)))
  {
    ScanIsClosest(h, members, points, key);
    var p := points[Scan(points, h(key), 0)];
    assert p in points;
  }

  lemma {:induction false} ScanDependsOnHashes(a: seq<Point>, b: seq<Point>, x: uint32, i: nat)
    requires |a| == |b| && i <= |a| && forall j :: 0 <= j < |a| ==> a[j].hash == b[j].hash
    ensures Scan(a, x, i) == Scan(b, x, i)
    decreases |a| - i
  {
    if i < |a| {
      ScanDependsOnHashes(a, b, x, i + 1);
    }
  }

  /** Conversely every owner is returned by some ring over the same members. */
  lemma OwnerIsLookup(h: Hash, members: set<string>, points: seq<Point>, key: string, m: string)
    returns (other: seq<Point>)
    requires IsRing(h, members, points) && points != [] && Owns(h, members, key, m)
    ensures IsRing(h, members, other) && other != [] && Answer(other, h(key)) == m
  {
    var p :| OnRing(h, members, p) && p.member == m && Closest(h, members, key, p);
    ScanIsClosest(h, members, points, key);
    var k := Scan(points, h(key), 0);
    assert points[k] in points && p in points;
    assert points[k].hash == p.hash;
    var j :| 0 <= j < |points| && points[j] == p;
    other := Swap(points, k, j);
    ScanDependsOnHashes(points, other, h(key), 0);
    SwapPermutes(points, k, j);
    SwapKeepsOrder(points, k, j);
  }

  lemma SwapKeepsOrder(points: seq<Point>, k: nat, j: nat)
    requires SortedBy(HashLe, points) && k < |points| && j < |points| && points[k].hash == points[j].hash
    ensures SortedBy(HashLe, Swap(points, k, j))
  {
    var other := Swap(points, k, j);
    forall a, b | 0 <= a < b < |other| ensures HashLe(other[a], other[b]) {
      assert HashLe(points[a], points[b]);
    }
  }

  /** All rings over the same members agree on a key exactly when its owner is unique. */
  lemma OrderIndependentIffOneOwner(h: Hash, members: set<string>, points: seq<Point>, key: string)
    requires IsRing(h, members, points) && points != []
    ensures (forall other :: IsRing(h, members, other) && other != [] ==> Answer(other, h(key)) == Answer(points, h(key)))
       <==> OneOwner(h, members, key)
  {
    LookupIsOwner(h, members, points, key);
    if OneOwner(h, members, key) {
      forall other | IsRing(h, members, other) && other != [] ensures Answer(other, h(key)) == Answer(points, h(key)) {
        LookupIsOwner(h, members, other, key);
      }
    } else {
      var m, n :| Owns(h, members, key, m) && Owns(h, members, key, n) && m != n;
      var forM := OwnerIsLookup(h, members, points, key, m);
      var forN := OwnerIsLookup(h, members, points, key, n);
    }
  }

  /** Keys have one owner when no two members share a hash. */
  lemma NoTiesOneOwner(h: Hash, members: set<string>, key: string)
    requires NoTies(h, members)
    ensures OneOwner(h, members, key)
  {
    forall m, n | Owns(h, members, key, m) && Owns(h, members, key, n) ensures m == n {
      var p :| OnRing(h, members, p) && p.member == m && Closest(h, members, key, p);
      var q :| OnRing(h, members, q) && q.member == n && Closest(h, members, key, q);
      assert p.hash == q.hash;
    }
  }

  // ---------------------------------------------------------------- minimal disruption

  /** An owner that stays keeps its keys when others leave. */
  lemma OwnerSurvivesRemoval(h: Hash, members: set<string>, gone: string, key: string, m: string)
    requires Owns(h, members, key, m) && m != gone
    ensures Owns(h, members - {gone}, key, m)
  {
    var p :| OnRing(h, members, p) && p.member == m && Closest(h, members, key, p);
    assert OnRing(h, members - {gone}, p);
    forall q | OnRing(h, members - {gone}, q) ensures Clockwise(h(key), p.hash) <= Clockwise(h(key), q.hash) {
      assert OnRing(h, members, q);
    }
  }

  /** Removing a member leaves the answer for a key that was not answered by it alone, on every ring
    over those that stay, exactly when the key has one owner among them. */
  lemma RemovalMovesOnlyItsKeysIff(h: Hash, members: set<string>, gone: string, key: string,
                                   before: seq<Point>, after: seq<Point>)
    requires IsRing(h, members, before) && before != []
    requires IsRing(h, members - {gone}, after) && after != []
    requires Answer(before, h(key)) != gone
    ensures (forall other :: IsRing(h, members - {gone}, other) && other != [] ==> Answer(other, h(key)) == Answer(before, h(key)))
       <==> OneOwner(h, members - {gone}, key)
  {
    var rest := members - {gone};
    LookupIsOwner(h, members, before, key);
    OwnerSurvivesRemoval(h, members, gone, key, Answer(before, h(key)));
    OrderIndependentIffOneOwner(h, rest, after, key);
    if OneOwner(h, rest, key) {
      forall other | IsRing(h, rest, other) && other != [] ensures Answer(other, h(key)) == Answer(before, h(key)) {
        LookupIsOwner(h, rest, other, key);
      }
    }
  }

  /** Unless the joined member takes a key from all its owners, it leaves them all owners. */
  lemma OwnersSurviveAddition(h: Hash, members: set<string>, joined: string, key: string, m: string, kept: string)
    requires Owns(h, members, key, m)
    requires Owns(h, members + {joined}, key, kept) && kept != joined
    ensures Owns(h, members + {joined}, key, m)
  {
    var p :| OnRing(h, members, p) && p.member == m && Closest(h, members, key, p);
    var q :| OnRing(h, members + {joined}, q) && q.member == kept && Closest(h, members + {joined}, key, q);
    assert OnRing(h, members + {joined}, p) && OnRing(h, members, q);
    assert Closest(h, members + {joined}, key, p);
  }

  /** Every ring that also indexes the joined member gives `answer` or the joined member. */
  ghost predicate MovesOnlyTo(h: Hash, members: set<string>, joined: string, key: string, answer: string) {
    forall other :: IsRing(h, members + {joined}, other) && other != [] ==>
      Answer(other, h(key)) == answer || Answer(other, h(key)) == joined
  }

  ghost predicate TakenBy(h: Hash, members: set<string>, joined: string, key: string) {
    forall m :: Owns(h, members + {joined}, key, m) ==> m == joined
  }

  lemma OwnerIsMember(h: Hash, members: set<string>, key: string, m: string)
    requires Owns(h, members, key, m)
    ensures m in members
  {}

  /** Of two owners at least one is not the answer; it may answer the key after the addition. */
  lemma MovesElsewhere(h: Hash, members: set<string>, joined: string, key: string, after: seq<Point>, answer: string)
    requires joined !in members && IsRing(h, members + {joined}, after) && after != []
    requires !OneOwner(h, members, key) && !TakenBy(h, members, joined, key)
    ensures !MovesOnlyTo(h, members, joined, key, answer)
  {
    hide IsRing, Owns, Answer;
    var kept :| Owns(h, members + {joined}, key, kept) && kept != joined;
    var m, n :| Owns(h, members, key, m) && Owns(h, members, key, n) && m != n;
    var moved := if m == answer then n else m;
    OwnersSurviveAddition(h, members, joined, key, moved, kept);
    OwnerIsMember(h, members, key, moved);
    var other := OwnerIsLookup(h, members + {joined}, after, key, moved);
  }

  /** Adding a member moves a key only to it, whatever the rings, exactly when the key had one owner
    or the joined member takes it from all of them. */
  lemma AdditionMovesOnlyToNewIff(h: Hash, members: set<string>, joined: string, key: string,
                                  before: seq<Point>, after: seq<Point>)
    requires joined !in members
    requires IsRing(h, members, before) && before != []
    requires IsRing(h, members + {joined}, after) && after != []
    ensures MovesOnlyTo(h, members, joined, key, Answer(before, h(key)))
       <==> OneOwner(h, members, key) || TakenBy(h, members, joined, key)
  {
    var all, answer := members + {joined}, Answer(before, h(key));
    assert all - {joined} == members;
    LookupIsOwner(h, members, before, key);
    hide IsRing, Owns, Answer;
    if OneOwner(h, members, key) || TakenBy(h, members, joined, key) {
      forall other | IsRing(h, all, other) && other != []
        ensures Answer(other, h(key)) == answer || Answer(other, h(key)) == joined
      {
        LookupIsOwner(h, all, other, key);
        if Answer(other, h(key)) != joined {
          OwnerSurvivesRemoval(h, all, joined, key, Answer(other, h(key)));
        }
      }
    } else {
      MovesElsewhere(h, members, joined, key, after, answer);
    }
  }
}
