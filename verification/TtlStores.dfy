/** Tables whose entries expire, and the single-use reservations kept in one. Expired entries are
  only swept out when something is added. Times are milliseconds. */
module TtlStores {
  import opened Wrappers

  datatype Timed<+V> = Timed(value: V, expires: int)
  type Table<V> = map<string, Timed<V>>

  predicate Expired<V>(e: Timed<V>, now: int) { now > e.expires }

  /** The table without the entries that have expired. */
  function Swept<V>(t: Table<V>, now: int): Table<V> {
    map id | id in t && !Expired(t[id], now) :: t[id]
  }

  /** The sweep loop, in any order. */
  method Sweep<V>(t: Table<V>, now: int) returns (r: Table<V>)
    ensures r == Swept(t, now)
  {
    r := t;
    var left := t.Keys;
    while left != {}
      invariant left <= t.Keys
      invariant r == map id | id in t && (id in left || !Expired(t[id], now)) :: t[id]
      decreases left
    {
      var id :| id in left;
      left := left - {id};
      if Expired(r[id], now) {
        r := r - {id};
      }
    }
  }

  /** A sweep keeps what has not expired yet, the last instant included; and so does a look. */
  lemma SweptMeans<V(!new)>(t: Table<V>, id: string, now: int)
    ensures id in Swept(t, now) <==> id in t && now <= t[id].expires
    ensures id in Swept(t, now) ==> Swept(t, now)[id] == t[id]
    ensures id in t && now <= t[id].expires ==> Lookup(t, id, now) == Some(t[id].value)
    ensures id !in t || now > t[id].expires ==> Lookup(t, id, now) == None
  {}

  /** `t` is `kept` short of some entries that had expired at time `clock`. */
  ghost predicate Lags<V(!new)>(t: Table<V>, kept: Table<V>, clock: int) {
    && (forall id :: id in t ==> id in kept && t[id] == kept[id])
    && (forall id :: id in kept && id !in t ==> Expired(kept[id], clock))
  }

  lemma LagsLater<V(!new)>(t: Table<V>, kept: Table<V>, clock: int, now: int)
    requires Lags(t, kept, clock) && now >= clock
    ensures Lags(t, kept, now)
  {}

  lemma LagsSwept<V(!new)>(t: Table<V>, kept: Table<V>, clock: int, now: int)
    requires Lags(t, kept, clock) && now <= clock
    ensures Lags(Swept(t, now), kept, clock)
  {}

  // ---------------------------------------------------------------- reservations

  const RESERVATION_TTL := 30_000

  class ReservationStore<V> {
    var items: Table<V>

    constructor ()
      ensures items == map[]
    {
      items := map[];
    }

    method Create(id: string, target: V, now: int)
      modifies this
      ensures items == Created(old(items), id, target, now)
      ensures id in items && items[id] == Timed(target, now + 30_000)
      ensures forall k :: k in items && k != id <==> k in old(items) && k != id && now <= old(items)[k].expires
      ensures forall k :: k in items && k != id ==> items[k] == old(items)[k]
    {
      var swept := Sweep(items, now);
      items := swept[id := Timed(target, now + RESERVATION_TTL)];
    }

    method Resolve(id: string, now: int) returns (r: Option<V>)
      modifies this
      ensures r == Lookup(old(items), id, now)
      ensures items == old(items) - {id}
      ensures r.Some? <==> id in old(items) && now <= old(items)[id].expires
      ensures r.Some? ==> r.value == old(items)[id].value
    {
      if id !in items {
        assert items - {id} == items;
        return None;
      }
      var e := items[id];
      items := items - {id};
      if now > e.expires {
        return None;
      }
      r := Some(e.value);
    }
  }

  function Created<V>(t: Table<V>, id: string, target: V, now: int): Table<V> {
    Swept(t, now)[id := Timed(target, now + RESERVATION_TTL)]
  }

  function Lookup<V>(t: Table<V>, id: string, now: int): Option<V> {
    if id in t && !Expired(t[id], now) then Some(t[id].value) else None
  }

  // Runs of calls, on the store and on one that never sweeps

  datatype Op<+V> = Create(id: string, target: V, now: int) | Resolve(id: string, now: int)

  function After<V>(ops: seq<Op<V>>): Table<V> {
    if ops == [] then map[] else
      var t := After(ops[..|ops| - 1]);
      match ops[|ops| - 1]
      case Create(id, target, now) => Created(t, id, target, now)
      case Resolve(id, now) => t - {id}
  }

  function Kept<V>(ops: seq<Op<V>>): Table<V> {
    if ops == [] then map[] else
      var t := Kept(ops[..|ops| - 1]);
      match ops[|ops| - 1]
      case Create(id, target, now) => t[id := Timed(target, now + RESERVATION_TTL)]
      case Resolve(id, now) => t - {id}
  }

  /** Some later creation came after the pending reservation `id` had expired. */
  predicate Outlived<V>(ops: seq<Op<V>>, id: string) {
    ops != [] &&
    var init, op := ops[..|ops| - 1], ops[|ops| - 1];
    op.id != id && (Outlived(init, id) || (op.Create? && id in Kept(init) && Expired(Kept(init)[id], op.now)))
  }

  /** The store holds exactly what the one that never sweeps holds, less the outlived entries. */
  lemma {:induction false} AfterIs<V(!new)>(ops: seq<Op<V>>)
    ensures forall id :: id in After(ops) <==> id in Kept(ops) && !Outlived(ops, id)
    ensures forall id :: id in After(ops) ==> After(ops)[id] == Kept(ops)[id]
  {
    if ops != [] {
      AfterIs(ops[..|ops| - 1]);
    }
  }

  /** For any clock readings: sweeping changes the outcome of a resolution exactly when the reservation
    has been outlived and yet this call's own clock says that it has not expired. */
  lemma SweepingMattersIff<V(!new)>(ops: seq<Op<V>>, id: string, now: int)
    ensures Lookup(After(ops), id, now) != Lookup(Kept(ops), id, now) <==>
            Outlived(ops, id) && id in Kept(ops) && !Expired(Kept(ops)[id], now)
  {
    AfterIs(ops);
  }

  predicate ClockAdvances<V>(ops: seq<Op<V>>) {
    forall i, j :: 0 <= i < j < |ops| ==> ops[i].now <= ops[j].now
  }

  lemma {:induction false} OutlivedIsExpired<V(!new)>(ops: seq<Op<V>>, id: string)
    requires ClockAdvances(ops) && Outlived(ops, id) && id in Kept(ops)
    ensures Expired(Kept(ops)[id], ops[|ops| - 1].now)
  {
    var init := ops[..|ops| - 1];
    if Outlived(init, id) {
      OutlivedIsExpired(init, id);
      assert ops[|init| - 1].now <= ops[|ops| - 1].now;
    }
  }

  /** With a clock that does not go back, sweeping never changes an outcome. */
  lemma SweepingIsInvisible<V(!new)>(ops: seq<Op<V>>, id: string, now: int)
    requires ClockAdvances(ops) && (ops != [] ==> ops[|ops| - 1].now <= now)
    ensures Lookup(After(ops), id, now) == Lookup(Kept(ops), id, now)
  {
    SweepingMattersIff(ops, id, now);
    if Outlived(ops, id) && id in Kept(ops) {
      OutlivedIsExpired(ops, id);
    }
  }

  /** With a clock that goes back it does: the first reservation is swept out by the second, and then
    asked for with an earlier reading. */
  lemma ClockGoingBackLosesReservation<V(!new)>(a: string, b: string, target: V, t: int, early: int)
    requires a != b && early <= t + 30_000
    ensures var ops := [Create(a, target, t), Create(b, target, t + 30_001)];
      Lookup(After(ops), a, early) == None && Lookup(Kept(ops), a, early) == Some(target)
  {
    var ops := [Create(a, target, t), Create(b, target, t + RESERVATION_TTL + 1)];
    var first := [Create(a, target, t)];
    assert ops[..1] == first && first[..0] == [];
    assert After(first) == map[a := Timed(target, t + RESERVATION_TTL)];
    assert Kept(first) == map[a := Timed(target, t + RESERVATION_TTL)];
  }

  /** The outcome of the k-th call, if it is a resolution. */
  function Outcome<V>(ops: seq<Op<V>>, k: nat): Option<V>
    requires k < |ops|
  {
    if ops[k].Resolve? then Lookup(After(ops[..k]), ops[k].id, ops[k].now) else None
  }

  /** The creation that is pending for `id`: the last call about it. */
  predicate PendingSince<V(==)>(ops: seq<Op<V>>, id: string, i: nat) {
    i < |ops| && ops[i].Create? && ops[i].id == id && forall j :: i < j < |ops| ==> ops[j].id != id
  }

  predicate PendingAs<V(==)>(ops: seq<Op<V>>, id: string, i: nat, e: Timed<V>) {
    PendingSince(ops, id, i) && e == Timed(ops[i].target, ops[i].now + RESERVATION_TTL)
  }

  lemma {:induction false} KeptMeaning<V(!new)>(ops: seq<Op<V>>, id: string)
    ensures id in Kept(ops) ==> exists i: nat :: PendingAs(ops, id, i, Kept(ops)[id])
    ensures id !in Kept(ops) ==> forall i: nat :: !PendingSince(ops, id, i)
  {
    if ops != [] {
      var n := |ops| - 1;
      KeptMeaning(ops[..n], id);
      if ops[n].id == id {
        assert ops[n].Create? ==> PendingAs(ops, id, n, Kept(ops)[id]);
      } else {
        if id in Kept(ops) {
          var i: nat :| PendingAs(ops[..n], id, i, Kept(ops[..n])[id]);
          assert PendingAs(ops, id, i, Kept(ops)[id]);
        } else if i: nat :| PendingSince(ops, id, i) {
          assert PendingSince(ops[..n], id, i);
        }
      }
    }
  }

  /** Call i created the ID that call k is about, no call between them was about it, and it has not
    expired. */
  predicate InForce<V(==)>(ops: seq<Op<V>>, k: nat, i: nat)
    requires k < |ops|
  {
    PendingSince(ops[..k], ops[k].id, i) && ops[k].now <= ops[i].now + 30_000
  }

  /** A resolution succeeds exactly when the last earlier call about its ID created it at most thirty
    seconds before; calls about other IDs play no part. */
  lemma ResolvesIff<V(!new)>(ops: seq<Op<V>>, k: nat, target: V)
    requires ClockAdvances(ops) && k < |ops| && ops[k].Resolve?
    ensures Outcome(ops, k) == Some(target) <==> exists i: nat :: InForce(ops, k, i) && ops[i].target == target
  {
    var before, id := ops[..k], ops[k].id;
    SweepingIsInvisible(before, id, ops[k].now);
    KeptMeaning(before, id);
    if id in Kept(before) {
      var i: nat :| PendingAs(before, id, i, Kept(before)[id]);
      assert Outcome(ops, k) == Some(target) ==> InForce(ops, k, i);
      forall j: nat | PendingSince(before, id, j) ensures i == j {}
    }
  }

  /** Single use: between two successful resolutions of an ID it was created again, so an ID that is
    created once resolves at most once. */
  lemma ResolvesOncePerCreation<V(!new)>(ops: seq<Op<V>>, k: nat, l: nat)
    requires ClockAdvances(ops) && k < l < |ops| && ops[k].id == ops[l].id
    requires ops[k].Resolve? && Outcome(ops, k).Some? && ops[l].Resolve? && Outcome(ops, l).Some?
    ensures exists i, j :: 0 <= i < k < j < l && ops[i].Create? && ops[i].id == ops[k].id && ops[j].Create? && ops[j].id == ops[k].id
  {
    ResolvesIff(ops, k, Outcome(ops, k).value);
    ResolvesIff(ops, l, Outcome(ops, l).value);
    var i: nat :| InForce(ops, k, i);
    var j: nat :| InForce(ops, l, j);
    assert ops[..l][k].id == ops[l].id;
    assert k < j || k == j;
  }
}
