/** How much memory a node offers the mesh: the requested share, clamped to what its devices can spare
  right now. Sizes are in GB. */
module MemoryCommit {
  import opened Wrappers
  import opened Numerals
  import opened Ordering

  const RESERVE_GB := 2.0
  const RESERVE_PCT := 0.15
  const CLUSTER_GB := 128.0

  /** What Exo reports of a device; either part may be missing. */
  datatype Device = Device(total: Option<real>, available: Option<real>)

  /** The readings and options of one assembly. `cluster` holds the devices Exo lists when it reports
    more than one; `available` is None when the local reading fails. */
  datatype Readings = Readings(localTotal: real, available: Option<real>, cluster: Option<seq<Device>>,
                               declared: real, requested: real)

  datatype Manifest = Manifest(isCluster: bool, memoryGB: real, capPct: real)

  /** What must stay free for a device's owner. */
  function Reserve(total: real): (r: real)
    ensures r >= RESERVE_GB && r >= total * RESERVE_PCT
  {
    if total * RESERVE_PCT > RESERVE_GB then total * RESERVE_PCT else RESERVE_GB
  }

  function Size(d: Device): real { if d.total.Some? then d.total.value else 0.0 }
  function Free(d: Device): real { if d.available.Some? then d.available.value else 0.0 }

  /** What a device can spare: nothing when its size is unknown or its owner needs the rest. */
  function Spare(d: Device): (r: real)
    ensures r >= 0.0 && (r > 0.0 ==> Free(d) - r >= Reserve(Size(d)))
  {
    if Size(d) > 0.0 && Free(d) - Reserve(Size(d)) > 0.0 then Free(d) - Reserve(Size(d)) else 0.0
  }

  function Round2(x: real): real {
    Truncate(x * 100.0) as real / 100.0
  }

  lemma Round2Below(x: real)
    requires x >= 0.0
    ensures 0.0 <= Round2(x) <= x < Round2(x) + 0.01
    ensures Round2(x) * 100.0 == (Round2(x) * 100.0).Floor as real
  {}

  /** What stays free is 2 GB or 15 percent, whichever is more; a device spares what is free above it. */
  lemma SpareMeans(d: Device)
    ensures Reserve(Size(d)) == 2.0 || Reserve(Size(d)) == 0.15 * Size(d)
    ensures d.total.Some? && d.total.value > 0.0 && d.available.Some? ==>
      (Spare(d) == 0.0 && (d.available.value <= 2.0 || d.available.value <= 0.15 * d.total.value)) ||
      (Spare(d) == d.available.value - 2.0 && 2.0 >= 0.15 * d.total.value) ||
      (Spare(d) == d.available.value - 0.15 * d.total.value && 0.15 * d.total.value >= 2.0)
    ensures d.total.None? || d.total.value <= 0.0 || d.available.None? ==> Spare(d) == 0.0
    ensures Size(d) == if d.total.None? then 0.0 else d.total.value
  {}

  // ---------------------------------------------------------------- the assembly

  method AggregateClusterStats(devices: seq<Device>) returns (total: real, safe: real)
    ensures total == SumBy(Size, devices) && safe == SumBy(Spare, devices)
  {
    total, safe := 0.0, 0.0;
    for i := 0 to |devices|
      invariant total == SumBy(Size, devices[..i]) && safe == SumBy(Spare, devices[..i])
    {
      AddOne(Size, devices, i);
      AddOne(Spare, devices, i);
      var deviceTotal, deviceAvailable := 0.0, 0.0;
      if devices[i].total.Some? {
        deviceTotal := devices[i].total.value;
        total := total + deviceTotal;
      }
      if devices[i].available.Some? {
        deviceAvailable := devices[i].available.value;
      }
      if deviceTotal > 0.0 {
        var spare := deviceAvailable - Reserve(deviceTotal);
        if spare > 0.0 {
          safe := safe + spare;
        }
      }
    }
    assert devices[..|devices|] == devices;
  }

  lemma AddOne(f: Device -> real, devices: seq<Device>, i: nat)
    requires i < |devices|
    ensures SumBy(f, devices[..i + 1]) == SumBy(f, devices[..i]) + f(devices[i])
  {
    SumBySplit(f, devices[..i + 1], i);
    assert devices[..i + 1][..i] == devices[..i] && devices[..i + 1][i..] == [devices[i]];
  }

  /** The memory the manifest declares, before rounding. */
  function TotalGB(r: Readings): real {
    if r.cluster.Some? && SumBy(Size, r.cluster.value) > 0.0 then SumBy(Size, r.cluster.value)
    else if r.declared > 0.0 then r.declared
    else r.localTotal
  }

  function HostGB(r: Readings): real { if r.declared > 0.0 then r.declared else r.localTotal }

  /** The nodes whose share is clamped: a real cluster with reported sizes; or a single machine below
    the size that counts as a cluster, without a declared size, whose free memory can be read. */
  predicate Guarded(r: Readings) {
    if r.cluster.Some? then SumBy(Size, r.cluster.value) > 0.0
    else r.declared <= 0.0 && 0.0 < r.localTotal < CLUSTER_GB && r.available.Some?
  }

  /** What the node's devices can spare together. */
  function SafeGB(r: Readings): (safe: real) {
    if r.cluster.Some? then SumBy(Spare, r.cluster.value) else Spare(Device(Some(r.localTotal), r.available))
  }

  function Share(r: Readings): real {
    var share := if Guarded(r) && SafeGB(r) / TotalGB(r) < r.requested then SafeGB(r) / TotalGB(r) else r.requested;
    if share < 0.0 then 0.0 else share
  }

  method AssembleManifest(r: Readings) returns (m: Manifest)
    ensures m.memoryGB == Round2(TotalGB(r)) && m.capPct == Round2(Share(r))
    ensures m.isCluster <==> r.cluster.Some? || (if r.declared > 0.0 then r.declared else r.localTotal) >= 128.0
    // the declared total: what the cluster's devices report, else what the operator declares, else the
    // machine's own reading
    ensures r.cluster.Some? && SumBy(Size, r.cluster.value) > 0.0 ==> m.memoryGB == Round2(SumBy(Size, r.cluster.value))
    ensures !(r.cluster.Some? && SumBy(Size, r.cluster.value) > 0.0) ==>
      m.memoryGB == Round2(if r.declared > 0.0 then r.declared else r.localTotal)
    ensures 0.0 <= m.capPct <= if r.requested > 0.0 then r.requested else 0.0
  {
    hide Round2, Spare, Reserve;
    var totalGB := r.localTotal;
    if r.declared > 0.0 {
      totalGB := r.declared;
    }
    var isCluster, clusterTotal, clusterSafe := r.cluster.Some?, 0.0, 0.0;
    if r.cluster.Some? {
      clusterTotal, clusterSafe := AggregateClusterStats(r.cluster.value);
    }
    if !isCluster && totalGB >= CLUSTER_GB {
      isCluster := true;
    }
    if isCluster && clusterTotal > 0.0 {
      totalGB := clusterTotal;
    }
    var effective := r.requested;
    if isCluster && clusterTotal > 0.0 && totalGB > 0.0 {
      if clusterSafe / totalGB < effective {
        effective := clusterSafe / totalGB;
      }
    } else if !isCluster && r.declared <= 0.0 && totalGB > 0.0 {
      if r.available.Some? {
        SpareIs(totalGB, r.available.value);
        var safe := r.available.value - Reserve(totalGB);
        if safe < 0.0 {
          safe := 0.0;
        }
        if safe / totalGB < effective {
          effective := safe / totalGB;
        }
      }
    }
    if effective < 0.0 {
      effective := 0.0;
    }
    m := Manifest(isCluster, Round2(totalGB), Round2(effective));
    SafeNonNegative(r);
    Round2Below(Share(r));
  }

  lemma SpareIs(total: real, available: real)
    requires total > 0.0
    ensures Spare(Device(Some(total), Some(available))) == if available - Reserve(total) < 0.0 then 0.0 else available - Reserve(total)
  {}

  // ---------------------------------------------------------------- what a node commits

  /** The coordinator's product of the two manifest fields. */
  function Committed(r: Readings): real {
    Round2(TotalGB(r)) * Round2(Share(r))
  }

  lemma Products(a: real, b: real, x: real, y: real)
    requires 0.0 <= a <= x && 0.0 <= b <= y
    ensures 0.0 <= a * b <= x * y
  {
    assert a * b <= x * b;
    assert x * b <= x * y;
  }

  lemma RoundedProduct(total: real, share: real)
    requires total >= 0.0 && share >= 0.0
    ensures 0.0 <= Round2(total) * Round2(share) <= total * share
  {
    Round2Below(total);
    Round2Below(share);
    Products(Round2(total), Round2(share), total, share);
  }

  lemma {:induction false} SpareNonNegative(devices: seq<Device>)
    ensures SumBy(Spare, devices) >= 0.0
  {
    if devices != [] {
      SpareNonNegative(devices[1..]);
    }
  }

  lemma SafeNonNegative(r: Readings)
    ensures SafeGB(r) >= 0.0
  {
    if r.cluster.Some? {
      SpareNonNegative(r.cluster.value);
    }
  }

  /** A node never commits more than its requested share, rounding included. */
  lemma WithinRequest(r: Readings)
    requires r.localTotal >= 0.0
    ensures 0.0 <= Committed(r) <= if r.requested > 0.0 then TotalGB(r) * r.requested else 0.0
  {
    hide Round2, Spare, SumBy;
    SafeNonNegative(r);
    assert TotalGB(r) >= 0.0;
    RoundedProduct(TotalGB(r), Share(r));
    if r.requested > 0.0 {
      assert Share(r) <= r.requested;
      Products(TotalGB(r), Share(r), TotalGB(r), r.requested);
    } else {
      ShareOfNothing(r);
    }
  }

  lemma ShareOfNothing(r: Readings)
    requires r.requested <= 0.0
    ensures Share(r) == 0.0 && TotalGB(r) * Share(r) == 0.0
  {
    SafeNonNegative(r);
  }

  lemma ShareTimesTotal(safe: real, total: real, share: real)
    requires total > 0.0 && safe >= 0.0 && share <= safe / total
    ensures total * share <= safe
  {
    assert safe / total * total == safe;
    assert (safe / total - share) * total >= 0.0;
  }

  /** A guarded node never commits more than its devices can spare. */
  lemma WithinSafe(r: Readings)
    requires Guarded(r)
    ensures Committed(r) <= SafeGB(r)
  {
    hide Round2, Spare, SumBy;
    SafeNonNegative(r);
    var total := TotalGB(r);
    assert total > 0.0;
    assert SafeGB(r) / total >= 0.0;
    ShareTimesTotal(SafeGB(r), total, Share(r));
    RoundedProduct(total, Share(r));
  }

  /** A node commits as much as it may: one hundredth more would exceed the request, or what the devices
    can spare if the node is a cluster with reported sizes or an ordinary machine whose free memory is
    known. Any other node commits its request. */
  lemma CommitsAllItMay(r: Readings, share: real)
    requires r.localTotal >= 0.0 && share >= Round2(Share(r)) + 0.01
    ensures var guarded := if r.cluster.Some? then SumBy(Size, r.cluster.value) > 0.0
                           else r.declared <= 0.0 && 0.0 < r.localTotal < 128.0 && r.available.Some?;
      share > r.requested || (guarded && TotalGB(r) * share > SafeGB(r))
  {
    hide Round2, Spare, SumBy;
    SafeNonNegative(r);
    assert Share(r) >= 0.0;
    Round2Below(Share(r));
    assert share > Share(r);
    if share <= r.requested {
      assert Guarded(r) && Share(r) == SafeGB(r) / TotalGB(r);
      Beyond(SafeGB(r), TotalGB(r), share);
    }
  }

  lemma Beyond(safe: real, total: real, share: real)
    requires total > 0.0 && share > safe / total
    ensures total * share > safe
  {
    assert safe / total * total == safe;
    assert (share - safe / total) * total > 0.0;
  }

  /** What the devices can spare is what each of the cluster's can, or the machine itself. */
  lemma SafeMeans(r: Readings)
    ensures r.cluster.Some? ==> SafeGB(r) == SumBy(Spare, r.cluster.value)
    ensures r.cluster.None? ==> SafeGB(r) == Spare(Device(Some(r.localTotal), r.available))
    ensures r.cluster.None? && r.declared <= 0.0 ==> TotalGB(r) == r.localTotal
  {}

  /** A split of the commitment over the devices in which each keeps its owner's reserve. */
  ghost predicate SpreadOver(parts: seq<real>, devices: seq<Device>) {
    |parts| == |devices| && forall i :: 0 <= i < |devices| ==> 0.0 <= parts[i] <= Spare(devices[i])
  }

  lemma {:induction false} Spread(devices: seq<Device>, amount: real) returns (parts: seq<real>)
    requires 0.0 <= amount <= SumBy(Spare, devices)
    ensures SpreadOver(parts, devices) && SumReal(parts) == amount
  {
    if devices == [] {
      parts := [];
    } else {
      SpareNonNegative(devices[1..]);
      var first := if amount <= Spare(devices[0]) then amount else Spare(devices[0]);
      var rest := Spread(devices[1..], amount - first);
      parts := [first] + rest;
      assert parts[1..] == rest;
      forall i | 0 <= i < |devices| ensures 0.0 <= parts[i] <= Spare(devices[i]) {
        if i > 0 {
          assert rest[i - 1] <= Spare(devices[1..][i - 1]);
        }
      }
    }
  }

  /** What a real cluster with reported sizes commits can be met without touching any device's
    reserve: roomier devices never make up for a tight one. */
  lemma ClusterKeepsReserves(r: Readings) returns (parts: seq<real>)
    requires r.cluster.Some? && Guarded(r) && r.localTotal >= 0.0
    ensures SpreadOver(parts, r.cluster.value) && SumReal(parts) == Committed(r)
    ensures forall i :: 0 <= i < |parts| && parts[i] > 0.0 ==>
      Free(r.cluster.value[i]) - parts[i] >= Reserve(Size(r.cluster.value[i]))
  {
    WithinSafe(r);
    WithinRequest(r);
    parts := Spread(r.cluster.value, Committed(r));
    hide Committed, Round2;
    var devices := r.cluster.value;
    forall i | 0 <= i < |parts| && parts[i] > 0.0 ensures Free(devices[i]) - parts[i] >= Reserve(Size(devices[i])) {
      assert Spare(devices[i]) >= parts[i];
    }
  }

  // ---------------------------------------------------------------- who is not guarded

  function Asking(r: Readings, share: real): Readings { r.(requested := share) }

  lemma UnguardedCommits(r: Readings, share: real)
    requires !Guarded(r) && 0.0 <= share <= 1.0 && r.localTotal >= 0.0
    ensures Committed(Asking(r, share)) == Round2(TotalGB(r)) * Round2(share) <= Round2(TotalGB(r))
  {
    hide Round2;
    assert Share(Asking(r, share)) == share && TotalGB(Asking(r, share)) == TotalGB(r);
    Round2Below(TotalGB(r));
    Round2Below(share);
    Products(Round2(TotalGB(r)), Round2(share), Round2(TotalGB(r)), 1.0);
  }

  ghost predicate SafeForEveryShare(r: Readings) {
    forall share: real :: 0.0 <= share <= 1.0 ==> Committed(Asking(r, share)) <= SafeGB(r)
  }

  /** Whatever share of its memory is asked for, a node stays within what its devices can spare exactly
    when it is guarded or all its declared memory is within that. A single machine of 128 GB or more is
    not guarded: it counts as a cluster, but one without device readings. */
  lemma SafeForEveryShareIff(r: Readings)
    requires r.localTotal >= 0.0
    ensures SafeForEveryShare(r) <==> Guarded(r) || Round2(TotalGB(r)) <= SafeGB(r)
  {
    hide Round2, SafeGB, TotalGB, Committed, Guarded;
    forall share: real | 0.0 <= share <= 1.0
      ensures Guarded(r) ==> Committed(Asking(r, share)) <= SafeGB(r)
      ensures !Guarded(r) ==> Committed(Asking(r, share)) <= Round2(TotalGB(r))
    {
      OnlyTheRequest(r, share);
      if Guarded(r) {
        WithinSafe(Asking(r, share));
      } else {
        UnguardedCommits(r, share);
      }
    }
    if !Guarded(r) {
      UnguardedCommits(r, 1.0);
      assert Round2(1.0) == 1.0 by { WholeShare(); }
      assert Committed(Asking(r, 1.0)) == Round2(TotalGB(r));
    }
  }

  lemma WholeShare()
    ensures Round2(1.0) == 1.0
  {
    assert 1.0 * 100.0 == 100 as real;
  }

  lemma OnlyTheRequest(r: Readings, share: real)
    ensures Guarded(Asking(r, share)) == Guarded(r) && SafeGB(Asking(r, share)) == SafeGB(r)
  {}

  /** A large machine with nothing free still commits what it was asked for. */
  lemma LargeMachineIsUnclamped(total: real, requested: real)
    requires total >= CLUSTER_GB && 0.01 <= requested <= 1.0
    ensures var r := Readings(total, Some(0.0), None, 0.0, requested);
      !Guarded(r) && SafeGB(r) == 0.0 && Committed(r) > 0.0
  {
    var r := Readings(total, Some(0.0), None, 0.0, requested);
    assert Share(r) == requested;
    AtLeastOne(requested);
    AtLeastOne(total);
    assert Round2(total) * Round2(requested) > 0.0;
  }

  lemma AtLeastOne(x: real)
    requires x >= 0.01
    ensures Round2(x) > 0.0
  {
    assert x * 100.0 >= 1.0;
  }
}
