/** The coordinator's registry of nodes: liveness, the in-flight counters, and the rule that keeps one
  physical cluster from being offered twice under two registrations.

  Times are milliseconds; every call reads the clock once, as its `now`. */
module Registry {
  import opened Wrappers
  import opened Ordering

  const LIVENESS_TTL := 45_000
  const EVICTION_TTL := 300_000

  datatype Model = Model(id: string, quantization: string, loaded: bool)
  datatype Manifest = Manifest(nodeID: string, models: seq<Model>, signature: string, pull: bool,
                               endpoint: string, measuredTPS: Option<real>, price: Option<real>)
  datatype Entry = Entry(manifest: Manifest, lastSeen: int, registeredAt: int, unreachable: bool,
                         inFlight: nat, attested: bool, observedTPS: Option<real>, samples: nat)
  type Entries = map<string, Entry>

  /** What the router sees of a node. */
  datatype NodeWithLoad = NodeWithLoad(manifest: Manifest, inFlight: nat, attested: bool, observedTPS: Option<real>)

  predicate IsLive(e: Entry, now: int) {
    now - e.lastSeen < LIVENESS_TTL && !e.unreachable
  }

  predicate Matches(m: Model, modelID: string, quantization: string) {
    m.id == modelID && (quantization == "" || m.quantization == quantization)
  }

  predicate HasModel(models: seq<Model>, modelID: string, quantization: string) {
    exists i :: 0 <= i < |models| && Matches(models[i], modelID, quantization)
  }

  method ScanModels(models: seq<Model>, modelID: string, quantization: string) returns (found: bool)
    ensures found <==> HasModel(models, modelID, quantization)
  {
    for i := 0 to |models|
      invariant forall j :: 0 <= j < i ==> !Matches(models[j], modelID, quantization)
    {
      if models[i].id != modelID {
        continue;
      }
      if quantization != "" && models[i].quantization != quantization {
        continue;
      }
      return true;
    }
    return false;
  }

  // ---------------------------------------------------------------- one representative per cluster

  predicate LiveMember(es: Entries, now: int, signature: string, id: string) {
    id in es && es[id].manifest.signature == signature && IsLive(es[id], now)
  }

  ghost function LiveMembers(es: Entries, now: int, signature: string): set<string> {
    set id | id in es && LiveMember(es, now, signature, id)
  }

  /** A live member of a cluster is on standby when a live member of it has a lower node ID. */
  ghost predicate OnStandby(es: Entries, now: int, id: string) {
    id in es && es[id].manifest.signature != "" && IsLive(es[id], now) &&
    exists other :: LiveMember(es, now, es[id].manifest.signature, other) && LexLess(other, id)
  }

  /** Speaks for its cluster: live and not on standby. */
  ghost predicate Represents(es: Entries, now: int, signature: string, id: string) {
    LiveMember(es, now, signature, id) && !OnStandby(es, now, id)
  }

  /** Every cluster with a live member has exactly one representative, its lowest live node ID. */
  lemma OneRepresentative(es: Entries, now: int, signature: string)
    requires signature != "" && LiveMembers(es, now, signature) != {}
    ensures forall id :: Represents(es, now, signature, id) <==> id == Least(LiveMembers(es, now, signature))
  {
    var least := Least(LiveMembers(es, now, signature));
    forall id ensures Represents(es, now, signature, id) <==> id == least {
      LexTotal(id, least);
      if id != least && LiveMember(es, now, signature, id) {
        assert id in LiveMembers(es, now, signature);
        assert LiveMember(es, now, signature, least);
      }
      forall other | LiveMember(es, now, signature, other) ensures !LexLess(other, least) {
        assert other in LiveMembers(es, now, signature);
      }
    }
  }

  lemma LeastIs(ids: set<string>, id: string)
    requires id in ids && forall k :: k in ids ==> LexLe(id, k)
    ensures Least(ids) == id
  {
    LexTotal(Least(ids), id);
  }

  /** When the representative stops being live, by whatever change to its own entry, the next lowest
    live member speaks for the cluster at once. */
  lemma NextTakesOver(before: Entries, after: Entries, now: int, later: int, signature: string)
    requires signature != "" && LiveMembers(before, now, signature) != {}
    requires LiveMembers(after, later, signature) ==
      LiveMembers(before, now, signature) - {Least(LiveMembers(before, now, signature))}
    requires LiveMembers(after, later, signature) != {}
    ensures var next := Least(LiveMembers(after, later, signature));
      && Represents(after, later, signature, next) && OnStandby(before, now, next)
      && forall id :: LiveMember(before, now, signature, id) && id != next && LexLess(id, next) ==>
         Represents(before, now, signature, id)
  {
    var members := LiveMembers(before, now, signature);
    var least, next := Least(members), Least(LiveMembers(after, later, signature));
    OneRepresentative(before, now, signature);
    OneRepresentative(after, later, signature);
    assert next in members && least in members;
    assert LiveMember(before, now, signature, next) && LiveMember(before, now, signature, least);
    LexTotal(least, next);
    forall id | LiveMember(before, now, signature, id) && id != next && LexLess(id, next)
      ensures Represents(before, now, signature, id)
    {
      assert id in members;
      assert id != least ==> id in LiveMembers(after, later, signature);
    }
  }

  /** Marking a node unreachable takes it, and nobody else, out of its cluster. */
  lemma MarkingLeavesCluster(es: Entries, now: int, signature: string, id: string)
    ensures LiveMembers(Marked(es, id), now, signature) == LiveMembers(es, now, signature) - {id}
  {
    var after := Marked(es, id);
    forall k ensures k in LiveMembers(after, now, signature) <==> k in LiveMembers(es, now, signature) - {id} {
      if k in es && k != id {
        assert after[k] == es[k];
      }
    }
  }

  // ---------------------------------------------------------------- the candidate list

  ghost predicate Eligible(es: Entries, now: int, modelID: string, quantization: string, id: string) {
    id in es && IsLive(es[id], now) && !OnStandby(es, now, id) && HasModel(es[id].manifest.models, modelID, quantization)
  }

  function WithLoad(e: Entry): NodeWithLoad {
    NodeWithLoad(e.manifest, e.inFlight, e.attested, e.observedTPS)
  }

  /** `out` lists the given nodes, one after the other. */
  ghost predicate Lists(es: Entries, ids: seq<string>, out: seq<NodeWithLoad>) {
    |out| == |ids| && forall i :: 0 <= i < |ids| ==> ids[i] in es && out[i] == WithLoad(es[ids[i]])
  }

  /** `out` lists exactly the eligible nodes, each once. */
  ghost predicate IsCandidateList(es: Entries, now: int, modelID: string, quantization: string,
                                  ids: seq<string>, out: seq<NodeWithLoad>)
  {
    && Distinct(ids) && (forall id :: id in ids <==> Eligible(es, now, modelID, quantization, id))
    && Lists(es, ids, out)
  }

  ghost predicate CandidateList(es: Entries, now: int, modelID: string, quantization: string, out: seq<NodeWithLoad>) {
    exists ids :: IsCandidateList(es, now, modelID, quantization, ids, out)
  }

  /** Who is a candidate: a node seen within 45 seconds and not marked unreachable, that lists the model
    in the quantization asked for, and has no such node with a lower ID in its cluster. Its load and
    attestation are the registry's. */
  lemma CandidateIff(es: Entries, now: int, modelID: string, quantization: string, out: seq<NodeWithLoad>, n: NodeWithLoad)
    requires KeysMatch(es) && CandidateList(es, now, modelID, quantization, out)
    ensures var id := n.manifest.nodeID;
      n in out <==>
        && id in es && n == NodeWithLoad(es[id].manifest, es[id].inFlight, es[id].attested, es[id].observedTPS)
        && now - es[id].lastSeen < 45_000 && !es[id].unreachable
        && (exists i :: 0 <= i < |n.manifest.models| && n.manifest.models[i].id == modelID &&
                        (quantization == "" || n.manifest.models[i].quantization == quantization))
        && (n.manifest.signature == "" ||
            forall k | k in es && es[k].manifest.signature == n.manifest.signature &&
                       now - es[k].lastSeen < 45_000 && !es[k].unreachable :: !LexLess(k, id))
  {
    var ids :| IsCandidateList(es, now, modelID, quantization, ids, out);
    var id := n.manifest.nodeID;
    if id in es {
      if now - es[id].lastSeen < 45_000 && !es[id].unreachable {
        StandbyMeans(es, now, id);
      }
      ModelMeans(es[id].manifest.models, modelID, quantization);
    }
    if n in out {
      var i :| 0 <= i < |out| && out[i] == n;
      assert ids[i] in ids;
    }
    if id in es && n == WithLoad(es[id]) && Eligible(es, now, modelID, quantization, id) {
      assert id in ids;
      var i :| 0 <= i < |ids| && ids[i] == id;
      assert out[i] == n;
    }
    hide HasModel, OnStandby;
  }

  lemma StandbyMeans(es: Entries, now: int, id: string)
    requires id in es && now - es[id].lastSeen < 45_000 && !es[id].unreachable
    ensures var cluster := es[id].manifest.signature;
      !OnStandby(es, now, id) <==>
        (cluster == "" || forall k | k in es && es[k].manifest.signature == cluster &&
                                     now - es[k].lastSeen < 45_000 && !es[k].unreachable :: !LexLess(k, id))
  {
    assert forall k :: LiveMember(es, now, es[id].manifest.signature, k) <==>
      k in es && es[k].manifest.signature == es[id].manifest.signature && now - es[k].lastSeen < 45_000 && !es[k].unreachable;
  }

  lemma ModelMeans(models: seq<Model>, modelID: string, quantization: string)
    ensures HasModel(models, modelID, quantization) <==>
      exists i :: 0 <= i < |models| && models[i].id == modelID && (quantization == "" || models[i].quantization == quantization)
  {
    assert forall i :: 0 <= i < |models| ==> (Matches(models[i], modelID, quantization) <==>
      models[i].id == modelID && (quantization == "" || models[i].quantization == quantization));
  }

  /** No two candidates belong to one cluster, and a cluster is offered exactly when its
    representative has the model: what the standby members have does not count. */
  lemma OneCandidatePerCluster(es: Entries, now: int, modelID: string, quantization: string,
                               out: seq<NodeWithLoad>, signature: string)
    requires CandidateList(es, now, modelID, quantization, out) && signature != ""
    ensures forall i, j :: 0 <= i < j < |out| && out[i].manifest.signature == signature ==>
      out[j].manifest.signature != signature
    ensures (exists i :: 0 <= i < |out| && out[i].manifest.signature == signature) <==>
      LiveMembers(es, now, signature) != {} &&
      HasModel(es[Least(LiveMembers(es, now, signature))].manifest.models, modelID, quantization)
  {
    var ids :| IsCandidateList(es, now, modelID, quantization, ids, out);
    forall i | 0 <= i < |out| && out[i].manifest.signature == signature
      ensures Represents(es, now, signature, ids[i]) && LiveMembers(es, now, signature) != {}
    {
      assert ids[i] in ids && ids[i] in LiveMembers(es, now, signature);
    }
    if LiveMembers(es, now, signature) != {} {
      OneRepresentative(es, now, signature);
      var least := Least(LiveMembers(es, now, signature));
      forall i | 0 <= i < |out| && out[i].manifest.signature == signature ensures ids[i] == least {
        assert Represents(es, now, signature, ids[i]);
      }
      if HasModel(es[least].manifest.models, modelID, quantization) {
        assert Represents(es, now, signature, least);
        assert least in ids;
        var i :| 0 <= i < |ids| && ids[i] == least;
        assert out[i].manifest.signature == signature;
      } else {
        forall i | 0 <= i < |out| ensures out[i].manifest.signature != signature {
          assert ids[i] in ids;
        }
      }
    }
  }

  // ---------------------------------------------------------------- the registry

  /** Entries are filed under their own node IDs. */
  ghost predicate KeysMatch(es: Entries) {
    forall id :: id in es ==> es[id].manifest.nodeID == id
  }

  function Fresh(m: Manifest, now: int): Entry {
    Entry(m, now, now, false, 0, false, None, 0)
  }

  ghost function Evicted(es: Entries, now: int): Entries {
    map id | id in es && now - es[id].lastSeen <= EVICTION_TTL :: es[id]
  }

  datatype Registration = Accepted | WrongID | BadSignature

  class NodeRegistry {
    var entries: Entries

    constructor ()
      ensures entries == map[] && KeysMatch(entries)
    {
      entries := map[];
    }

    /** `derivedID` is the ID the public key determines; `signed` says that the signature is good. */
    method Register(m: Manifest, derivedID: string, signed: bool, now: int) returns (r: Registration)
      modifies this
      ensures r.WrongID? <==> derivedID != m.nodeID
      ensures r.Accepted? <==> derivedID == m.nodeID && signed
      ensures r.Accepted? ==> entries == old(entries)[m.nodeID := Entry(m, now, now, false, 0, false, None, 0)]
      ensures !r.Accepted? ==> entries == old(entries)
      ensures old(KeysMatch(entries)) ==> KeysMatch(entries)
    {
      if derivedID != m.nodeID {
        return WrongID;
      }
      if !signed {
        return BadSignature;
      }
      entries := entries[m.nodeID := Fresh(m, now)];
      r := Accepted;
    }

    /** Nothing checks that the manifest is the node's own: the keys keep matching exactly when it is. */
    method Refresh(nodeID: string, m: Manifest, now: int) returns (ok: bool)
      modifies this
      ensures ok == (nodeID in old(entries))
      ensures entries == if !ok then old(entries)
        else old(entries)[nodeID := old(entries)[nodeID].(manifest := m, lastSeen := now, unreachable := false)]
      ensures ok && old(KeysMatch(entries)) ==> (KeysMatch(entries) <==> m.nodeID == nodeID)
    {
      ok := nodeID in entries;
      if ok {
        entries := entries[nodeID := entries[nodeID].(manifest := m, lastSeen := now, unreachable := false)];
        assert entries[nodeID].manifest.nodeID == m.nodeID;
      }
    }

    method MarkUnreachable(nodeID: string)
      modifies this
      ensures entries == Marked(old(entries), nodeID)
      ensures old(KeysMatch(entries)) ==> KeysMatch(entries)
    {
      if nodeID in entries {
        entries := entries[nodeID := entries[nodeID].(unreachable := true)];
      }
    }

    method MarkSeen(nodeID: string, now: int)
      modifies this
      ensures entries == if nodeID !in old(entries) then old(entries)
        else old(entries)[nodeID := old(entries)[nodeID].(lastSeen := now, unreachable := false)]
      ensures nodeID in entries ==> forall t :: IsLive(entries[nodeID], t) <==> t - now < 45_000
      ensures old(KeysMatch(entries)) ==> KeysMatch(entries)
    {
      if nodeID in entries {
        entries := entries[nodeID := entries[nodeID].(lastSeen := now, unreachable := false)];
      }
    }

    method IncrInFlight(nodeID: string)
      modifies this
      ensures entries == Loaded(old(entries), nodeID, 1)
      ensures old(KeysMatch(entries)) ==> KeysMatch(entries)
    {
      if nodeID in entries {
        entries := entries[nodeID := entries[nodeID].(inFlight := entries[nodeID].inFlight + 1)];
      }
    }

    /** Floors at zero: a node that registered again meanwhile starts from zero. */
    method DecrInFlight(nodeID: string)
      modifies this
      ensures entries == Loaded(old(entries), nodeID, -1)
      ensures old(KeysMatch(entries)) ==> KeysMatch(entries)
    {
      if nodeID !in entries {
        return;
      }
      var n := entries[nodeID].inFlight - 1;
      entries := entries[nodeID := entries[nodeID].(inFlight := if n < 0 then 0 else n)];
    }

    method RecordObservedThroughput(nodeID: string, tokensPerSec: real)
      modifies this
      ensures entries == Observed(old(entries), nodeID, tokensPerSec)
      ensures old(KeysMatch(entries)) ==> KeysMatch(entries)
    {
      if nodeID !in entries || tokensPerSec <= 0.0 {
        assert nodeID in entries ==> entries == entries[nodeID := entries[nodeID]];
        return;
      }
      var e := entries[nodeID];
      if e.observedTPS.None? {
        e := e.(observedTPS := Some(tokensPerSec));
      } else {
        e := e.(observedTPS := Some(e.observedTPS.value * (1.0 - EMA_ALPHA) + tokensPerSec * EMA_ALPHA));
      }
      entries := entries[nodeID := e.(samples := e.samples + 1)];
    }

    /** The periodic sweep, in any order. */
    method RunEviction(now: int)
      modifies this
      ensures entries == Evicted(old(entries), now)
      ensures forall id :: id in entries <==> id in old(entries) && now - old(entries)[id].lastSeen <= 300_000
      ensures forall id :: id in entries ==> entries[id] == old(entries)[id]
      ensures old(KeysMatch(entries)) ==> KeysMatch(entries)
    {
      var left := entries.Keys;
      ghost var start := entries;
      while left != {}
        invariant left <= start.Keys
        invariant entries == map id | id in start && (id in left || now - start[id].lastSeen <= EVICTION_TTL) :: start[id]
        decreases left
      {
        var id :| id in left;
        left := left - {id};
        if now - entries[id].lastSeen > EVICTION_TTL {
          entries := entries - {id};
        }
      }
    }

    /** First loop: the lowest live node ID of every cluster. */
    method LowestLive(now: int) returns (best: map<string, string>)
      ensures forall s :: s in best <==> s != "" && LiveMembers(entries, now, s) != {}
      ensures forall s :: s in best ==> best[s] == Least(LiveMembers(entries, now, s))
    {
      best := map[];
      var left := entries.Keys;
      while left != {}
        invariant left <= entries.Keys
        invariant forall s :: s in best ==> s != "" && LiveMember(entries, now, s, best[s]) && best[s] !in left
        invariant forall s, id :: s != "" && LiveMember(entries, now, s, id) && id !in left ==> s in best && LexLe(best[s], id)
        decreases left
      {
        var id :| id in left;
        left := left - {id};
        var e := entries[id];
        if e.manifest.signature == "" || !IsLive(e, now) {
          continue;
        }
        var sig := e.manifest.signature;
        if sig !in best || LexLess(id, best[sig]) {
          KeepsLowest(best, sig, id);
          best := best[sig := id];
        }
      }
      BestIsLeast(entries, now, best);
    }

    /** `clusterStandbyNodeIDs`, both loops in any order. */
    method ClusterStandbyNodeIDs(now: int) returns (standby: set<string>)
      ensures forall id :: id in standby <==> OnStandby(entries, now, id)
    {
      var best := LowestLive(now);
      standby := {};
      var left := entries.Keys;
      while left != {}
        invariant left <= entries.Keys
        invariant forall id :: id in standby <==> OnStandby(entries, now, id) && id !in left
        decreases left
      {
        var id :| id in left;
        left := left - {id};
        var sig := entries[id].manifest.signature;
        if sig != "" && IsLive(entries[id], now) {
          StandbyTest(entries, now, sig, id);
          if sig in best && best[sig] != id {
            standby := standby + {id};
          }
        }
      }
    }

    method CandidatesWithLoad(modelID: string, quantization: string, now: int)
      returns (out: seq<NodeWithLoad>)
      ensures CandidateList(entries, now, modelID, quantization, out)
    {
      var standby := ClusterStandbyNodeIDs(now);
      out := [];
      ghost var ids: seq<string> := [];
      var left := entries.Keys;
      while left != {}
        invariant left <= entries.Keys && Distinct(ids) && Lists(entries, ids, out)
        invariant forall id :: id in ids <==> Eligible(entries, now, modelID, quantization, id) && id !in left
        decreases left
      {
        var id :| id in left;
        left := left - {id};
        var e := entries[id];
        if !IsLive(e, now) || id in standby {
          continue;
        }
        var has := ScanModels(e.manifest.models, modelID, quantization);
        if !has {
          continue;
        }
        out := out + [WithLoad(e)];
        ids := ids + [id];
      }
      assert IsCandidateList(entries, now, modelID, quantization, ids, out);
    }
  }

  lemma KeepsLowest(best: map<string, string>, sig: string, id: string)
    requires sig !in best || LexLess(id, best[sig])
    ensures forall k :: sig in best && LexLe(best[sig], k) ==> LexLe(id, k)
    ensures LexLe(id, id)
  {
    LexTotal(id, id);
    forall k | sig in best && LexLe(best[sig], k) ensures LexLe(id, k) {
      LexTotal(best[sig], k);
      LexTotal(id, k);
      if LexLess(best[sig], k) {
        LexTransitive(id, best[sig], k);
      }
    }
  }

  lemma BestIsLeast(es: Entries, now: int, best: map<string, string>)
    requires forall s :: s in best ==> s != "" && LiveMember(es, now, s, best[s])
    requires forall s, id :: s != "" && LiveMember(es, now, s, id) ==> s in best && LexLe(best[s], id)
    ensures forall s :: s in best <==> s != "" && LiveMembers(es, now, s) != {}
    ensures forall s :: s in best ==> best[s] == Least(LiveMembers(es, now, s))
  {
    forall s ensures s in best <==> s != "" && LiveMembers(es, now, s) != {} {
      if s in best {
        assert best[s] in LiveMembers(es, now, s);
      }
      assert forall id :: id in LiveMembers(es, now, s) ==> LiveMember(es, now, s, id);
    }
    forall s | s in best ensures best[s] == Least(LiveMembers(es, now, s)) {
      assert best[s] in LiveMembers(es, now, s);
      LeastIs(LiveMembers(es, now, s), best[s]);
    }
  }

  lemma StandbyTest(es: Entries, now: int, signature: string, id: string)
    requires signature != "" && LiveMember(es, now, signature, id)
    ensures LiveMembers(es, now, signature) != {}
    ensures OnStandby(es, now, id) <==> Least(LiveMembers(es, now, signature)) != id
  {
    assert id in LiveMembers(es, now, signature);
    OneRepresentative(es, now, signature);
    assert Represents(es, now, signature, id) <==> !OnStandby(es, now, id);
  }

  ghost function Marked(es: Entries, id: string): Entries {
    if id in es then es[id := es[id].(unreachable := true)] else es
  }

  /** The in-flight counter moved by `change`, never below zero. */
  ghost function Loaded(es: Entries, id: string, change: int): Entries {
    if id !in es then es else
      var n := es[id].inFlight + change;
      es[id := es[id].(inFlight := if n < 0 then 0 else n)]
  }

  /** Marking, loading and measuring touch one field group of the one entry, if it is there: the flag; the
    counter, by one and not below zero; the average, by 0.3 of a positive sample, and the number of
    samples. */
  lemma OneEntryChanges(es: Entries, id: string, k: string, sample: real)
    ensures Marked(es, id).Keys == Loaded(es, id, 1).Keys == Loaded(es, id, -1).Keys == Observed(es, id, sample).Keys == es.Keys
    ensures k in es && k != id ==> Marked(es, id)[k] == Loaded(es, id, 1)[k] == Loaded(es, id, -1)[k] == Observed(es, id, sample)[k] == es[k]
    ensures id in es ==> Marked(es, id)[id] == es[id].(unreachable := true)
    ensures id in es ==> Loaded(es, id, 1)[id] == es[id].(inFlight := es[id].inFlight + 1)
    ensures id in es && es[id].inFlight > 0 ==> Loaded(es, id, -1)[id] == es[id].(inFlight := es[id].inFlight - 1)
    ensures id in es && es[id].inFlight == 0 ==> Loaded(es, id, -1)[id] == es[id]
    ensures id in es && sample <= 0.0 ==> Observed(es, id, sample)[id] == es[id]
    ensures id in es && sample > 0.0 ==>
      var average := if es[id].observedTPS.None? then sample else 0.7 * es[id].observedTPS.value + 0.3 * sample;
      Observed(es, id, sample)[id] == es[id].(observedTPS := Some(average), samples := es[id].samples + 1)
  {
    if id in es && es[id].observedTPS.Some? {
      var v := es[id].observedTPS.value;
      assert v * (1.0 - EMA_ALPHA) + sample * EMA_ALPHA == 0.7 * v + 0.3 * sample;
    }
  }

  /** An increment and the decrement that follows it cancel out. */
  lemma LoadAndUnload(es: Entries, id: string)
    ensures Loaded(Loaded(es, id, 1), id, -1) == es
  {
    if id in es {
      assert Loaded(Loaded(es, id, 1), id, -1)[id] == es[id];
    }
  }

  // 0.3 of the new sample
  const EMA_ALPHA := 0.3

  function Folded(e: Entry, sample: real): Entry {
    if sample <= 0.0 then e
    else if e.observedTPS.None? then e.(observedTPS := Some(sample), samples := e.samples + 1)
    else e.(observedTPS := Some(e.observedTPS.value * (1.0 - EMA_ALPHA) + sample * EMA_ALPHA), samples := e.samples + 1)
  }

  ghost function Observed(es: Entries, id: string, sample: real): Entries {
    if id in es then es[id := Folded(es[id], sample)] else es
  }

  /** The rolling average of accepted samples stays between the least and the greatest of them. */
  lemma AverageStaysInRange(e: Entry, sample: real, lo: real, hi: real)
    requires 0.0 < lo && lo <= sample <= hi
    requires e.observedTPS.Some? ==> lo <= e.observedTPS.value <= hi
    ensures Folded(e, sample).observedTPS.Some? && lo <= Folded(e, sample).observedTPS.value <= hi
  {
    if e.observedTPS.Some? {
      var v := e.observedTPS.value;
      assert v * (1.0 - EMA_ALPHA) + sample * EMA_ALPHA == v * 0.7 + sample * 0.3;
    }
  }

  /** The sweep never removes a live node, so it changes neither the candidates nor the
    representatives: when it last happened cannot be told from the routing. */
  lemma EvictionIsInvisible(es: Entries, swept: int, now: int, id: string, modelID: string, quantization: string)
    requires swept <= now
    ensures OnStandby(Evicted(es, swept), now, id) <==> OnStandby(es, now, id)
    ensures Eligible(Evicted(es, swept), now, modelID, quantization, id) <==> Eligible(es, now, modelID, quantization, id)
  {
    var after := Evicted(es, swept);
    forall s, k ensures LiveMember(after, now, s, k) <==> LiveMember(es, now, s, k) {
      if k in es && IsLive(es[k], now) {
        assert k in after;
      }
    }
    forall k ensures k in after && IsLive(after[k], now) <==> k in es && IsLive(es[k], now) {
      assert k in es ==> (LiveMember(after, now, es[k].manifest.signature, k) <==> LiveMember(es, now, es[k].manifest.signature, k));
    }
  }

  // ---------------------------------------------------------------- cluster signatures

  function Join(ids: seq<string>): string {
    if ids == [] then "" else if |ids| == 1 then ids[0] else ids[0] + "," + Join(ids[1..])
  }

  /** `clusterSignature` up to the digest of the joined text, which `digest` stands for. */
  method ClusterSignature(deviceIDs: seq<string>, digest: string -> string) returns (signature: string)
    ensures exists sorted :: IsSortedListing(sorted, deviceIDs) && signature == digest(Join(sorted))
  {
    LexLeIsTotalPreorder();
    var sorted := SortSlice(deviceIDs, LexLe);
    signature := digest(Join(sorted));
    assert IsSortedListing(sorted, deviceIDs);
  }

  ghost predicate IsSortedListing(sorted: seq<string>, ids: seq<string>) {
    SortedBy(LexLe, sorted) && multiset(sorted) == multiset(ids)
  }

  lemma SameHead(a: seq<string>, b: seq<string>)
    requires SortedBy(LexLe, a) && SortedBy(LexLe, b) && multiset(a) == multiset(b) && a != []
    ensures b != [] && a[0] == b[0]
  {
    SameElements(a, b);
    assert a[0] in b;
    assert b[0] in a;
    LowestFirst(a, b[0]);
    LowestFirst(b, a[0]);
    LexTotal(a[0], b[0]);
  }

  lemma SortedTail(a: seq<string>)
    requires SortedBy(LexLe, a) && a != []
    ensures SortedBy(LexLe, a[1..])
  {
    hide LexLe;
  }

  /** A multiset of strings has one sorted listing, though the sort is not stable. */
  lemma {:induction false} SortedListingUnique(a: seq<string>, b: seq<string>)
    requires SortedBy(LexLe, a) && SortedBy(LexLe, b) && multiset(a) == multiset(b)
    ensures a == b
  {
    assert |a| == |multiset(a)| == |multiset(b)| == |b|;
    if a != [] {
      SameHead(a, b);
      SortedTail(a);
      SortedTail(b);
      hide LexLe, SortedBy;
      RemoveEqual(a, b, 0);
      assert b[..0] + b[1..] == b[1..];
      SortedListingUnique(a[1..], b[1..]);
    }
  }

  lemma LowestFirst(a: seq<string>, x: string)
    requires SortedBy(LexLe, a) && x in a
    ensures a != [] && LexLe(a[0], x)
  {
    var i :| 0 <= i < |a| && a[i] == x;
    LexTotal(x, x);
    assert i > 0 ==> LexLe(a[0], a[i]);
  }

  /** No ID contains the separator of the joined text. */
  predicate Separable(ids: seq<string>) {
    forall id :: id in ids ==> ',' !in id
  }

  lemma SeparatorInside(x: string, y: string, restX: string, restY: string)
    requires |x| < |y| && x + "," + restX == y + "," + restY
    ensures ',' in y
  {
    assert (x + "," + restX)[|x|] == ',';
    assert y[|x|] == (y + "," + restY)[|x|];
  }

  lemma SameFirst(x: string, y: string, restX: string, restY: string)
    requires ',' !in x && ',' !in y && x + "," + restX == y + "," + restY
    ensures x == y && restX == restY
  {
    var s, t := x + "," + restX, y + "," + restY;
    if |x| < |y| {
      SeparatorInside(x, y, restX, restY);
    } else if |y| < |x| {
      SeparatorInside(y, x, restY, restX);
    }
    assert s[..|x|] == x && t[..|y|] == y;
    assert s[|x| + 1..] == restX && t[|y| + 1..] == restY;
  }

  lemma JoinedHasSeparator(ids: seq<string>)
    requires |ids| > 1
    ensures ',' in Join(ids)
  {
    assert Join(ids)[|ids[0]|] == ',';
  }

  /** Without separators in them, IDs can be read back from the joined text. */
  lemma {:induction false} JoinInjective(a: seq<string>, b: seq<string>)
    requires a != [] && b != [] && Separable(a) && Separable(b) && Join(a) == Join(b)
    ensures a == b
  {
    assert a[0] in a && b[0] in b;
    if |a| > 1 && |b| > 1 {
      SameFirst(a[0], b[0], Join(a[1..]), Join(b[1..]));
      JoinInjective(a[1..], b[1..]);
    } else if |a| > 1 {
      JoinedHasSeparator(a);
    } else if |b| > 1 {
      JoinedHasSeparator(b);
    }
  }

  /** Devices hash the same text, in whatever order they list their rings, exactly when they list the
    same IDs, if no ID contains the separator. */
  lemma SignatureIgnoresOrder(a: seq<string>, b: seq<string>, sa: seq<string>, sb: seq<string>)
    requires IsSortedListing(sa, a) && IsSortedListing(sb, b)
    ensures multiset(a) == multiset(b) ==> Join(sa) == Join(sb)
    ensures a != [] && b != [] && Separable(a) && Separable(b) ==> (Join(sa) == Join(sb) <==> multiset(a) == multiset(b))
  {
    if multiset(a) == multiset(b) {
      SortedListingUnique(sa, sb);
    }
    if a != [] && b != [] && Separable(a) && Separable(b) && Join(sa) == Join(sb) {
      SameElements(a, sa);
      SameElements(b, sb);
      assert a[0] in sa && b[0] in sb;
      JoinInjective(sa, sb);
    }
  }

  /** An ID with a separator hashes the same text as the two IDs it consists of. */
  lemma SeparatorMixesIDs(x: string, y: string)
    requires LexLe(x, y)
    ensures IsSortedListing([x, y], [x, y]) && IsSortedListing([x + "," + y], [x + "," + y])
    ensures Join([x + "," + y]) == Join([x, y])
  {
    assert [x, y][1..] == [y];
  }

  /** What a device lists in the `peers` shape: every other device's Exo ID and its own mesh node ID. */
  function PeersShape(ring: multiset<string>, exoID: string, meshID: string): multiset<string> {
    ring - multiset{exoID} + multiset{meshID}
  }

  /** Two devices of a ring list the same IDs in the `peers` shape exactly when the mesh node ID of
    each is its Exo ID. */
  lemma PeersShapeAgreesIff(ring: multiset<string>, exoA: string, meshA: string, exoB: string, meshB: string)
    requires ring[exoA] == 1 && ring[exoB] == 1 && exoA != exoB
    ensures PeersShape(ring, exoA, meshA) == PeersShape(ring, exoB, meshB) <==> meshA == exoA && meshB == exoB
  {
    var a, b := PeersShape(ring, exoA, meshA), PeersShape(ring, exoB, meshB);
    if a == b {
      assert a[exoB] == b[exoB] && a[exoA] == b[exoA];
    } else {
      assert meshA == exoA && meshB == exoB ==> a == ring == b;
    }
  }
}
