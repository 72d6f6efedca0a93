/** Fast-lane routing: who is eligible, in which order nodes are tried, and the dispatch loop.

  Throughputs, scores and prices are real numbers; strings are byte strings. */
module Router {
  import opened Wrappers
  import opened Ordering
  import opened Registry
  import HashRing
  import opened Numerals

  datatype Job = Job(modelID: string, quantization: string, highSensitivity: bool, maxPrice: real)
  datatype Message = Message(role: string, content: string)

  const WINDOW := 3            // powerOfTwoWindow
  const AFFINITY_CHARS := 200  // affinityPrefixChars
  const AFFINITY_LOAD := 4     // affinityMaxInFlight

  // ---------------------------------------------------------------- eligibility and score

  /** The first advertised model that matches decides whether it is loaded. */
  function IsLoaded(models: seq<Model>, modelID: string, quantization: string): bool {
    models != [] && (if Matches(models[0], modelID, quantization) then models[0].loaded
                     else IsLoaded(models[1..], modelID, quantization))
  }

  predicate Eligible(n: NodeWithLoad, job: Job) {
    && (job.highSensitivity ==> n.attested)
    && HasModel(n.manifest.models, job.modelID, job.quantization)
    && IsLoaded(n.manifest.models, job.modelID, job.quantization)
    && (job.maxPrice > 0.0 && n.manifest.price.Some? ==> n.manifest.price.value <= job.maxPrice)
  }

  /** The coordinator's own measurement replaces the node's claim once there is one. */
  function Throughput(n: NodeWithLoad): real {
    if n.observedTPS.Some? then n.observedTPS.value
    else if n.manifest.measuredTPS.Some? then n.manifest.measuredTPS.value
    else 1.0
  }

  function Score(n: NodeWithLoad): real {
    Throughput(n) / (1.0 + n.inFlight as real * 0.5)
  }

  function EffectiveManifest(n: NodeWithLoad): Manifest {
    if n.observedTPS.None? then n.manifest else n.manifest.(measuredTPS := n.observedTPS)
  }

  /** The first entry for the model, in the quantization asked for if any, is loaded. */
  lemma {:induction false} LoadedIff(models: seq<Model>, modelID: string, quantization: string)
    ensures IsLoaded(models, modelID, quantization) <==>
      exists i :: 0 <= i < |models| && models[i].loaded && FirstMatch(models, modelID, quantization, i)
    ensures IsLoaded(models, modelID, quantization) ==> HasModel(models, modelID, quantization)
  {
    if models != [] {
      LoadedIff(models[1..], modelID, quantization);
      var rest := models[1..];
      if Matches(models[0], modelID, quantization) {
        assert FirstMatch(models, modelID, quantization, 0);
      } else {
        forall i | 0 < i < |models| ensures FirstMatch(models, modelID, quantization, i) <==> FirstMatch(rest, modelID, quantization, i - 1) {
          assert FirstMatch(rest, modelID, quantization, i - 1) ==>
            forall j :: 0 < j < i ==> rest[j - 1] == models[j];
        }
        if i :| 0 <= i < |rest| && rest[i].loaded && FirstMatch(rest, modelID, quantization, i) {
          assert models[i + 1].loaded && FirstMatch(models, modelID, quantization, i + 1);
        }
      }
    }
  }

  predicate FirstMatch(models: seq<Model>, modelID: string, quantization: string, i: nat)
    requires i < |models|
  {
    && models[i].id == modelID && (quantization == "" || models[i].quantization == quantization)
    && forall j :: 0 <= j < i ==> !(models[j].id == modelID && (quantization == "" || models[j].quantization == quantization))
  }

  /** What the job asks of a node: attestation for high sensitivity, the model loaded, and no more than
    the price it offers, if it names one and the node asks for one. */
  lemma EligibleIff(n: NodeWithLoad, job: Job)
    ensures Eligible(n, job) <==>
      && (!job.highSensitivity || n.attested)
      && (exists i :: 0 <= i < |n.manifest.models| && n.manifest.models[i].loaded &&
                      FirstMatch(n.manifest.models, job.modelID, job.quantization, i))
      && (job.maxPrice <= 0.0 || n.manifest.price.None? || n.manifest.price.value <= job.maxPrice)
  {
    LoadedIff(n.manifest.models, job.modelID, job.quantization);
  }

  /** The score is the measured throughput, else the claimed one, else 1, over half the load and one. */
  lemma ScoreMeans(n: NodeWithLoad)
    ensures n.observedTPS.Some? ==> Score(n) * (1.0 + 0.5 * n.inFlight as real) == n.observedTPS.value
    ensures n.observedTPS.None? && n.manifest.measuredTPS.Some? ==>
      Score(n) * (1.0 + 0.5 * n.inFlight as real) == n.manifest.measuredTPS.value
    ensures n.observedTPS.None? && n.manifest.measuredTPS.None? ==> Score(n) * (1.0 + 0.5 * n.inFlight as real) == 1.0
  {
    QuotientTimes(Throughput(n), 1.0 + n.inFlight as real * 0.5);
  }

  lemma QuotientTimes(t: real, x: real)
    requires x > 0.0
    ensures t / x * x == t
  {}

  /** `ScoreForFastLane`; None is the score minus infinity. */
  method ScoreForFastLane(m: Manifest, job: Job, inFlight: nat, attested: bool) returns (s: Option<real>)
    ensures s.Some? <==>
      && (!job.highSensitivity || attested)
      && (exists i :: 0 <= i < |m.models| && m.models[i].loaded && FirstMatch(m.models, job.modelID, job.quantization, i))
      && (job.maxPrice <= 0.0 || m.price.None? || m.price.value <= job.maxPrice)
    ensures s.Some? ==> s.value * (1.0 + 0.5 * inFlight as real) == if m.measuredTPS.Some? then m.measuredTPS.value else 1.0
    ensures forall n: NodeWithLoad :: EffectiveManifest(n) == m && n.inFlight == inFlight && n.attested == attested ==>
      s == if Eligible(n, job) then Some(Score(n)) else None
  {
    LoadedIff(m.models, job.modelID, job.quantization);
    hide FirstMatch;
    if job.highSensitivity && !attested {
      return None;
    }
    var has := ScanModels(m.models, job.modelID, job.quantization);
    if !has {
      return None;
    }
    if !IsLoaded(m.models, job.modelID, job.quantization) {
      return None;
    }
    if job.maxPrice > 0.0 {
      if m.price.Some? && m.price.value > job.maxPrice {
        return None;
      }
    }
    var base := 1.0;
    if m.measuredTPS.Some? {
      base := m.measuredTPS.value;
    }
    s := Some(base / (1.0 + inFlight as real * 0.5));
    QuotientTimes(base, 1.0 + inFlight as real * 0.5);
  }

  /** A node's rank counts the coordinator's own measurement before the node's claim. */
  lemma EffectiveThroughput(n: NodeWithLoad)
    ensures EffectiveManifest(n).models == n.manifest.models && EffectiveManifest(n).price == n.manifest.price
    ensures EffectiveManifest(n).measuredTPS == if n.observedTPS.Some? then n.observedTPS else n.manifest.measuredTPS
  {}

  /** More load never helps: among equally fast nodes the less loaded one scores at least as high. */
  lemma LoadLowersScore(a: NodeWithLoad, b: NodeWithLoad)
    requires Throughput(a) == Throughput(b) > 0.0 && a.inFlight < b.inFlight
    ensures Score(a) > Score(b) > 0.0
  {
    var x, y := 1.0 + a.inFlight as real * 0.5, 1.0 + b.inFlight as real * 0.5;
    Quotients(Throughput(a), x, y);
  }

  lemma Quotients(t: real, x: real, y: real)
    requires t > 0.0 && 0.0 < x < y
    ensures t / x > t / y > 0.0
  {
    var q, r := t / x, t / y;
    assert q * x == t && r * y == t;
    PositiveFactor(r, y);
    assert r * (y - x) > 0.0;
    assert (q - r) * x == r * (y - x);
    PositiveFactor(q - r, x);
  }

  lemma PositiveFactor(a: real, x: real)
    requires x > 0.0 && a * x > 0.0
    ensures a > 0.0
  {}

  // ---------------------------------------------------------------- the affinity key

  function SystemText(messages: seq<Message>): string {
    if messages == [] then "" else
      var m, rest := messages[|messages| - 1], SystemText(messages[..|messages| - 1]);
      if m.role == "system" then rest + m.content else rest
  }

  function Prefix(messages: seq<Message>): string {
    if SystemText(messages) != "" then SystemText(messages)
    else if messages != [] then messages[0].content
    else ""
  }

  function AffinityKey(job: Job, messages: seq<Message>): string {
    var prefix := Prefix(messages);
    if prefix == "" then "" else
      job.modelID + "\0" + (if |prefix| > AFFINITY_CHARS then prefix[..AFFINITY_CHARS] else prefix)
  }

  method PromptAffinityKey(job: Job, messages: seq<Message>) returns (key: string)
    ensures key == AffinityKey(job, messages)
  {
    var prefix := "";
    for i := 0 to |messages|
      invariant prefix == SystemText(messages[..i])
    {
      assert messages[..i + 1][..i] == messages[..i];
      if messages[i].role == "system" && messages[i].content != "" {
        prefix := prefix + messages[i].content;
      }
    }
    assert messages[..|messages|] == messages;
    if prefix == "" && |messages| > 0 && messages[0].content != "" {
      prefix := messages[0].content;
    }
    if prefix == "" {
      return "";
    }
    if |prefix| > AFFINITY_CHARS {
      prefix := prefix[..AFFINITY_CHARS];
    }
    key := job.modelID + "\0" + prefix;
  }

  lemma {:induction false} SystemTextAppend(a: seq<Message>, b: seq<Message>)
    ensures SystemText(a + b) == SystemText(a) + SystemText(b)
  {
    if b == [] {
      assert a + b == a;
    } else {
      var init, last := b[..|b| - 1], b[|b| - 1];
      SystemTextAppend(a, init);
      OneMore(init, last);
      OneMore(a + init, last);
      assert b == init + [last] && a + b == a + init + [last];
      hide SystemText;
    }
  }

  lemma OneMore(messages: seq<Message>, m: Message)
    ensures SystemText(messages + [m]) == SystemText(messages) + if m.role == "system" then m.content else ""
  {
    assert (messages + [m])[..|messages|] == messages;
  }

  /** Conversations that share a model and a long enough system block share the key, whatever else is
    said in them. */
  lemma SharedPrefixSharesKey(job: Job, other: Job, system: seq<Message>, a: seq<Message>, b: seq<Message>)
    requires job.modelID == other.modelID && |SystemText(system)| >= AFFINITY_CHARS
    ensures AffinityKey(job, system + a) == AffinityKey(other, system + b) != ""
  {
    SystemTextAppend(system, a);
    SystemTextAppend(system, b);
    TakeOfLonger(SystemText(system), SystemText(a));
    TakeOfLonger(SystemText(system), SystemText(b));
    hide SystemText;
  }

  /** What the key is made of: the model, and up to 200 bytes of the contents of the system messages one
    after the other, or without any of the first message's content. */
  lemma KeyMeans(job: Job, messages: seq<Message>, m: Message)
    ensures SystemText([]) == "" && SystemText(messages + [m]) == SystemText(messages) + if m.role == "system" then m.content else ""
    ensures var text := if SystemText(messages) != "" then SystemText(messages) else if messages != [] then messages[0].content else "";
      && (text == "" ==> AffinityKey(job, messages) == "")
      && (text != "" ==> AffinityKey(job, messages) == job.modelID + "\0" + if |text| > 200 then text[..200] else text)
  {
    OneMore(messages, m);
  }

  lemma TakeOfLonger(text: string, more: string)
    requires |text| >= AFFINITY_CHARS
    ensures (text + more)[..AFFINITY_CHARS] == text[..AFFINITY_CHARS]
  {}

  // ---------------------------------------------------------------- ranking

  datatype Scored = Scored(score: real, node: NodeWithLoad)

  predicate BestFirst(a: Scored, b: Scored) { a.score >= b.score }

  function Filter(candidates: seq<NodeWithLoad>, job: Job): seq<Scored> {
    if candidates == [] then [] else
      var n, rest := candidates[|candidates| - 1], Filter(candidates[..|candidates| - 1], job);
      if Eligible(n, job) then rest + [Scored(Score(n), n)] else rest
  }

  function Nodes(s: seq<Scored>): (r: seq<NodeWithLoad>)
    ensures |r| == |s| && forall i :: 0 <= i < |s| ==> r[i] == s[i].node
  {
    seq(|s|, i requires 0 <= i < |s| => s[i].node)
  }

  /** `out` lists the eligible nodes best first, but for the node at position k, which has changed
    places with the first. */
  ghost predicate RankedWith(out: seq<NodeWithLoad>, candidates: seq<NodeWithLoad>, job: Job, best: seq<Scored>, k: nat) {
    && multiset(best) == multiset(Filter(candidates, job)) && SortedBy(BestFirst, best)
    && (if best == [] then out == [] else k < |best| && out == Nodes(Swap(best, 0, k)))
  }

  /** Why that node: it is the affinity node, or the better of two among the first three. */
  ghost predicate PickedBy(h: HashRing.Hash, best: seq<Scored>, k: nat, job: Job, messages: seq<Message>) {
    AffinityPick(h, best, k, job, messages) || LoadPick(best, k)
  }

  ghost predicate AffinityPick(h: HashRing.Hash, best: seq<Scored>, k: nat, job: Job, messages: seq<Message>) {
    && AffinityKey(job, messages) != "" && k < |best| && 2 <= |best|
    && HashRing.Owns(h, Members(best), AffinityKey(job, messages), best[k].node.manifest.nodeID)
    && FirstOfItsID(best, k) && best[k].node.inFlight <= AFFINITY_LOAD
  }

  predicate FirstOfItsID(best: seq<Scored>, k: nat)
    requires k < |best|
  {
    forall j :: 0 <= j < k ==> best[j].node.manifest.nodeID != best[k].node.manifest.nodeID
  }

  ghost predicate LoadPick(best: seq<Scored>, k: nat) {
    if |best| < 2 then k == 0 else k < |best| && k < WINDOW && best[k].score >= best[1].score
  }

  ghost function Members(best: seq<Scored>): set<string> {
    set i | 0 <= i < |best| :: best[i].node.manifest.nodeID
  }

  /** Affinity is passed over only without a key, with fewer than two nodes, or when the first node
    under the owner's ID is too busy. */
  ghost predicate Declined(h: HashRing.Hash, best: seq<Scored>, job: Job, messages: seq<Message>) {
    AffinityKey(job, messages) == "" || |best| < 2 ||
    exists k :: 0 <= k < |best| && best[k].node.inFlight > AFFINITY_LOAD && FirstOfItsID(best, k) &&
      HashRing.Owns(h, Members(best), AffinityKey(job, messages), best[k].node.manifest.nodeID)
  }

  method PromoteAffinityNode(ranked: seq<Scored>, job: Job, messages: seq<Message>, h: HashRing.Hash)
    returns (promoted: bool, k: nat)
    ensures promoted ==> AffinityPick(h, ranked, k, job, messages)
    ensures !promoted ==> Declined(h, ranked, job, messages)
  {
    k := 0;
    var key := PromptAffinityKey(job, messages);
    if key == "" || |ranked| < 2 {
      return false, 0;
    }
    var members: seq<string> := [];
    for i := 0 to |ranked|
      invariant |members| == i && forall j :: 0 <= j < i ==> members[j] == ranked[j].node.manifest.nodeID
    {
      members := members + [ranked[i].node.manifest.nodeID];
    }
    var preferred := PreferredMember(members, key, h);
    SameMembers(ranked, members);
    for i := 0 to |ranked|
      invariant forall j :: 0 <= j < i ==> ranked[j].node.manifest.nodeID != preferred
    {
      if ranked[i].node.manifest.nodeID != preferred {
        continue;
      }
      if ranked[i].node.inFlight > AFFINITY_LOAD {
        return false, 0;
      }
      return true, i;
    }
    assert false;
  }

  lemma SameMembers(ranked: seq<Scored>, members: seq<string>)
    requires |members| == |ranked| && forall j :: 0 <= j < |ranked| ==> members[j] == ranked[j].node.manifest.nodeID
    ensures HashRing.Members(members) == Members(ranked)
  {
    forall m ensures m in HashRing.Members(members) <==> m in Members(ranked) {
      if m in members {
        var j :| 0 <= j < |members| && members[j] == m;
        assert ranked[j].node.manifest.nodeID == m;
      }
      if m in Members(ranked) {
        var j :| 0 <= j < |ranked| && ranked[j].node.manifest.nodeID == m;
        assert members[j] == m;
      }
    }
  }

  method PreferredMember(members: seq<string>, key: string, h: HashRing.Hash) returns (preferred: string)
    requires members != []
    ensures HashRing.Owns(h, HashRing.Members(members), key, preferred) && preferred in members
  {
    var points := HashRing.NewHashRing(members, h);
    var got := HashRing.Get(points, key, h);
    preferred := got.value;
    HashRing.LookupIsOwner(h, HashRing.Members(members), points, key);
    assert preferred == HashRing.Answer(points, h(key));
  }

  /** Two distinct positions below n, each pair possible. */
  method TwoRandomDistinctIndices(n: nat) returns (i: nat, j: nat)
    requires n > 1
    ensures i < n && j < n && i != j
  {
    i :| 0 <= i < n;
    j :| 0 <= j < n - 1;
    if j >= i {
      j := j + 1;
    }
  }

  ghost predicate RankedBy(out: seq<NodeWithLoad>, candidates: seq<NodeWithLoad>, job: Job, messages: seq<Message>,
                           h: HashRing.Hash, best: seq<Scored>, k: nat)
  {
    && RankedWith(out, candidates, job, best, k)
    && PickedBy(h, best, k, job, messages)
    && (!AffinityPick(h, best, k, job, messages) ==> Declined(h, best, job, messages))
  }

  /** The eligible nodes best first, but for the one swap that affinity or load decides. */
  ghost predicate IsRanking(out: seq<NodeWithLoad>, candidates: seq<NodeWithLoad>, job: Job, messages: seq<Message>,
                            h: HashRing.Hash)
  {
    exists best, k :: RankedBy(out, candidates, job, messages, h, best, k)
  }

  method RankCandidates(candidates: seq<NodeWithLoad>, job: Job, messages: seq<Message>, h: HashRing.Hash)
    returns (out: seq<NodeWithLoad>)
    ensures IsRanking(out, candidates, job, messages, h)
  {
    hide HashRing.Owns, Eligible, AffinityKey;
    var scored := ScoreAll(candidates, job);
    var ranked := SortSlice(scored, BestFirst);
    ghost var best := ranked;
    var promoted, at := PromoteAffinityNode(ranked, job, messages, h);
    if !promoted && |ranked| > 1 {
      at := ChooseOfTwo(ranked);
    } else if !promoted {
      at := 0;
    }
    if |ranked| > 0 {
      ranked := Swap(ranked, 0, at);
    }
    out := Nodes(ranked);
    assert RankedBy(out, candidates, job, messages, h, best, at);
  }

  /** Scores every candidate and keeps the eligible ones. */
  method ScoreAll(candidates: seq<NodeWithLoad>, job: Job) returns (scored: seq<Scored>)
    ensures scored == Filter(candidates, job)
  {
    scored := [];
    for i := 0 to |candidates|
      invariant scored == Filter(candidates[..i], job)
    {
      assert candidates[..i + 1][..i] == candidates[..i];
      var n := candidates[i];
      var s := ScoreForFastLane(EffectiveManifest(n), job, n.inFlight, n.attested);
      if s.Some? {
        scored := scored + [Scored(s.value, n)];
      }
    }
    assert candidates[..|candidates|] == candidates;
  }

  /** Power of two choices among the first three. */
  method ChooseOfTwo(ranked: seq<Scored>) returns (winner: nat)
    requires |ranked| > 1 && SortedBy(BestFirst, ranked)
    ensures LoadPick(ranked, winner)
  {
    var window := if |ranked| < WINDOW then |ranked| else WINDOW;
    var i, j := TwoRandomDistinctIndices(window);
    winner := i;
    if ranked[j].score > ranked[i].score {
      winner := j;
    }
    assert forall m :: 0 <= m <= 1 ==> ranked[m].score >= ranked[1].score by {
      assert BestFirst(ranked[0], ranked[1]);
    }
    assert i > 1 ==> j <= 1;
  }

  // What a ranking means

  lemma {:induction false} FilterHolds(candidates: seq<NodeWithLoad>, job: Job)
    ensures multiset(Nodes(Filter(candidates, job))) <= multiset(candidates)
    ensures forall s :: s in Filter(candidates, job) <==>
      s.node in candidates && Eligible(s.node, job) && s.score == Score(s.node)
  {
    if candidates != [] {
      var n, init := candidates[|candidates| - 1], candidates[..|candidates| - 1];
      FilterHolds(init, job);
      assert candidates == init + [n];
      if Eligible(n, job) {
        assert Nodes(Filter(candidates, job)) == Nodes(Filter(init, job)) + [n];
      }
    }
  }

  /** Every eligible candidate is ranked, and nothing else. */
  lemma RankedAreTheEligible(out: seq<NodeWithLoad>, candidates: seq<NodeWithLoad>, job: Job, best: seq<Scored>, k: nat)
    requires RankedWith(out, candidates, job, best, k)
    ensures forall n :: n in out <==> n in candidates && Eligible(n, job)
  {
    FilterHolds(candidates, job);
    SameElements(best, Filter(candidates, job));
    var ranked := if best == [] then best else Swap(best, 0, k);
    if best != [] {
      SwapPermutes(best, 0, k);
    }
    forall n ensures n in out <==> n in candidates && Eligible(n, job) {
      if n in out {
        var i :| 0 <= i < |out| && out[i] == n;
        assert ranked[i] in best;
      }
      if n in candidates && Eligible(n, job) {
        assert Scored(Score(n), n) in best;
        assert Scored(Score(n), n) in ranked;
        var i :| 0 <= i < |ranked| && ranked[i] == Scored(Score(n), n);
        assert out[i] == n;
      }
    }
  }

  /** A ranking by its nodes: best first but for one that has changed places with the head. It owns the
    key among them and has at most four jobs in flight; or it was among the first three, and no worse than
    the second, and there is no key, nobody else, or an owner with more jobs in flight. */
  lemma RankingMeans(out: seq<NodeWithLoad>, candidates: seq<NodeWithLoad>, job: Job, messages: seq<Message>, h: HashRing.Hash)
    returns (k: nat)
    requires IsRanking(out, candidates, job, messages, h) && out != []
    ensures k < |out| && forall i, j :: 0 <= i < j < |out| ==> Score(Swap(out, 0, k)[i]) >= Score(Swap(out, 0, k)[j])
    ensures var key, ids := AffinityKey(job, messages), set n | n in out :: n.manifest.nodeID;
      || (key != "" && out[0].inFlight <= 4 && HashRing.Owns(h, ids, key, out[0].manifest.nodeID))
      || (&& (if |out| == 1 then k == 0 else k < 3 && Score(out[0]) >= Score(Swap(out, 0, k)[1]))
          && (key == "" || |out| == 1 ||
              exists n | n in out && n.inFlight > 4 :: HashRing.Owns(h, ids, key, n.manifest.nodeID)))
    ensures forall n :: n in out <==> n in candidates && Eligible(n, job)
  {
    var best: seq<Scored>;
    best, k :| RankedBy(out, candidates, job, messages, h, best, k);
    RankedAreTheEligible(out, candidates, job, best, k);
    UnscoredRanking(out, candidates, job, best, k);
    hide Score, Eligible, AffinityKey, HashRing.Owns, RankedWith, Members;
    var back := Swap(out, 0, k);
    assert |best| >= 2 ==> Score(back[1]) == best[1].score;
  }

  lemma UnscoredRanking(out: seq<NodeWithLoad>, candidates: seq<NodeWithLoad>, job: Job, best: seq<Scored>, k: nat)
    requires RankedWith(out, candidates, job, best, k) && out != []
    ensures k < |out| == |best| && Members(best) == set n | n in out :: n.manifest.nodeID
    ensures var back := Swap(out, 0, k);
      && (forall i :: 0 <= i < |out| ==> back[i] == best[i].node && back[i] in out && Score(back[i]) == best[i].score)
      && (forall i, j :: 0 <= i < j < |out| ==> Score(back[i]) >= Score(back[j]))
    ensures out[0] == best[k].node
  {
    FilterHolds(candidates, job);
    SameElements(best, Filter(candidates, job));
    var back := Swap(out, 0, k);
    forall i | 0 <= i < |out| ensures back[i] == best[i].node && Score(back[i]) == best[i].score {
      assert best[i] in best;
    }
    forall i, j | 0 <= i < j < |out| ensures Score(back[i]) >= Score(back[j]) {
      assert BestFirst(best[i], best[j]);
    }
    SwapPermutes(out, 0, k);
    SameMembersRanked(back, best, out);
    hide Score, Eligible, Filter;
  }

  lemma SameMembersRanked(back: seq<NodeWithLoad>, best: seq<Scored>, out: seq<NodeWithLoad>)
    requires |back| == |best| && forall i :: 0 <= i < |best| ==> back[i] == best[i].node
    requires forall n :: n in back <==> n in out
    ensures Members(best) == set n | n in out :: n.manifest.nodeID
  {
    forall m ensures m in Members(best) <==> exists n :: n in out && n.manifest.nodeID == m {
      if m in Members(best) {
        var i :| 0 <= i < |best| && best[i].node.manifest.nodeID == m;
        assert back[i] in back;
      }
      if n :| n in out && n.manifest.nodeID == m {
        var i :| 0 <= i < |back| && back[i] == n;
        assert best[i].node.manifest.nodeID == m;
      }
    }
  }

  /** Different nodes have different IDs. */
  ghost predicate DistinctNodes(s: seq<NodeWithLoad>) {
    forall i, j :: 0 <= i < j < |s| ==> s[i].manifest.nodeID != s[j].manifest.nodeID
  }

  ghost predicate DistinctScored(s: seq<Scored>) {
    forall i, j :: 0 <= i < j < |s| ==> s[i].node.manifest.nodeID != s[j].node.manifest.nodeID
  }

  lemma {:induction false} FilterKeepsDistinct(candidates: seq<NodeWithLoad>, job: Job)
    requires DistinctNodes(candidates)
    ensures DistinctScored(Filter(candidates, job))
  {
    if candidates != [] {
      var n, init := candidates[|candidates| - 1], candidates[..|candidates| - 1];
      FilterKeepsDistinct(init, job);
      FilterHolds(init, job);
      var rest := Filter(init, job);
      forall i | 0 <= i < |rest| ensures rest[i].node.manifest.nodeID != n.manifest.nodeID {
        assert rest[i] in rest;
        var j :| 0 <= j < |init| && init[j] == rest[i].node;
        assert candidates[j] == rest[i].node;
      }
    }
  }

  lemma PermutationKeepsDistinct(a: seq<Scored>, b: seq<Scored>)
    requires multiset(a) == multiset(b) && DistinctScored(a)
    ensures DistinctScored(b)
  {
    SameElements(a, b);
    assert Distinct(a);
    DistinctPermutation(a, b);
    forall i, j | 0 <= i < j < |b| ensures b[i].node.manifest.nodeID != b[j].node.manifest.nodeID {
      assert b[i] in a && b[j] in a;
      var p :| 0 <= p < |a| && a[p] == b[i];
      var q :| 0 <= q < |a| && a[q] == b[j];
      assert p != q;
    }
  }

  /** Every eligible candidate is ranked exactly once. */
  lemma RankedOnce(out: seq<NodeWithLoad>, candidates: seq<NodeWithLoad>, job: Job, best: seq<Scored>, k: nat)
    requires RankedWith(out, candidates, job, best, k) && DistinctNodes(candidates)
    ensures DistinctNodes(out)
  {
    FilterKeepsDistinct(candidates, job);
    PermutationKeepsDistinct(Filter(candidates, job), best);
    if best != [] {
      SwapPermutes(best, 0, k);
      PermutationKeepsDistinct(best, Swap(best, 0, k));
    }
  }

  /** Without an affinity match the first node scores at least as high as the second-best one. */
  lemma HeadAtLeastSecond(out: seq<NodeWithLoad>, candidates: seq<NodeWithLoad>, job: Job, best: seq<Scored>, k: nat)
    requires RankedWith(out, candidates, job, best, k) && LoadPick(best, k) && |best| >= 2
    ensures Score(out[0]) >= best[1].score == Score(best[1].node)
    ensures forall i :: 1 <= i < |best| ==> best[1].score >= best[i].score
  {
    FilterHolds(candidates, job);
    SameElements(best, Filter(candidates, job));
    assert best[k] in best && best[1] in best;
    forall i | 1 <= i < |best| ensures best[1].score >= best[i].score {
      assert i > 1 ==> BestFirst(best[1], best[i]);
    }
  }

  /** After the swap the rest of a best-first list is still best first exactly when the promoted node was
    best or second best, or everything ahead of it scored the same. */
  lemma SwapKeepsTailIff(best: seq<Scored>, k: nat)
    requires SortedBy(BestFirst, best) && k < |best|
    ensures SortedBy(BestFirst, Swap(best, 0, k)[1..]) <==> k <= 1 || best[k - 1].score == best[0].score
  {
    var tail := Swap(best, 0, k)[1..];
    if k <= 1 || best[k - 1].score == best[0].score {
      forall i, j | 0 <= i < j < |tail| ensures BestFirst(tail[i], tail[j]) {
        assert BestFirst(best[i + 1], best[j + 1]);
        assert BestFirst(best[0], best[i + 1]);
        assert i + 1 < k ==> k - 1 > i + 1 ==> BestFirst(best[i + 1], best[k - 1]);
        assert BestFirst(best[0], best[j + 1]);
      }
    } else {
      assert tail[k - 2] == best[k - 1] && tail[k - 1] == best[0];
      assert BestFirst(best[0], best[k - 1]);
    }
  }

  /** The nodes after the first are in best-first order, as the program's comment says. */
  ghost predicate FallbackBestFirst(out: seq<NodeWithLoad>) {
    forall i, j :: 1 <= i < j < |out| ==> Score(out[i]) >= Score(out[j])
  }

  /** The node at position k would be promoted past a node that is worse than the best one. */
  ghost predicate Overtakes(candidates: seq<NodeWithLoad>, job: Job, best: seq<Scored>, k: nat) {
    && multiset(best) == multiset(Filter(candidates, job)) && SortedBy(BestFirst, best)
    && 2 <= k < |best| && best[k - 1].score < best[0].score
  }

  /** Under a given hash it is the affinity node, or affinity is declined and it ties for second place in
    the window. */
  ghost predicate UpsetsUnder(h: HashRing.Hash, candidates: seq<NodeWithLoad>, job: Job, messages: seq<Message>,
                              best: seq<Scored>, k: nat)
  {
    Overtakes(candidates, job, best, k) &&
    (AffinityPick(h, best, k, job, messages) || (Declined(h, best, job, messages) && LoadPick(best, k)))
  }

  /** Under some hash: it is not too busy for affinity, or it ties for second place in the window. */
  ghost predicate Upsets(candidates: seq<NodeWithLoad>, job: Job, messages: seq<Message>, best: seq<Scored>, k: nat) {
    Overtakes(candidates, job, best, k) &&
    ((AffinityKey(job, messages) != "" && best[k].node.inFlight <= AFFINITY_LOAD) || LoadPick(best, k))
  }

  ghost predicate BreaksOrder(out: seq<NodeWithLoad>, candidates: seq<NodeWithLoad>, job: Job, messages: seq<Message>,
                              h: HashRing.Hash)
  {
    IsRanking(out, candidates, job, messages, h) && !FallbackBestFirst(out)
  }

  /** With a given hash the fallback order can be broken, by some random pick and order of ties, exactly
    when the affinity node, or without one the third node by its tie with the second, overtakes. */
  lemma FallbackOrderIff(h: HashRing.Hash, candidates: seq<NodeWithLoad>, job: Job, messages: seq<Message>)
    ensures (exists out :: BreaksOrder(out, candidates, job, messages, h))
       <==> (exists best, k :: UpsetsUnder(h, candidates, job, messages, best, k))
  {
    hide BreaksOrder, UpsetsUnder;
    forall out | BreaksOrder(out, candidates, job, messages, h)
      ensures exists best, k :: UpsetsUnder(h, candidates, job, messages, best, k)
    {
      var best, k := BrokenByUpset(out, candidates, job, messages, h);
    }
    forall best, k | UpsetsUnder(h, candidates, job, messages, best, k)
      ensures exists out :: BreaksOrder(out, candidates, job, messages, h)
    {
      var out := UpsetBreaks(h, candidates, job, messages, best, k);
    }
  }

  /** Whether some hash allows it depends only on the eligible nodes' scores and loads and on there being a
    key. */
  lemma FallbackOrderForSomeHashIff(candidates: seq<NodeWithLoad>, job: Job, messages: seq<Message>)
    requires DistinctNodes(candidates)
    ensures (exists out, h :: BreaksOrder(out, candidates, job, messages, h))
       <==> (exists best, k :: Upsets(candidates, job, messages, best, k))
  {
    hide BreaksOrder, Upsets, UpsetsUnder;
    forall out, h | BreaksOrder(out, candidates, job, messages, h)
      ensures exists best, k :: Upsets(candidates, job, messages, best, k)
    {
      var best, k := BrokenByUpset(out, candidates, job, messages, h);
      UnderIsSome(h, candidates, job, messages, best, k);
    }
    forall best, k | Upsets(candidates, job, messages, best, k)
      ensures exists out, h :: BreaksOrder(out, candidates, job, messages, h)
    {
      var h := SomeIsUnder(candidates, job, messages, best, k);
      var out := UpsetBreaks(h, candidates, job, messages, best, k);
    }
  }

  lemma UnderIsSome(h: HashRing.Hash, candidates: seq<NodeWithLoad>, job: Job, messages: seq<Message>, best: seq<Scored>, k: nat)
    requires UpsetsUnder(h, candidates, job, messages, best, k)
    ensures Upsets(candidates, job, messages, best, k)
  {
    hide Filter, AffinityKey, HashRing.Owns, Declined;
  }

  lemma ScoresOfRanked(out: seq<NodeWithLoad>, candidates: seq<NodeWithLoad>, job: Job, best: seq<Scored>, k: nat)
    requires RankedWith(out, candidates, job, best, k) && best != []
    ensures |out| == |best| && k < |best| && |Swap(best, 0, k)| == |best|
    ensures forall i :: 0 <= i < |out| ==> Score(out[i]) == Swap(best, 0, k)[i].score
  {
    hide Score, Eligible, Filter;
    var all := Swap(best, 0, k);
    FilterHolds(candidates, job);
    SameElements(best, Filter(candidates, job));
    SwapPermutes(best, 0, k);
    forall i | 0 <= i < |all| ensures Score(out[i]) == all[i].score {
      assert all[i] in all;
    }
  }

  lemma TailScores(out: seq<NodeWithLoad>, candidates: seq<NodeWithLoad>, job: Job, best: seq<Scored>, k: nat)
    requires RankedWith(out, candidates, job, best, k) && best != []
    ensures FallbackBestFirst(out) <==> SortedBy(BestFirst, Swap(best, 0, k)[1..])
  {
    hide Score, Swap, RankedWith;
    ScoresOfRanked(out, candidates, job, best, k);
    var all := Swap(best, 0, k);
    var tail := all[1..];
    if SortedBy(BestFirst, tail) {
      forall i, j | 1 <= i < j < |out| ensures Score(out[i]) >= Score(out[j]) {
        assert BestFirst(tail[i - 1], tail[j - 1]);
      }
    }
    if FallbackBestFirst(out) {
      forall i, j | 0 <= i < j < |tail| ensures BestFirst(tail[i], tail[j]) {
        assert Score(out[i + 1]) >= Score(out[j + 1]);
      }
    }
  }

  lemma BrokenByUpset(out: seq<NodeWithLoad>, candidates: seq<NodeWithLoad>, job: Job, messages: seq<Message>, h: HashRing.Hash)
    returns (best: seq<Scored>, k: nat)
    requires BreaksOrder(out, candidates, job, messages, h)
    ensures UpsetsUnder(h, candidates, job, messages, best, k)
  {
    best, k :| RankedBy(out, candidates, job, messages, h, best, k);
    hide Score, Eligible, Filter, AffinityKey, Declined, HashRing.Owns;
    TailScores(out, candidates, job, best, k);
    SwapKeepsTailIff(best, k);
    assert BestFirst(best[0], best[k - 1]);
  }

  /** A hash under which a given member owns a key. */
  function OwnedBy(m: string, key: string): HashRing.Hash {
    s => if s == key || s == m + "#" + Decimal(0) then 0 else 1
  }

  lemma OwnerUnder(m: string, key: string, members: set<string>)
    requires m in members
    ensures HashRing.Owns(OwnedBy(m, key), members, key, m)
  {
    var h := OwnedBy(m, key);
    var p := HashRing.PointOf(h, m, 0);
    assert HashRing.OnRing(h, members, p) && HashRing.Closest(h, members, key, p);
  }

  lemma SomeIsUnder(candidates: seq<NodeWithLoad>, job: Job, messages: seq<Message>, best: seq<Scored>, k: nat)
    returns (h: HashRing.Hash)
    requires Upsets(candidates, job, messages, best, k) && DistinctNodes(candidates)
    ensures UpsetsUnder(h, candidates, job, messages, best, k)
  {
    hide Score, Eligible, Filter, AffinityKey, HashRing.Owns;
    var key, m := AffinityKey(job, messages), best[k].node.manifest.nodeID;
    h := OwnedBy(m, key);
    OwnerUnder(m, key, Members(best));
    FilterKeepsDistinct(candidates, job);
    PermutationKeepsDistinct(Filter(candidates, job), best);
    assert FirstOfItsID(best, k);
  }

  lemma UpsetBreaks(h: HashRing.Hash, candidates: seq<NodeWithLoad>, job: Job, messages: seq<Message>, best: seq<Scored>, k: nat)
    returns (out: seq<NodeWithLoad>)
    requires UpsetsUnder(h, candidates, job, messages, best, k)
    ensures BreaksOrder(out, candidates, job, messages, h)
  {
    hide Score, Eligible, Filter, AffinityKey, HashRing.Owns, AffinityPick, Declined, LoadPick;
    out := Nodes(Swap(best, 0, k));
    assert RankedBy(out, candidates, job, messages, h, best, k);
    TailScores(out, candidates, job, best, k);
    SwapKeepsTailIff(best, k);
  }

  /** Three eligible nodes are enough: the slowest is promoted by affinity, or by its tie with the second,
    and leaves the fastest last. */
  lemma SlowestPromoted(a: NodeWithLoad, b: NodeWithLoad, c: NodeWithLoad, job: Job, messages: seq<Message>)
    requires DistinctNodes([a, b, c]) && Eligible(a, job) && Eligible(b, job) && Eligible(c, job)
    requires Score(a) > Score(b) >= Score(c)
    requires (AffinityKey(job, messages) != "" && c.inFlight <= AFFINITY_LOAD) || Score(b) == Score(c)
    ensures exists out, h :: BreaksOrder(out, [a, b, c], job, messages, h)
  {
    hide Score, Eligible, AffinityKey, BreaksOrder;
    var best := [Scored(Score(a), a), Scored(Score(b), b), Scored(Score(c), c)];
    FilterOfThree(a, b, c, job);
    assert Upsets([a, b, c], job, messages, best, 2);
    FallbackOrderForSomeHashIff([a, b, c], job, messages);
  }

  lemma FilterOfThree(a: NodeWithLoad, b: NodeWithLoad, c: NodeWithLoad, job: Job)
    requires Eligible(a, job) && Eligible(b, job) && Eligible(c, job)
    ensures Filter([a, b, c], job) == [Scored(Score(a), a), Scored(Score(b), b), Scored(Score(c), c)]
  {
    hide Score, Eligible;
    assert [a, b, c][..2] == [a, b] && [a, b][..1] == [a] && [a][..0] == [];
    assert Filter([a], job) == [Scored(Score(a), a)];
    assert Filter([a, b], job) == [Scored(Score(a), a), Scored(Score(b), b)];
  }

  // ---------------------------------------------------------------- dispatch

  /** What a delivery came to: an error, or an answer with the throughput sample it yields, if its
    completion is long enough to give one. */
  datatype Delivery = Failed | Answered(body: string, sample: Option<real>)

  ghost function Ids(nodes: seq<NodeWithLoad>): (r: seq<string>)
    ensures |r| == |nodes| && forall i :: 0 <= i < |nodes| ==> r[i] == nodes[i].manifest.nodeID
  {
    seq(|nodes|, i requires 0 <= i < |nodes| => nodes[i].manifest.nodeID)
  }

  ghost function MarkedAll(es: Entries, ids: seq<string>): Entries {
    if ids == [] then es else Marked(MarkedAll(es, ids[..|ids| - 1]), ids[|ids| - 1])
  }

  /** Only the flags of the marked nodes change. */
  lemma {:induction false} MarkedAllAt(es: Entries, ids: seq<string>)
    ensures MarkedAll(es, ids).Keys == es.Keys
    ensures forall id :: id in es ==> MarkedAll(es, ids)[id] == es[id].(unreachable := es[id].unreachable || id in ids)
  {
    if ids != [] {
      var init, last := ids[..|ids| - 1], ids[|ids| - 1];
      MarkedAllAt(es, init);
      assert ids == init + [last];
    }
  }

  /** The tries that may be made. */
  function Tries(maxAttempts: int, n: nat): nat {
    if maxAttempts <= 0 then 0 else if maxAttempts < n then maxAttempts else n
  }

  /** The loop fails exactly when every node it may try fails; otherwise the first node that answers
    serves. The nodes that failed, and no others, are marked; every in-flight counter is as before. */
  ghost predicate Dispatched(before: Entries, after: Entries, ranked: seq<NodeWithLoad>, maxAttempts: int,
                             outcomes: nat -> Delivery, r: Option<string>, servedBy: string, attempted: nat)
  {
    && attempted <= Tries(maxAttempts, |ranked|)
    && (r.None? <==> forall i: nat :: i < Tries(maxAttempts, |ranked|) ==> outcomes(i).Failed?)
    && match r
       case None =>
         attempted == Tries(maxAttempts, |ranked|) && after == MarkedAll(before, Ids(ranked[..attempted]))
       case Some(body) =>
         && attempted > 0 && (forall i: nat :: i < attempted - 1 ==> outcomes(i).Failed?)
         && outcomes(attempted - 1).Answered? && body == outcomes(attempted - 1).body
         && servedBy == ranked[attempted - 1].manifest.nodeID
         && after == Sampled(MarkedAll(before, Ids(ranked[..attempted - 1])), servedBy, outcomes(attempted - 1))
  }

  /** The dispatch loop over a ranking. `outcomes(i)` is what the i-th delivery comes to. */
  method TryInOrder(ranked: seq<NodeWithLoad>, registry: NodeRegistry, maxAttempts: int, outcomes: nat -> Delivery)
    returns (r: Option<string>, servedBy: string, attempted: nat)
    modifies registry
    ensures Dispatched(old(registry.entries), registry.entries, ranked, maxAttempts, outcomes, r, servedBy, attempted)
  {
    hide Marked, Loaded, Observed;
    attempted := 0;
    servedBy := "";
    while attempted < |ranked|
      invariant attempted <= |ranked| && attempted <= Tries(maxAttempts, |ranked|)
      invariant forall i: nat :: i < attempted ==> outcomes(i).Failed?
      invariant registry.entries == MarkedAll(old(registry.entries), Ids(ranked[..attempted]))
    {
      if attempted >= maxAttempts {
        break;
      }
      var node := ranked[attempted].manifest.nodeID;
      attempted := attempted + 1;
      LoadAndUnload(registry.entries, node);
      registry.IncrInFlight(node);
      var outcome := outcomes(attempted - 1);
      registry.DecrInFlight(node);
      if outcome.Failed? {
        registry.MarkUnreachable(node);
        assert Ids(ranked[..attempted])[..attempted - 1] == Ids(ranked[..attempted - 1]);
        continue;
      }
      if outcome.sample.Some? {
        registry.RecordObservedThroughput(node, outcome.sample.value);
      }
      return Some(outcome.body), node, attempted;
    }
    r := None;
  }

  /** A dispatch fails exactly when every delivery that may be made fails; otherwise the answer is that of
    the first delivery that has one, and its node is the one that served. */
  lemma DispatchMeans(before: Entries, after: Entries, ranked: seq<NodeWithLoad>, maxAttempts: int,
                      outcomes: nat -> Delivery, r: Option<string>, servedBy: string, attempted: nat)
    requires Dispatched(before, after, ranked, maxAttempts, outcomes, r, servedBy, attempted)
    ensures r.None? <==> forall k: nat :: k < |ranked| && k < maxAttempts ==> outcomes(k).Failed?
    ensures attempted <= |ranked| && (r.None? ==> attempted == |ranked| || attempted >= maxAttempts)
    ensures r.Some? ==> 0 < attempted <= maxAttempts && (forall k: nat :: k < attempted - 1 ==> outcomes(k).Failed?)
    ensures r.Some? ==> outcomes(attempted - 1).Answered? && r.value == outcomes(attempted - 1).body
    ensures r.Some? ==> servedBy == ranked[attempted - 1].manifest.nodeID
  {
    hide MarkedAll, Sampled;
  }

  ghost function Sampled(es: Entries, id: string, d: Delivery): Entries {
    if d.Answered? && d.sample.Some? then Observed(es, id, d.sample.value) else es
  }

  /** After a dispatch exactly the nodes that failed are newly marked, and every in-flight counter, the
    served node's included, is what it was. */
  lemma OnlyFailuresAreMarked(before: Entries, after: Entries, ranked: seq<NodeWithLoad>, maxAttempts: int,
                              outcomes: nat -> Delivery, r: Option<string>, servedBy: string, attempted: nat)
    requires Dispatched(before, after, ranked, maxAttempts, outcomes, r, servedBy, attempted)
    ensures after.Keys == before.Keys
    ensures var failed := Ids(ranked[..if r.None? then attempted else attempted - 1]);
      forall id :: id in before ==>
        && after[id].unreachable == (before[id].unreachable || id in failed)
        && after[id].inFlight == before[id].inFlight && after[id].manifest == before[id].manifest
    // the serving node's throughput is measured, if its answer was long enough, and nobody else's
    ensures forall id :: id in before && (r.None? || id != servedBy || outcomes(attempted - 1).sample.None?) ==>
      after[id].observedTPS == before[id].observedTPS
    ensures r.Some? && servedBy in before && outcomes(attempted - 1).sample.Some? ==>
      after[servedBy].observedTPS == Observed(before, servedBy, outcomes(attempted - 1).sample.value)[servedBy].observedTPS
  {
    var failed := Ids(ranked[..if r.None? then attempted else attempted - 1]);
    MarkedAllAt(before, failed);
    if r.Some? {
      SamplingKeeps(MarkedAll(before, failed), servedBy, outcomes(attempted - 1));
      if servedBy in before && outcomes(attempted - 1).sample.Some? {
        var e, sample := before[servedBy], outcomes(attempted - 1).sample.value;
        assert Folded(MarkedAll(before, failed)[servedBy], sample).observedTPS == Folded(e, sample).observedTPS;
        assert Observed(before, servedBy, sample)[servedBy] == Folded(e, sample);
      }
    }
    hide MarkedAll, Sampled, Ids;
  }

  lemma SamplingKeeps(es: Entries, id: string, d: Delivery)
    ensures Sampled(es, id, d).Keys == es.Keys
    ensures forall k :: k in es ==>
      Sampled(es, id, d)[k] == es[k].(observedTPS := Sampled(es, id, d)[k].observedTPS, samples := Sampled(es, id, d)[k].samples)
    ensures forall k :: k in es && (k != id || !d.Answered? || d.sample.None?) ==> Sampled(es, id, d)[k] == es[k]
    ensures id in es && d.Answered? && d.sample.Some? ==> Sampled(es, id, d)[id] == Folded(es[id], d.sample.value)
  {}

  /** `DispatchFastLane`: candidates, ranking, and the loop. Every node is tried at most once. */
  method DispatchFastLane(job: Job, messages: seq<Message>, registry: NodeRegistry, maxAttempts: int, now: int,
                          h: HashRing.Hash, outcomes: nat -> Delivery)
    returns (r: Option<string>, servedBy: string, attempted: nat,
             ghost candidates: seq<NodeWithLoad>, ghost ranked: seq<NodeWithLoad>)
    requires KeysMatch(registry.entries)
    modifies registry
    ensures CandidateList(old(registry.entries), now, job.modelID, job.quantization, candidates)
    ensures IsRanking(ranked, candidates, job, messages, h)
    ensures DistinctNodes(ranked)
    ensures forall n :: n in ranked <==> Routable(old(registry.entries), now, job, n)
    ensures Dispatched(old(registry.entries), registry.entries, ranked, maxAttempts, outcomes, r, servedBy, attempted)
    ensures r.None? <==> forall k: nat :: k < |ranked| && k < maxAttempts ==> outcomes(k).Failed?
    ensures attempted <= |ranked| && (r.None? ==> attempted == |ranked| || attempted >= maxAttempts)
    ensures r.Some? ==> 0 < attempted <= maxAttempts && (forall k: nat :: k < attempted - 1 ==> outcomes(k).Failed?)
    ensures r.Some? ==> outcomes(attempted - 1).Answered? && r.value == outcomes(attempted - 1).body
    ensures r.Some? ==> servedBy == ranked[attempted - 1].manifest.nodeID
  {
    hide Dispatched, Eligible, Marked, Observed, MarkedAll, Sampled, PickedBy, Declined, AffinityPick, Registry.OnStandby, HasModel;
    var nodes := registry.CandidatesWithLoad(job.modelID, job.quantization, now);
    CandidatesAreDistinct(registry.entries, now, job, nodes);
    candidates := nodes;
    var out := RankCandidates(nodes, job, messages, h);
    RankedDistinct(out, nodes, job, messages, h);
    ranked := out;
    ghost var before := registry.entries;
    r, servedBy, attempted := TryInOrder(out, registry, maxAttempts, outcomes);
    DispatchMeans(before, registry.entries, out, maxAttempts, outcomes, r, servedBy, attempted);
  }

  lemma RankedDistinct(out: seq<NodeWithLoad>, candidates: seq<NodeWithLoad>, job: Job, messages: seq<Message>, h: HashRing.Hash)
    requires IsRanking(out, candidates, job, messages, h) && DistinctNodes(candidates)
    ensures DistinctNodes(out) && forall n :: n in out <==> n in candidates && Eligible(n, job)
  {
    hide RankedWith, PickedBy, Eligible, DistinctNodes;
    var best, k :| RankedBy(out, candidates, job, messages, h, best, k);
    RankedOnce(out, candidates, job, best, k);
    RankedAreTheEligible(out, candidates, job, best, k);
  }

  /** A node the job may go to: live, not a standby, and eligible. */
  ghost predicate Routable(es: Entries, now: int, job: Job, n: NodeWithLoad) {
    Eligible(n, job) && n.manifest.nodeID in es && n == WithLoad(es[n.manifest.nodeID]) &&
    IsLive(es[n.manifest.nodeID], now) && !OnStandby(es, now, n.manifest.nodeID)
  }

  lemma CandidatesAreDistinct(es: Entries, now: int, job: Job, out: seq<NodeWithLoad>)
    requires KeysMatch(es) && CandidateList(es, now, job.modelID, job.quantization, out)
    ensures DistinctNodes(out)
    ensures forall n :: n in out ==> n.manifest.nodeID in es && n == WithLoad(es[n.manifest.nodeID])
    ensures forall n :: n in out && Eligible(n, job) <==> Routable(es, now, job, n)
  {
    var ids :| IsCandidateList(es, now, job.modelID, job.quantization, ids, out);
    forall n | n in out ensures n.manifest.nodeID in es && n == WithLoad(es[n.manifest.nodeID]) {
      var i :| 0 <= i < |out| && out[i] == n;
    }
    forall n ensures n in out && Eligible(n, job) <==> Routable(es, now, job, n) {
      if n in out {
        var i :| 0 <= i < |out| && out[i] == n;
        assert ids[i] in ids;
      }
      if Routable(es, now, job, n) {
        assert n.manifest.nodeID in ids;
        var i :| 0 <= i < |ids| && ids[i] == n.manifest.nodeID;
        assert out[i] == n;
      }
    }
  }
}
