/** How far the coordinator trusts a client's routing hint. A hint may save classification work; it
  never lowers a job's sensitivity. */
module HintValidator {
  import opened Wrappers
  import opened Numerals

  datatype Hint = Hint(jobType: string, tier: string, confidence: real, version: string, fromModel: bool)

  const LOW := "low"
  const MODERATE := "moderate"
  const HIGH := "high_requires_attestation"
  const CURRENT_VERSION := 1
  const MAX_INT := 0x7FFF_FFFF_FFFF_FFFF

  // ---------------------------------------------------------------- the router version

  /** The longest run of digits at the end. */
  function TrailingDigits(s: string): (digits: string)
    ensures |digits| <= |s| && s[|s| - |digits|..] == digits && forall c :: c in digits ==> IsDigit(c)
    ensures |digits| < |s| ==> !IsDigit(s[|s| - |digits| - 1])
  {
    if s == "" || !IsDigit(s[|s| - 1]) then "" else TrailingDigits(s[..|s| - 1]) + [s[|s| - 1]]
  }

  lemma SuffixOfDigits(s: string, digits: string)
    requires |digits| <= |s| && s[|s| - |digits|..] == digits && forall c :: c in digits ==> IsDigit(c)
    ensures forall k :: |s| - |digits| <= k < |s| ==> IsDigit(s[k])
  {
    forall k | |s| - |digits| <= k < |s| ensures IsDigit(s[k]) {
      assert digits[k - (|s| - |digits|)] == s[k];
    }
  }

  /** A run of digits that cannot be extended is the longest one. */
  lemma TrailingRun(s: string, i: nat)
    requires i <= |s| && (forall j :: i <= j < |s| ==> IsDigit(s[j])) && (i > 0 ==> !IsDigit(s[i - 1]))
    ensures TrailingDigits(s) == s[i..]
  {
    hide IsDigit, TrailingDigits;
    SuffixOfDigits(s, TrailingDigits(s));
    assert |TrailingDigits(s)| == |s| - i;
  }

  /** None when there is no digit at the end, or the number does not fit an int. */
  function VersionOf(s: string): Option<int> {
    var digits := TrailingDigits(s);
    if digits == "" || Reading(digits) > MAX_INT then None else Some(Reading(digits))
  }

  method TrailingInt(s: string) returns (n: Option<int>)
    ensures n == VersionOf(s)
  {
    var i := |s|;
    while i > 0 && IsDigit(s[i - 1])
      invariant 0 <= i <= |s| && forall j :: i <= j < |s| ==> IsDigit(s[j])
    {
      i := i - 1;
    }
    TrailingRun(s, i);
    if i == |s| {
      return None;
    }
    if Reading(s[i..]) > MAX_INT {
      return None;
    }
    n := Some(Reading(s[i..]));
  }

  function FactorOf(n: Option<int>): (f: real)
    ensures 0.2 <= f <= 1.0
  {
    if n.None? then 0.2
    else if CURRENT_VERSION - n.value <= 0 then 1.0
    else if CURRENT_VERSION - n.value == 1 then 0.8
    else 0.4
  }

  function VersionFactor(version: string): (f: real)
    ensures 0.2 <= f <= 1.0
  {
    FactorOf(VersionOf(version))
  }

  method ReadVersionFactor(version: string) returns (f: real)
    ensures f == VersionFactor(version)
  {
    var n := TrailingInt(version);
    f := FactorOf(n);
  }

  /** While the newest router is version 1, no version reads as two or more behind: the factor for such
    a one is never used. */
  lemma NeverTwoBehind(version: string)
    ensures VersionFactor(version) == 0.2 || VersionFactor(version) == 0.8 || VersionFactor(version) == 1.0
    ensures VersionFactor(version) == 0.8 <==> VersionOf(version) == Some(0)
  {
    ReadingNonNegative(TrailingDigits(version));
  }

  // ---------------------------------------------------------------- the weight of a hint

  function Clamp01(v: real): real {
    if v < 0.0 then 0.0 else if v > 1.0 then 1.0 else v
  }

  function HistoryFactor(accuracy: real): real { Clamp01(1.25 * accuracy - 0.325) }

  function ModelFactor(fromModel: bool): real { if fromModel then 1.0 else 0.7 }

  /** The product of the four factors, when nothing rules the hint out. */
  function Weight(accuracy: Option<real>, hint: Option<Hint>): real {
    if hint.None? || accuracy.None? || hint.value.confidence < 0.5 then 0.0
    else HistoryFactor(accuracy.value) * VersionFactor(hint.value.version) * Clamp01(hint.value.confidence) * ModelFactor(hint.value.fromModel)
  }

  lemma Product(a: real, b: real, x: real, y: real)
    requires 0.0 <= a <= x && 0.0 <= b <= y
    ensures 0.0 <= a * b <= x * y
  {
    assert a * b <= x * b <= x * y;
  }

  /** For any accuracy history in [0, 1], a hint weighs at most 0.925, and one of the rule-based router
    at most 0.6475. */
  lemma WeightBounds(accuracy: Option<real>, hint: Option<Hint>)
    requires accuracy.Some? ==> 0.0 <= accuracy.value <= 1.0
    ensures 0.0 <= Weight(accuracy, hint) <= 0.925
    ensures hint.Some? && !hint.value.fromModel ==> Weight(accuracy, hint) <= 0.6475
  {
    hide VersionFactor, VersionOf;
    if hint.Some? && accuracy.Some? && hint.value.confidence >= 0.5 {
      var h, c, m := HistoryFactor(accuracy.value), Clamp01(hint.value.confidence), ModelFactor(hint.value.fromModel);
      var version := VersionFactor(hint.value.version);
      Product(h, version, 0.925, 1.0);
      Product(h * version, c, 0.925, 1.0);
      Product(h * version * c, m, 0.925, m);
    }
  }

  /** `store` is the requester's history: None when there is no store or nothing in it. The cap of 0.95
    is never reached. */
  /** The factors: 1.25 times the accuracy less 0.325, cut to [0, 1]; 1 for the newest router version or a
    newer one, 0.8 for one behind, 0.2 without a number; the confidence cut to [0, 1]; and 0.7 for a
    rule-based router. */
  lemma FactorsMean(a: real, hint: Hint)
    requires 0.0 <= a <= 1.0
    ensures HistoryFactor(a) == if a <= 0.26 then 0.0 else 1.25 * a - 0.325
    ensures VersionOf(hint.version).None? ==> VersionFactor(hint.version) == 0.2
    ensures VersionOf(hint.version).Some? ==> VersionFactor(hint.version) == if VersionOf(hint.version).value >= 1 then 1.0 else 0.8
    ensures 0.0 <= hint.confidence <= 1.0 ==> Clamp01(hint.confidence) == hint.confidence
    ensures hint.confidence > 1.0 ==> Clamp01(hint.confidence) == 1.0
    ensures ModelFactor(true) == 1.0 && ModelFactor(false) == 0.7
  {
    NeverTwoBehind(hint.version);
    ReadingNonNegative(TrailingDigits(hint.version));
  }

  /** Without a history, or below half confidence, a hint has no weight; otherwise every factor scales it. */
  lemma WeightMeans(a: real, hint: Hint)
    ensures Weight(None, Some(hint)) == Weight(Some(a), None) == 0.0
    ensures hint.confidence < 0.5 ==> Weight(Some(a), Some(hint)) == 0.0
    ensures hint.confidence >= 0.5 ==>
      Weight(Some(a), Some(hint)) == HistoryFactor(a) * VersionFactor(hint.version) * Clamp01(hint.confidence) * ModelFactor(hint.fromModel)
  {
    hide HistoryFactor, VersionFactor, Clamp01, ModelFactor;
  }

  method ComputeHintWeight(hint: Option<Hint>, store: Option<real>) returns (w: real)
    requires store.Some? ==> 0.0 <= store.value <= 1.0
    ensures w == Weight(store, hint)
  {
    hide VersionFactor, VersionOf;
    if hint.None? {
      return 0.0;
    }
    if store.None? {
      return 0.0;
    }
    var histFactor := Clamp01(1.25 * store.value - 0.325);
    var verFactor := ReadVersionFactor(hint.value.version);
    if hint.value.confidence < 0.5 {
      return 0.0;
    }
    var confFactor := Clamp01(hint.value.confidence);
    var mlFactor := 1.0;
    if !hint.value.fromModel {
      mlFactor := 0.7;
    }
    w := histFactor * verFactor * confFactor * mlFactor;
    WeightBounds(store, hint);
    if w > 0.95 {
      w := 0.95;
    }
  }

  // ---------------------------------------------------------------- sensitivity

  function Rank(t: string): nat {
    if t == LOW then 1 else if t == MODERATE then 2 else if t == HIGH then 3 else 0
  }

  function MaxTier(a: string, b: string): (r: string)
    ensures Rank(r) >= Rank(a) && Rank(r) >= Rank(b) && (r == a || r == b)
  {
    if Rank(a) >= Rank(b) then a else b
  }

  function ValidateSensitivity(hinted: string, coordinator: string, override: string, weight: real): (t: string)
    ensures Rank(t) >= Rank(coordinator)
  {
    if override != "" then MaxTier(override, coordinator)
    else if hinted != "" && Rank(hinted) > Rank(coordinator) && weight > 0.7 then hinted
    else coordinator
  }

  function ShouldReclassify(present: bool, weight: real, tier: string, jobType: string): bool {
    if !present then true
    else if weight < 0.3 then true
    else if tier == HIGH then true
    else if jobType == "" || jobType == "unknown" then true
    else !(weight >= 0.7 && (tier == LOW || tier == MODERATE))
  }

  /** The three tiers in order; any other text ranks below them all. */
  lemma RanksInOrder(t: string)
    ensures Rank("low") < Rank("moderate") < Rank("high_requires_attestation")
    ensures t != "low" && t != "moderate" && t != "high_requires_attestation" ==> Rank(t) < Rank("low")
  {}

  datatype Routing = Routing(tier: string, reclassified: bool, weight: real)

  function HintedTier(hint: Option<Hint>): string { if hint.Some? then hint.value.tier else "" }
  function HintedType(hint: Option<Hint>): string { if hint.Some? then hint.value.jobType else "" }

  /** Routing as a function of the hint's weight. */
  function Routed(hint: Option<Hint>, override: string, coordinator: string, weight: real): Routing {
    Routing(ValidateSensitivity(HintedTier(hint), coordinator, override, weight),
            ShouldReclassify(hint.Some?, weight, HintedTier(hint), HintedType(hint)), weight)
  }

  /** A hint raises the tier: it names a higher one and weighs enough. */
  predicate Raises(hint: Option<Hint>, coordinator: string, weight: real) {
    hint.Some? && Rank(hint.value.tier) > Rank(coordinator) && weight > 0.7
  }

  /** A hint makes classifying again unnecessary. */
  predicate Suffices(hint: Option<Hint>, weight: real) {
    hint.Some? && weight >= 0.7 && (hint.value.tier == LOW || hint.value.tier == MODERATE) &&
    hint.value.jobType != "" && hint.value.jobType != "unknown"
  }

  /** What a caller may rely on: the tier ranks at least the coordinator's and the override's, and names
    one of the tiers given; without an override only a hint that raises it changes it; and
    classification is skipped only for a hint that suffices. */
  predicate Guaranteed(r: Routing, hint: Option<Hint>, override: string, coordinator: string, weight: real) {
    && r.weight == weight
    && (if override != "" then r.tier == MaxTier(override, coordinator)
        else if Raises(hint, coordinator, weight) then r.tier == hint.value.tier
        else r.tier == coordinator)
    && (r.reclassified <==> !Suffices(hint, weight))
  }

  method ResolveRouting(hint: Option<Hint>, override: string, coordinator: string, store: Option<real>) returns (r: Routing)
    requires store.Some? ==> 0.0 <= store.value <= 1.0
    ensures Rank(r.tier) >= Rank(coordinator) && (override != "" ==> Rank(r.tier) >= Rank(override))
    ensures r.tier == coordinator || (override != "" && r.tier == override) || (hint.Some? && r.tier == hint.value.tier)
    ensures hint.None? && override == "" ==> r == Routing(coordinator, true, 0.0)
    ensures hint.Some? && !hint.value.fromModel && override == "" ==> r.tier == coordinator && r.reclassified
    ensures override == "" && r.tier != coordinator ==> hint.Some? && hint.value.fromModel && r.weight > 0.7
    ensures !r.reclassified <==>
      hint.Some? && r.weight >= 0.7 && (hint.value.tier == "low" || hint.value.tier == "moderate") &&
      hint.value.jobType != "" && hint.value.jobType != "unknown"
    ensures override == "" && hint.Some? && Rank(hint.value.tier) > Rank(coordinator) && r.weight > 0.7 ==> r.tier == hint.value.tier
    ensures !r.reclassified ==> hint.Some? && hint.value.fromModel && hint.value.tier != HIGH
    ensures Guaranteed(r, hint, override, coordinator, Weight(store, hint))
  {
    hide Weight;
    var weight := ComputeHintWeight(hint, store);
    var tier, jobType := "", "";
    if hint.Some? {
      tier, jobType := hint.value.tier, hint.value.jobType;
    }
    r := Routing(ValidateSensitivity(tier, coordinator, override, weight),
                 ShouldReclassify(hint.Some?, weight, tier, jobType), weight);
    WeightBounds(store, hint);
    NoHintNoWeight(store);
  }

  lemma NoHintNoWeight(store: Option<real>)
    ensures Weight(store, None) == 0.0
  {}

  /** The guarantees leave no choice: the routing is the only one that meets them. */
  lemma GuaranteedIffRouted(r: Routing, hint: Option<Hint>, override: string, coordinator: string, weight: real)
    ensures Guaranteed(r, hint, override, coordinator, weight) <==> r == Routed(hint, override, coordinator, weight)
  {}

  /** The tier is never lowered, whatever the client sends; a client that sends neither hint nor override
    is routed as the coordinator classifies. */
  lemma NeverLowered(hint: Option<Hint>, override: string, coordinator: string, store: Option<real>)
    ensures Rank(Routed(hint, override, coordinator, Weight(store, hint)).tier) >= Rank(coordinator)
    ensures hint.None? && override == "" ==>
      Routed(hint, override, coordinator, Weight(store, hint)) == Routing(coordinator, true, 0.0)
  {}

  /** Without an override the tier changes only to the known higher tier that a hint of a learned router
    names with a weight above 0.7: a rule-based hint raises nothing and never suppresses
    reclassification. */
  lemma RuleBasedHintsChangeNothing(hint: Hint, coordinator: string, store: Option<real>)
    requires store.Some? ==> 0.0 <= store.value <= 1.0
    ensures var r := Routed(Some(hint), "", coordinator, Weight(store, Some(hint)));
      && (!hint.fromModel ==> r.tier == coordinator && r.reclassified)
      && (r.tier != coordinator <==> hint.tier != "" && Rank(hint.tier) > Rank(coordinator) && r.weight > 0.7)
      && (r.tier != coordinator ==> hint.fromModel && r.tier == hint.tier)
  {
    WeightBounds(store, Some(hint));
    hide Weight;
  }

  /** Classification is skipped only for hints of low or moderate sensitivity, so an attestation tier
    that comes with a skipped classification is the coordinator's own or the user's override. */
  lemma SkippingNeverRaisesToAttestation(hint: Option<Hint>, override: string, coordinator: string, weight: real)
    requires !Routed(hint, override, coordinator, weight).reclassified
    ensures hint.Some? && (hint.value.tier == LOW || hint.value.tier == MODERATE) && weight >= 0.7
    ensures Rank(Routed(hint, override, coordinator, weight).tier) == 3 ==> coordinator == HIGH || override == HIGH
  {}

  /** A better history or a more confident hint never weighs less. */
  lemma WeightMonotone(a: real, b: real, hint: Hint, surer: real)
    requires 0.0 <= a <= b <= 1.0 && hint.confidence <= surer
    ensures Weight(Some(a), Some(hint)) <= Weight(Some(b), Some(hint.(confidence := surer)))
  {
    var version := VersionFactor(hint.version);
    var g, h, m := HistoryFactor(a), HistoryFactor(b), ModelFactor(hint.fromModel);
    var c, d := Clamp01(hint.confidence), Clamp01(surer);
    hide VersionFactor, VersionOf;
    Product(g, version, h, version);
    Product(g * version, c, h * version, d);
    Product(g * version * c, m, h * version * d, m);
    WeightBounds(Some(b), Some(hint.(confidence := surer)));
  }
}
