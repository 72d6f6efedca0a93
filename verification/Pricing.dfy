/** What a consumer is charged and a provider earns. Every price is rounded to four decimals, so
  amounts here are whole numbers of ten-thousandths of a credit; the factors are exact. */
module Pricing {

  datatype Lane = Fast | Background
  datatype Sensitivity = Low | Moderate | HighRequiresAttestation

  const HOUSE_EDGE := 0.25
  const ACTIVITY_CEILING := 40.0

  /** Half away from zero. */
  function Round(x: real): int {
    if x >= 0.0 then (x + 0.5).Floor else -((-x + 0.5).Floor)
  }

  lemma RoundMonotone(x: real, y: real)
    requires x <= y
    ensures Round(x) <= Round(y)
  {}

  lemma RoundWhole(n: nat)
    ensures Round(n as real) == n
  {}

  function LaneMultiplier(l: Lane): real { if l.Background? then 0.5 else 1.0 }

  function SensitivityMultiplier(s: Sensitivity): real {
    match s
    case Low => 0.5
    case HighRequiresAttestation => 3.0
    case Moderate => 1.0
  }

  /** Credits per thousand tokens. */
  function PerK(l: Lane, s: Sensitivity): (r: real)
    ensures 0.25 <= r <= 3.0
  {
    LaneMultiplier(l) * SensitivityMultiplier(s)
  }

  function ConsumerCost(l: Lane, s: Sensitivity, tokens: int): int {
    if tokens <= 0 then 0 else Round(tokens as real / 1000.0 * PerK(l, s) * 10000.0)
  }

  /** A fraction of an amount, rounded. */
  function Portion(amount: int, fraction: real): int {
    Round(amount as real * fraction)
  }

  function ProviderReward(l: Lane, s: Sensitivity, tokens: int): int {
    Portion(ConsumerCost(l, s, tokens), 1.0 - HOUSE_EDGE)
  }

  function ActivityDiscount(backpressure: real): real {
    if backpressure >= ACTIVITY_CEILING then 1.0
    else if backpressure <= 0.0 then 1.0 - HOUSE_EDGE
    else (1.0 - HOUSE_EDGE) + backpressure / ACTIVITY_CEILING * HOUSE_EDGE
  }

  /** `ConsumerCostWithActivityDiscount` */
  function Charge(l: Lane, s: Sensitivity, tokens: int, backpressure: real): int {
    var discounted := Portion(ConsumerCost(l, s, tokens), ActivityDiscount(backpressure));
    var reward := ProviderReward(l, s, tokens);
    if discounted >= reward then discounted else reward
  }

  // ---------------------------------------------------------------- the rates

  /** What a token costs, in ten-thousandths of a credit: ten on the fast lane, half for low and three
    times as much for high sensitivity; and half of that on the background lane. */
  lemma CostPerToken(tokens: int)
    ensures tokens <= 0 ==> forall l, s :: ConsumerCost(l, s, tokens) == 0
    ensures tokens > 0 ==> ConsumerCost(Fast, Low, tokens) == 5 * tokens && ConsumerCost(Fast, Moderate, tokens) == 10 * tokens
    ensures tokens > 0 ==> ConsumerCost(Fast, HighRequiresAttestation, tokens) == 30 * tokens
    ensures tokens > 0 ==> ConsumerCost(Background, Low, tokens) == (5 * tokens + 1) / 2
    ensures tokens > 0 ==> ConsumerCost(Background, Moderate, tokens) == 5 * tokens
    ensures tokens > 0 ==> ConsumerCost(Background, HighRequiresAttestation, tokens) == 15 * tokens
  {
    if tokens > 0 {
      var k := tokens as real / 1000.0;
      assert k * 0.25 * 10000.0 == tokens as real * 2.5;
      HalfUp(5 * tokens);
      RoundWhole(5 * tokens);
      RoundWhole(10 * tokens);
      RoundWhole(15 * tokens);
      RoundWhole(30 * tokens);
    }
  }

  lemma HalfUp(n: nat)
    ensures Round(n as real / 2.0) == (n + 1) / 2
  {
    assert n as real / 2.0 + 0.5 == (n + 1) as real / 2.0;
    FloorOfQuotient(n + 1, 2);
  }

  lemma FloorOfQuotient(n: nat, d: nat)
    requires d == 2 || d == 4
    ensures (n as real / d as real).Floor == n / d
  {
    var q, r := n / d, n % d;
    assert n == d * q + r;
    assert n as real == d as real * q as real + r as real;
  }

  /** Providers earn three quarters of the cost, to the nearest ten-thousandth. */
  lemma RewardIsThreeQuarters(l: Lane, s: Sensitivity, tokens: int)
    ensures ProviderReward(l, s, tokens) == (3 * ConsumerCost(l, s, tokens) + 2) / 4
  {
    CostNonNegative(l, s, tokens);
    ThreeQuarters(ConsumerCost(l, s, tokens));
    hide ConsumerCost, Portion;
  }

  /** The charge runs from the reward to the full cost in proportion to backpressure up to 40 percent:
    it is the discounted cost to the nearest ten-thousandth. */
  lemma ChargeIsProportional(l: Lane, s: Sensitivity, tokens: int, b: real, share: real)
    requires 0.0 <= b <= 40.0 && share == 0.75 + b / 160.0
    ensures var exact := ConsumerCost(l, s, tokens) as real * share;
      exact - 0.5 <= Charge(l, s, tokens, b) as real <= exact + 0.5
    ensures b == 0.0 ==> Charge(l, s, tokens, b) == ProviderReward(l, s, tokens)
    ensures b == 40.0 ==> Charge(l, s, tokens, b) == ConsumerCost(l, s, tokens)
  {
    CostNonNegative(l, s, tokens);
    FloorNeverBinds(l, s, tokens, b);
    ChargeFollowsActivity(l, s, tokens, b, b);
    DiscountIsLinear(b);
    NearlyRounded(ConsumerCost(l, s, tokens), share);
    hide ConsumerCost, Portion, ProviderReward, ActivityDiscount, Charge;
  }

  lemma ThreeQuarters(cost: nat)
    ensures Portion(cost, 0.75) == (3 * cost + 2) / 4
  {
    FloorOfQuotient(3 * cost + 2, 4);
    assert cost as real * 0.75 + 0.5 == (3 * cost + 2) as real / 4.0;
  }

  lemma DiscountIsLinear(b: real)
    requires 0.0 <= b <= 40.0
    ensures ActivityDiscount(b) == 0.75 + b / 160.0
  {}

  lemma NearlyRounded(cost: nat, fraction: real)
    requires fraction >= 0.0
    ensures cost as real * fraction - 0.5 <= Portion(cost, fraction) as real <= cost as real * fraction + 0.5
  {
    assert cost as real * fraction >= 0.0;
  }

  // ---------------------------------------------------------------- the spread

  lemma TokensTimes(tokens: int, perK: real)
    requires tokens >= 1 && perK >= 0.25
    ensures tokens as real / 1000.0 * perK * 10000.0 >= 2.5
  {
    var t := tokens as real;
    assert t / 1000.0 * perK * 10000.0 == t * perK * 10.0;
    assert t * perK >= perK;
  }

  /** Any work at all costs something. */
  lemma WorkCosts(l: Lane, s: Sensitivity, tokens: int)
    requires tokens > 0
    ensures ConsumerCost(l, s, tokens) >= 3
  {
    TokensTimes(tokens, PerK(l, s));
    RoundMonotone(2.5, tokens as real / 1000.0 * PerK(l, s) * 10000.0);
  }

  lemma CostNonNegative(l: Lane, s: Sensitivity, tokens: int)
    ensures ConsumerCost(l, s, tokens) >= 0
  {
    if tokens > 0 {
      WorkCosts(l, s, tokens);
    }
  }

  /** The provider of any work earns something, and strictly less than its undiscounted cost: rounding
    never closes the spread. */
  lemma RewardBelowCost(l: Lane, s: Sensitivity, tokens: int)
    requires tokens > 0
    ensures 0 < ProviderReward(l, s, tokens) < ConsumerCost(l, s, tokens)
  {
    WorkCosts(l, s, tokens);
    hide ConsumerCost;
  }

  lemma DiscountRange(b: real)
    ensures 1.0 - HOUSE_EDGE <= ActivityDiscount(b) <= 1.0
  {
    if 0.0 < b < ACTIVITY_CEILING {
      assert 0.0 <= b / ACTIVITY_CEILING <= 1.0;
    }
  }

  lemma DiscountMonotone(a: real, b: real)
    requires a <= b
    ensures ActivityDiscount(a) <= ActivityDiscount(b)
  {
    DiscountRange(a);
    DiscountRange(b);
    assert a / ACTIVITY_CEILING <= b / ACTIVITY_CEILING;
  }

  lemma PortionMonotone(cost: int, d: real, e: real)
    requires cost >= 0 && d <= e
    ensures Portion(cost, d) <= Portion(cost, e)
  {
    assert cost as real * (e - d) >= 0.0;
    RoundMonotone(cost as real * d, cost as real * e);
  }

  lemma WholePortion(cost: int)
    requires cost >= 0
    ensures Portion(cost, 1.0) == cost && Portion(cost, 0.0) == 0
  {
    RoundWhole(cost);
  }

  /** The discount alone never takes the charge below the reward. */
  lemma FloorNeverBinds(l: Lane, s: Sensitivity, tokens: int, b: real)
    ensures Charge(l, s, tokens, b) == Portion(ConsumerCost(l, s, tokens), ActivityDiscount(b))
  {
    CostNonNegative(l, s, tokens);
    DiscountRange(b);
    hide ConsumerCost, ActivityDiscount, Portion;
    PortionMonotone(ConsumerCost(l, s, tokens), 1.0 - HOUSE_EDGE, ActivityDiscount(b));
  }

  /** The charge lies between the reward and the undiscounted cost, at any level of activity. */
  lemma ChargeWithinSpread(l: Lane, s: Sensitivity, tokens: int, b: real)
    ensures 0 <= ProviderReward(l, s, tokens) <= Charge(l, s, tokens, b) <= ConsumerCost(l, s, tokens)
  {
    CostNonNegative(l, s, tokens);
    DiscountRange(b);
    hide ConsumerCost, ActivityDiscount, Portion;
    var cost := ConsumerCost(l, s, tokens);
    FloorNeverBinds(l, s, tokens, b);
    PortionMonotone(cost, ActivityDiscount(b), 1.0);
    WholePortion(cost);
    PortionMonotone(cost, 0.0, 1.0 - HOUSE_EDGE);
  }

  /** An idle network charges exactly what the provider earns, a busy one the full cost, and more
    activity never makes the charge smaller. */
  lemma ChargeFollowsActivity(l: Lane, s: Sensitivity, tokens: int, a: real, b: real)
    requires a <= b
    ensures Charge(l, s, tokens, a) <= Charge(l, s, tokens, b)
    ensures b <= 0.0 ==> Charge(l, s, tokens, b) == ProviderReward(l, s, tokens)
    ensures a >= ACTIVITY_CEILING ==> Charge(l, s, tokens, a) == ConsumerCost(l, s, tokens)
  {
    CostNonNegative(l, s, tokens);
    DiscountMonotone(a, b);
    assert b <= 0.0 ==> ActivityDiscount(b) == 1.0 - HOUSE_EDGE;
    assert a >= ACTIVITY_CEILING ==> ActivityDiscount(a) == 1.0;
    hide ConsumerCost, ActivityDiscount, Portion;
    FloorNeverBinds(l, s, tokens, a);
    FloorNeverBinds(l, s, tokens, b);
    PortionMonotone(ConsumerCost(l, s, tokens), ActivityDiscount(a), ActivityDiscount(b));
    WholePortion(ConsumerCost(l, s, tokens));
  }

  lemma TokensScale(t: int, u: int, perK: real)
    requires t < u && perK >= 0.25
    ensures t as real / 1000.0 * perK * 10000.0 + 2.5 <= u as real / 1000.0 * perK * 10000.0
  {
    var x, y := t as real, u as real;
    assert x / 1000.0 * perK * 10000.0 == x * perK * 10.0 && y / 1000.0 * perK * 10000.0 == y * perK * 10.0;
    assert (y - x) * perK >= perK;
  }

  lemma RoundApart(x: real, y: real)
    requires 0.0 <= x && x + 1.0 <= y
    ensures Round(x) < Round(y)
  {}

  /** Every further token costs more. */
  lemma EveryTokenCosts(l: Lane, s: Sensitivity, t: nat, u: nat)
    requires 0 < t < u
    ensures ConsumerCost(l, s, t) < ConsumerCost(l, s, u)
  {
    TokensTimes(t, PerK(l, s));
    TokensScale(t, u, PerK(l, s));
    RoundApart(t as real / 1000.0 * PerK(l, s) * 10000.0, u as real / 1000.0 * PerK(l, s) * 10000.0);
  }

  lemma CostMonotone(l: Lane, s: Sensitivity, t: int, u: int)
    requires t <= u
    ensures ConsumerCost(l, s, t) <= ConsumerCost(l, s, u)
  {
    CostNonNegative(l, s, u);
    if 0 < t < u {
      EveryTokenCosts(l, s, t, u);
    }
  }

  lemma PortionOfMore(a: int, b: int, d: real)
    requires 0 <= a <= b && 0.0 <= d
    ensures Portion(a, d) <= Portion(b, d)
  {
    assert (b as real - a as real) * d >= 0.0;
    RoundMonotone(a as real * d, b as real * d);
  }

  /** At one level of activity more tokens are never charged less. */
  lemma ChargeMonotone(l: Lane, s: Sensitivity, t: int, u: int, b: real)
    requires t <= u
    ensures Charge(l, s, t, b) <= Charge(l, s, u, b)
  {
    CostMonotone(l, s, t, u);
    CostNonNegative(l, s, t);
    DiscountRange(b);
    hide ConsumerCost, ActivityDiscount, Portion;
    FloorNeverBinds(l, s, t, b);
    FloorNeverBinds(l, s, u, b);
    PortionOfMore(ConsumerCost(l, s, t), ConsumerCost(l, s, u), ActivityDiscount(b));
  }
}
