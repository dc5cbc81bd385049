/** How much a deposit pays out: decimals conversion, rate, fee bounds and base-fee adjustment. */
module SwapValue {
  import opened Options

  const CONFIG_DECIMALS: nat := 18
  const MILLION: int := 1000000
  const UINT64: int := 0x1_0000_0000_0000_0000

  datatype FeeConfig = FeeConfig(maximum: int, minimum: int, rate: nat)

  /** Extra fee configured on the source chain. */
  datatype SourceFee = SourceFee(rate: nat, minimum: int, maximum: int)

  /** Everything the payout of a deposit depends on, besides its value. */
  datatype Setting = Setting(isERC20: bool, feeConfig: Option<FeeConfig>, source: Option<SourceFee>,
                             whitelisted: bool, baseFeePercent: int, fromDecimals: nat, toDecimals: nat)

  function Pow10(n: nat): (p: int)
    ensures p > 0
  {
    if n == 0 then 1 else 10 * Pow10(n - 1)
  }

  function Convert(value: int, from: nat, to: nat): int {
    if from == to then value
    else if from > to then value / Pow10(from - to)
    else value * Pow10(to - from)
  }

  function Max(a: int, b: int): int { if a < b then b else a }

  // ---------------------------------------------------------------- what the code must compute

  predicate IsFixed(c: FeeConfig) {
    c.minimum > 0 && c.minimum == c.maximum
  }

  function Rate(c: FeeConfig, s: Option<SourceFee>): nat {
    var own := if IsFixed(c) then 0 else c.rate;
    if s.Some? then (own + s.value.rate) % UINT64 else own
  }

  function MinimumFee(c: FeeConfig, s: Option<SourceFee>): int {
    if s.Some? then Max(c.minimum, s.value.minimum) else c.minimum
  }

  function MaximumFee(c: FeeConfig, s: Option<SourceFee>): int {
    if s.Some? then Max(c.maximum, s.value.maximum) else c.maximum
  }

  predicate IsCharged(c: FeeConfig, s: Option<SourceFee>) {
    Rate(c, s) > 0 || IsFixed(c)
  }

  function Clamp(x: int, lo: int, hi: int): int {
    if x < lo then lo else if x > hi then hi else x
  }

  /** The fee by rate, before the bounds. */
  function RawFee(c: FeeConfig, s: Option<SourceFee>, decimals: nat, value: int): int {
    var byRate := value * Rate(c, s) / MILLION;
    if IsFixed(c) then Max(byRate, Convert(c.minimum, CONFIG_DECIMALS, decimals)) else byRate
  }

  /** The bounds of the fee in the decimals of the deposit. */
  function Lowest(p: Setting, c: FeeConfig): int {
    Convert(MinimumFee(c, p.source), CONFIG_DECIMALS, p.fromDecimals)
  }

  function Highest(p: Setting, c: FeeConfig): int {
    Convert(MaximumFee(c, p.source), CONFIG_DECIMALS, p.fromDecimals)
  }

  /** The fee between its bounds, before the base-fee adjustment. */
  function BoundedFee(p: Setting, c: FeeConfig, value: int): int {
    if p.whitelisted then Lowest(p, c)
    else Clamp(RawFee(c, p.source, p.fromDecimals, value), Lowest(p, c), Highest(p, c))
  }

  /** The percentage of the minimum fee that is added, or taken off if negative. */
  function Adjustment(p: Setting, c: FeeConfig): int {
    if p.whitelisted || Lowest(p, c) <= 0 then 0 else Lowest(p, c) * p.baseFeePercent / 100
  }

  predicate IsAdjusted(p: Setting, c: FeeConfig) {
    !p.whitelisted && p.baseFeePercent != 0 && Lowest(p, c) > 0
  }

  function Fee(p: Setting, c: FeeConfig, value: int): int {
    if IsAdjusted(p, c) then Max(0, BoundedFee(p, c, value) + Adjustment(p, c)) else BoundedFee(p, c, value)
  }

  function Payout(p: Setting, value: int): int {
    if !p.isERC20 then value
    else if p.feeConfig.None? then 0
    else if !IsCharged(p.feeConfig.value, p.source) then Convert(value, p.fromDecimals, p.toDecimals)
    else if value <= Fee(p, p.feeConfig.value, value) then 0
    else Convert(value - Fee(p, p.feeConfig.value, value), p.fromDecimals, p.toDecimals)
  }

  // ---------------------------------------------------------------- the code

  method CalcSwapValue(p: Setting, value: int) returns (result: int)
    ensures result == Payout(p, value)
    ensures !p.isERC20 ==> result == value
    ensures p.isERC20 && p.feeConfig.None? ==> result == 0
  {
    if !p.isERC20 {
      return value;
    }
    if p.feeConfig.None? {
      return 0;
    }
    var feeCfg := p.feeConfig.value;
    var rate, minimumSwapFee, maximumSwapFee := feeCfg.rate, feeCfg.minimum, feeCfg.maximum;
    var useFixedFee := minimumSwapFee > 0 && minimumSwapFee == maximumSwapFee;
    if useFixedFee {
      rate := 0;
    }
    if p.source.Some? {
      rate := (rate + p.source.value.rate) % UINT64;
      minimumSwapFee := Max(feeCfg.minimum, p.source.value.minimum);
      maximumSwapFee := Max(feeCfg.maximum, p.source.value.maximum);
    }
    var valueLeft := value;
    if rate > 0 || useFixedFee {
      var swapFee;
      var minSwapFee := Convert(minimumSwapFee, CONFIG_DECIMALS, p.fromDecimals);
      if p.whitelisted {
        swapFee := minSwapFee;
      } else {
        if rate > 0 {
          swapFee := value * rate;
          swapFee := swapFee / MILLION;
        } else {
          swapFee := 0;
        }
        if useFixedFee {
          swapFee := Max(swapFee, Convert(feeCfg.minimum, CONFIG_DECIMALS, p.fromDecimals));
        }
        assert swapFee == RawFee(feeCfg, p.source, p.fromDecimals, value);
        if swapFee < minSwapFee {
          swapFee := minSwapFee;
        } else {
          var maxSwapFee := Convert(maximumSwapFee, CONFIG_DECIMALS, p.fromDecimals);
          if swapFee > maxSwapFee {
            swapFee := maxSwapFee;
          }
        }
        if p.baseFeePercent != 0 && minSwapFee > 0 {
          var adjustBaseFee := minSwapFee;
          adjustBaseFee := adjustBaseFee * p.baseFeePercent;
          adjustBaseFee := adjustBaseFee / 100;
          swapFee := swapFee + adjustBaseFee;
          if swapFee < 0 {
            swapFee := 0;
          }
        }
      }
      if value <= swapFee {
        return 0;
      }
      valueLeft := value - swapFee;
    }
    result := Convert(valueLeft, p.fromDecimals, p.toDecimals);
  }

  // ---------------------------------------------------------------- arithmetic

  lemma {:induction false} MulStep(a: int, b: int, d: int)
    requires d > 0 && a < b
    ensures a * d + d <= b * d
    decreases b - a
  {
    assert (b - 1) * d + d == b * d;
    if a + 1 < b { MulStep(a, b - 1, d); }
  }

  lemma DivMonotone(x: int, y: int, d: int)
    requires d > 0 && x <= y
    ensures x / d <= y / d
  {
    var p, q := x / d, y / d;
    assert x == p * d + x % d;
    assert y == q * d + y % d;
    if q < p { MulStep(q, p, d); }
  }

  lemma DivAtMost(x: int, d: int, q: int)
    requires d > 0
    ensures x / d <= q <==> x <= (q + 1) * d - 1
    ensures x / d >= q <==> x >= q * d
  {
    var p := x / d;
    assert x == p * d + x % d;
    if p <= q { if p < q { MulStep(p, q, d); } } else { MulStep(q, p, d); }
  }

  lemma ConvertMonotone(x: int, y: int, from: nat, to: nat)
    requires x <= y
    ensures Convert(x, from, to) <= Convert(y, from, to)
    ensures x >= 0 ==> Convert(x, from, to) >= 0
  {
    if from > to {
      DivMonotone(x, y, Pow10(from - to));
      if x >= 0 { DivMonotone(0, x, Pow10(from - to)); }
    } else if from < to {
      assert x * Pow10(to - from) <= y * Pow10(to - from);
      if x >= 0 { assert 0 * Pow10(to - from) <= x * Pow10(to - from); }
    }
  }

  /** A rate of at most one never takes more from a further unit than that unit. */
  lemma RateIsNoMoreThanOne(x: int, y: int, rate: nat)
    requires x <= y && rate <= MILLION
    ensures y * rate / MILLION - x * rate / MILLION <= y - x
  {
    assert (y - x) * rate <= (y - x) * MILLION;
    assert y * rate == x * rate + (y - x) * rate;
    DivMonotone(y * rate, x * rate + (y - x) * MILLION, MILLION);
    assert (x * rate + (y - x) * MILLION) / MILLION == x * rate / MILLION + (y - x);
  }

  lemma RateAtLeastOne(x: int, rate: nat)
    requires x >= 0 && rate >= MILLION
    ensures x * rate / MILLION >= x
  {
    assert x * MILLION <= x * rate;
    DivMonotone(x * MILLION, x * rate, MILLION);
  }

  // ---------------------------------------------------------------- what a conversion computes

  lemma {:induction false} Pow10Adds(m: nat, n: nat)
    ensures Pow10(m + n) == Pow10(m) * Pow10(n)
  {
    if n > 0 {
      Pow10Adds(m, n - 1);
      assert Pow10(m + n) == 10 * (Pow10(m) * Pow10(n - 1)) == Pow10(m) * (10 * Pow10(n - 1));
    }
  }

  /** One decimal more is a factor of ten; one less takes the last digit off. */
  lemma OneDecimal(x: int, d: nat)
    ensures Convert(x, d, d) == x
    ensures Convert(x, d, d + 1) == 10 * x
    ensures 10 * Convert(x, d + 1, d) <= x < 10 * (Convert(x, d + 1, d) + 1)
  {
    assert Pow10(1) == 10 * Pow10(0) == 10;
  }

  /** Converting upwards in two steps is converting at once. */
  lemma ConvertUpComposes(x: int, a: nat, b: nat, c: nat)
    requires a <= b <= c
    ensures Convert(Convert(x, a, b), b, c) == Convert(x, a, c)
  {
    Pow10Adds(b - a, c - b);
    assert x * Pow10(b - a) * Pow10(c - b) == x * (Pow10(b - a) * Pow10(c - b));
    if a == b || b == c { assert Pow10(0) == 1; }
  }

  /** Nothing is lost upwards and back. */
  lemma ConvertUpAndDown(x: int, a: nat, b: nat)
    requires a <= b
    ensures Convert(Convert(x, a, b), b, a) == x
  {
    var t := Pow10(b - a);
    DivAtMost(x * t, t, x);
    if a < b { assert (x + 1) * t - 1 == x * t + t - 1; }
  }

  /** Downwards the remainder is dropped: converted back up, less than one unit is missing. */
  lemma ConvertDownIsFloor(x: int, a: nat, b: nat)
    requires a >= b
    ensures Convert(Convert(x, a, b), b, a) <= x < Convert(Convert(x, a, b) + 1, b, a)
  {
    if a > b {
      var t := Pow10(a - b);
      DivAtMost(x, t, x / t);
      assert (x / t + 1) * t == x / t * t + t;
    }
  }

  // ---------------------------------------------------------------- what is charged

  /** The terms in force: the larger bound of config and source chain, and the sum of the rates. */
  lemma TermsInForce(c: FeeConfig, s: Option<SourceFee>)
    ensures s.None? ==> MinimumFee(c, s) == c.minimum && MaximumFee(c, s) == c.maximum
    ensures s.Some? ==> MinimumFee(c, s) >= c.minimum && MinimumFee(c, s) >= s.value.minimum && MinimumFee(c, s) in {c.minimum, s.value.minimum}
    ensures s.Some? ==> MaximumFee(c, s) >= c.maximum && MaximumFee(c, s) >= s.value.maximum && MaximumFee(c, s) in {c.maximum, s.value.maximum}
    ensures s.None? && !(0 < c.minimum == c.maximum) ==> Rate(c, s) == c.rate
    ensures s.None? && 0 < c.minimum == c.maximum ==> Rate(c, s) == 0
    ensures s.Some? && !(0 < c.minimum == c.maximum) && c.rate + s.value.rate < 0x1_0000_0000_0000_0000 ==> Rate(c, s) == c.rate + s.value.rate
    ensures s.Some? && 0 < c.minimum == c.maximum && s.value.rate < 0x1_0000_0000_0000_0000 ==> Rate(c, s) == s.value.rate
  {
  }

  /** A whitelisted caller pays exactly the converted minimum, whatever the value and the base fee. */
  lemma WhitelistedPaysMinimum(p: Setting, c: FeeConfig, value: int)
    requires p.whitelisted
    ensures Fee(p, c, value) == Convert(MinimumFee(c, p.source), 18, p.fromDecimals)
  {
  }

  /** A fixed fee is charged as configured if the source chain adds no rate and no higher minimum. */
  lemma FixedFeeIsCharged(p: Setting, c: FeeConfig, value: int)
    requires 0 < c.minimum == c.maximum && !p.whitelisted && p.baseFeePercent == 0
    requires p.source.None? || (p.source.value.rate == 0 && p.source.value.minimum <= c.minimum)
    ensures Fee(p, c, value) == Convert(c.minimum, 18, p.fromDecimals)
  {
    if p.source.Some? { ConvertMonotone(c.maximum, MaximumFee(c, p.source), CONFIG_DECIMALS, p.fromDecimals); }
  }

  /**
    A fee without adjustment, fixed or proportional: by the rate in force, rounded down, wherever
    that lies between the bounds; otherwise the bound it crosses.
   */
  lemma FeeIsByRate(p: Setting, c: FeeConfig, value: int)
    requires !p.whitelisted && p.baseFeePercent == 0
    ensures var f, lo, hi := Fee(p, c, value), Convert(MinimumFee(c, p.source), 18, p.fromDecimals), Convert(MaximumFee(c, p.source), 18, p.fromDecimals);
            var due := value * Rate(c, p.source);
            && (due < lo * 1000000 ==> f == lo)
            && (due >= lo * 1000000 && due >= (hi + 1) * 1000000 ==> f == hi)
            && (lo * 1000000 <= due < (hi + 1) * 1000000 ==> f * 1000000 <= due < (f + 1) * 1000000)
  {
    var lo, hi := Lowest(p, c), Highest(p, c);
    DivAtMost(value * Rate(c, p.source), MILLION, lo);
    DivAtMost(value * Rate(c, p.source), MILLION, hi);
    DivAtMost(value * Rate(c, p.source), MILLION, value * Rate(c, p.source) / MILLION);
    if IsFixed(c) {
      ConvertMonotone(c.minimum, MinimumFee(c, p.source), CONFIG_DECIMALS, p.fromDecimals);
      ConvertMonotone(c.maximum, MaximumFee(c, p.source), CONFIG_DECIMALS, p.fromDecimals);
    }
  }

  /** The base fee adds the stated percentage of the minimum, rounded down, and a fee below zero counts as none. */
  lemma AdjustmentIsPercentage(p: Setting, c: FeeConfig, value: int)
    requires !p.whitelisted && Convert(MinimumFee(c, p.source), 18, p.fromDecimals) > 0
    ensures var lo := Convert(MinimumFee(c, p.source), 18, p.fromDecimals);
            var plain := Fee(p.(baseFeePercent := 0), c, value);
            exists a :: a * 100 <= lo * p.baseFeePercent < (a + 1) * 100 &&
                        Fee(p, c, value) == if p.baseFeePercent == 0 || plain + a >= 0 then plain + a else 0
  {
    var lo := Lowest(p, c);
    var a := Adjustment(p, c);
    DivAtMost(lo * p.baseFeePercent, 100, a);
    assert a * 100 <= lo * p.baseFeePercent < (a + 1) * 100;
  }

  /** What is left after the fee is paid out in the decimals of the destination, nothing if the fee takes it all. */
  lemma PayoutIsRest(p: Setting, c: FeeConfig, value: int)
    requires p.isERC20 && p.feeConfig == Some(c)
    ensures Rate(c, p.source) == 0 && !(0 < c.minimum == c.maximum) ==>
              Payout(p, value) == Convert(value, p.fromDecimals, p.toDecimals)
    ensures Rate(c, p.source) > 0 || 0 < c.minimum == c.maximum ==>
              Payout(p, value) == if value > Fee(p, c, value) then Convert(value - Fee(p, c, value), p.fromDecimals, p.toDecimals) else 0
  {
  }

  /** One token of 6 decimals without a fee is one token of 18 decimals. */
  lemma OneTokenStaysOneToken()
    ensures var p := Setting(true, Some(FeeConfig(0, 0, 0)), None, false, 0, 6, 18);
            Payout(p, 1000000) == 1000000000000000000
  {
    var p := Setting(true, Some(FeeConfig(0, 0, 0)), None, false, 0, 6, 18);
    Pow10Adds(6, 6);
    assert Pow10(3) == 1000;
    Pow10Adds(3, 3);
    assert Pow10(12) == 1000000000000;
  }

  // ---------------------------------------------------------------- a larger deposit never pays less

  lemma RateFeeGrows(x: int, y: int, rate: nat)
    requires x <= y
    ensures x * rate / MILLION <= y * rate / MILLION
    ensures rate <= MILLION ==> y * rate / MILLION - x * rate / MILLION <= y - x
  {
    assert x * rate <= y * rate;
    DivMonotone(x * rate, y * rate, MILLION);
    if rate <= MILLION { RateIsNoMoreThanOne(x, y, rate); }
  }

  lemma RawFeeGrows(c: FeeConfig, s: Option<SourceFee>, decimals: nat, x: int, y: int)
    requires x <= y
    ensures RawFee(c, s, decimals, x) <= RawFee(c, s, decimals, y)
    ensures Rate(c, s) <= MILLION ==> RawFee(c, s, decimals, y) - RawFee(c, s, decimals, x) <= y - x
  {
    RateFeeGrows(x, y, Rate(c, s));
  }

  /** What is left after the fee, for a rate of at most one, whatever the bounds and the adjustment. */
  lemma RestGrows(p: Setting, c: FeeConfig, x: int, y: int)
    requires x <= y && Rate(c, p.source) <= MILLION
    ensures x - Fee(p, c, x) <= y - Fee(p, c, y)
  {
    RawFeeGrows(c, p.source, p.fromDecimals, x, y);
  }

  /** For a higher rate a deposit pays at all only once its fee has reached the maximum. */
  lemma RestGrowsAboveOne(p: Setting, c: FeeConfig, x: int, y: int)
    requires 0 <= x <= y && Rate(c, p.source) >= MILLION && Adjustment(p, c) >= 0
    requires Fee(p, c, x) < x
    ensures x - Fee(p, c, x) <= y - Fee(p, c, y)
  {
    RawFeeGrows(c, p.source, p.fromDecimals, x, y);
    RateAtLeastOne(x, Rate(c, p.source));
  }

  /** Of what is left after the fee, more never pays less. */
  lemma MoreRestPaysMore(p: Setting, x: int, y: int)
    requires p.isERC20 && p.feeConfig.Some? && IsCharged(p.feeConfig.value, p.source)
    requires x <= Fee(p, p.feeConfig.value, x) || x - Fee(p, p.feeConfig.value, x) <= y - Fee(p, p.feeConfig.value, y)
    ensures Payout(p, x) <= Payout(p, y)
  {
    var c := p.feeConfig.value;
    if y > Fee(p, c, y) {
      ConvertMonotone(y - Fee(p, c, y), y - Fee(p, c, y), p.fromDecimals, p.toDecimals);
      if x > Fee(p, c, x) { ConvertMonotone(x - Fee(p, c, x), y - Fee(p, c, y), p.fromDecimals, p.toDecimals); }
    }
  }

  /** With the bounds crossed or equal the fee only ever falls. */
  lemma CrossedBoundsGrow(p: Setting, c: FeeConfig, x: int, y: int)
    requires x <= y && Lowest(p, c) >= Highest(p, c)
    ensures x - Fee(p, c, x) <= y - Fee(p, c, y)
  {
    RawFeeGrows(c, p.source, p.fromDecimals, x, y);
  }

  /**
    The payout is monotone in the deposit for every decimals pair, fixed or proportional fee,
    whitelist and bound setting, as long as the combined rate is at most one million, the
    base-fee adjustment takes nothing off, or the bounds leave no room between them.
   */
  lemma PayoutIsMonotone(p: Setting, x: int, y: int)
    requires 0 <= x <= y
    requires p.isERC20 && p.feeConfig.Some? ==> var c := p.feeConfig.value;
               Rate(c, p.source) <= MILLION || Adjustment(p, c) >= 0 || Lowest(p, c) >= Highest(p, c)
    ensures Payout(p, x) <= Payout(p, y)
  {
    if p.isERC20 && p.feeConfig.Some? {
      var c := p.feeConfig.value;
      if !IsCharged(c, p.source) {
        ConvertMonotone(x, y, p.fromDecimals, p.toDecimals);
      } else {
        if Rate(c, p.source) <= MILLION {
          RestGrows(p, c, x, y);
        } else if Lowest(p, c) >= Highest(p, c) {
          CrossedBoundsGrow(p, c, x, y);
        } else if Fee(p, c, x) < x {
          RestGrowsAboveOne(p, c, x, y);
        }
        MoreRestPaysMore(p, x, y);
      }
    }
  }

  /** Beyond these limits it can fail: a combined rate of two with a base fee of minus 90 percent. */
  lemma HighRateWithRebateIsNotMonotone()
    ensures var p := Setting(true, Some(FeeConfig(1000, 100, 500000)), Some(SourceFee(1500000, 0, 0)), false, -90, 18, 18);
            Payout(p, 60) < Payout(p, 50)
  {
  }

  // ---------------------------------------------------------------- exactly when a larger deposit never pays less

  /** The settings beyond these limits: a rate above one, a rebate, and room between the bounds. */
  predicate CanDip(p: Setting, c: FeeConfig) {
    Rate(c, p.source) > MILLION && Adjustment(p, c) < 0 && Lowest(p, c) < Highest(p, c)
  }

  /** The last deposit whose fee by rate is at most the lower bound. */
  function LastAtLowest(p: Setting, c: FeeConfig): int
    requires Rate(c, p.source) > 0
  {
    ((Lowest(p, c) + 1) * MILLION - 1) / Rate(c, p.source)
  }

  /** The first deposit whose fee by rate is at least the upper bound. */
  function FirstAtHighest(p: Setting, c: FeeConfig): int
    requires Rate(c, p.source) > 0
  {
    (Highest(p, c) * MILLION + Rate(c, p.source) - 1) / Rate(c, p.source)
  }

  lemma AtLowestUpTo(p: Setting, c: FeeConfig, x: int)
    requires Rate(c, p.source) > 0
    ensures x <= LastAtLowest(p, c) <==> x * Rate(c, p.source) / MILLION <= Lowest(p, c)
  {
    var r, top := Rate(c, p.source), (Lowest(p, c) + 1) * MILLION - 1;
    DivAtMost(x * r, MILLION, Lowest(p, c));
    DivAtMost(top, r, x);
  }

  lemma AtHighestFrom(p: Setting, c: FeeConfig, x: int)
    requires Rate(c, p.source) > 0
    ensures x >= FirstAtHighest(p, c) <==> x * Rate(c, p.source) / MILLION >= Highest(p, c)
  {
    var r, bottom := Rate(c, p.source), Highest(p, c) * MILLION;
    DivAtMost(x * r, MILLION, Highest(p, c));
    DivAtMost(bottom + r - 1, r, x);
    assert (x + 1) * r - 1 == x * r + r - 1;
  }

  /** The fee of a setting that can dip: the lowest, then by rate, then the highest. */
  lemma FeeInThreeParts(p: Setting, c: FeeConfig, x: int)
    requires CanDip(p, c) && p.baseFeePercent >= -100
    ensures Lowest(p, c) + Adjustment(p, c) >= 0
    ensures Fee(p, c, x) == Clamp(x * Rate(c, p.source) / MILLION, Lowest(p, c), Highest(p, c)) + Adjustment(p, c)
  {
    RebateIsAtMostTheFee(Lowest(p, c), p.baseFeePercent);
    if IsFixed(c) { ConvertMonotone(c.minimum, MinimumFee(c, p.source), CONFIG_DECIMALS, p.fromDecimals); }
  }

  /** A rate of at least one takes at least a unit from a further unit. */
  lemma RateTakesEachUnit(x: int, y: int, rate: nat)
    requires x <= y && rate >= MILLION
    ensures y * rate / MILLION - x * rate / MILLION >= y - x
  {
    assert (y - x) * MILLION <= (y - x) * rate;
    assert y * rate == x * rate + (y - x) * rate;
    DivMonotone(x * rate + (y - x) * MILLION, y * rate, MILLION);
    assert (x * rate + (y - x) * MILLION) / MILLION == x * rate / MILLION + (y - x);
  }

  /** Up to the first point and from the second on the rest grows; in between it falls. */
  lemma RestDips(p: Setting, c: FeeConfig, x: int, y: int)
    requires CanDip(p, c) && p.baseFeePercent >= -100 && x <= y
    ensures y <= LastAtLowest(p, c) || FirstAtHighest(p, c) <= x ==> x - Fee(p, c, x) <= y - Fee(p, c, y)
    ensures LastAtLowest(p, c) <= x && y <= FirstAtHighest(p, c) ==> y - Fee(p, c, y) <= x - Fee(p, c, x)
  {
    var r, x0, x1 := Rate(c, p.source), LastAtLowest(p, c), FirstAtHighest(p, c);
    FeeInThreeParts(p, c, x);
    FeeInThreeParts(p, c, y);
    AtLowestUpTo(p, c, x);
    AtLowestUpTo(p, c, y);
    AtHighestFrom(p, c, x);
    AtHighestFrom(p, c, y);
    if x0 <= x < y <= x1 {
      // from the point after x to the point before y the fee is by rate
      AtLowestUpTo(p, c, x + 1);
      AtHighestFrom(p, c, y - 1);
      RateTakesEachUnit(x, y, r);
      RateTakesEachUnit(x + 1, y, r);
      RateTakesEachUnit(x, y - 1, r);
      if x + 1 < y { RateTakesEachUnit(x + 1, y - 1, r); }
    }
  }

  /** What a caller can compute of a setting to know whether its payouts are monotone. */
  predicate NeverDips(p: Setting) {
    p.isERC20 && p.feeConfig.Some? && CanDip(p, p.feeConfig.value) ==>
      Payout(p, LastAtLowest(p, p.feeConfig.value)) <= Payout(p, FirstAtHighest(p, p.feeConfig.value))
  }

  lemma LevelPayoutIsMonotone(p: Setting, x: int, y: int)
    requires p.isERC20 && p.feeConfig.Some? && CanDip(p, p.feeConfig.value) && p.baseFeePercent >= -100
    requires NeverDips(p) && 0 <= x <= y
    ensures Payout(p, x) <= Payout(p, y)
  {
    var c := p.feeConfig.value;
    var x0, x1 := LastAtLowest(p, c), FirstAtHighest(p, c);
    DipIsOrdered(p, c);
    if x <= x0 {
      var m := if y <= x0 then y else x0;
      RestDips(p, c, x, m);
      MoreRestPaysMore(p, x, m);
    }
    if x1 <= y {
      var m := if x1 <= x then x else x1;
      RestDips(p, c, m, y);
      MoreRestPaysMore(p, m, y);
    }
    if x0 <= x <= x1 { RestDips(p, c, x0, x); MoreRestPaysMore(p, x, x0); }
    if x0 <= y <= x1 { RestDips(p, c, y, x1); MoreRestPaysMore(p, x1, y); }
  }

  lemma DipIsOrdered(p: Setting, c: FeeConfig)
    requires CanDip(p, c)
    ensures 0 <= LastAtLowest(p, c) < FirstAtHighest(p, c)
  {
    AtLowestUpTo(p, c, 0);
    AtLowestUpTo(p, c, LastAtLowest(p, c));
    AtHighestFrom(p, c, LastAtLowest(p, c));
  }

  /**
    For every setting whose base fee takes off at most the minimum fee: a larger deposit never
    pays less exactly if the payouts at the two ends of the dip do not fall.
   */
  lemma PayoutIsMonotoneIff(p: Setting)
    requires p.baseFeePercent >= -100
    ensures (forall x, y :: 0 <= x <= y ==> Payout(p, x) <= Payout(p, y)) <==> NeverDips(p)
  {
    if p.isERC20 && p.feeConfig.Some? && CanDip(p, p.feeConfig.value) {
      DipIsOrdered(p, p.feeConfig.value);
      if NeverDips(p) {
        forall x, y | 0 <= x <= y ensures Payout(p, x) <= Payout(p, y) { LevelPayoutIsMonotone(p, x, y); }
      }
    } else {
      forall x, y | 0 <= x <= y ensures Payout(p, x) <= Payout(p, y) { PayoutIsMonotone(p, x, y); }
    }
  }

  // ---------------------------------------------------------------- fees never create value

  /** The load-time check of a fee config. */
  predicate CheckConfig(c: FeeConfig) {
    && c.rate < MILLION
    && 0 <= c.minimum <= c.maximum
    && (c.rate == 0 ==> c.minimum == 0)
  }

  /** With that of the base-fee percentage. */
  predicate Checked(p: Setting, c: FeeConfig) {
    CheckConfig(c) && -90 <= p.baseFeePercent <= 500
  }

  lemma BoundsInOrder(p: Setting, c: FeeConfig)
    requires Checked(p, c) && MinimumFee(c, p.source) <= MaximumFee(c, p.source)
    ensures 0 <= Lowest(p, c) <= Highest(p, c)
  {
    ConvertMonotone(MinimumFee(c, p.source), MaximumFee(c, p.source), CONFIG_DECIMALS, p.fromDecimals);
  }

  lemma RebateIsAtMostTheFee(lo: int, percent: int)
    requires lo > 0 && percent >= -100
    ensures lo * percent / 100 >= -lo
  {
    assert lo * percent >= lo * -100;
    DivMonotone(lo * -100, lo * percent, 100);
    assert lo * -100 / 100 == -lo;
  }

  /**
    With the bounds in order the bounded fee lies between the converted minimum and maximum,
    and the adjusted fee is never negative.
   */
  lemma FeeStaysInBounds(p: Setting, c: FeeConfig, value: int)
    requires Checked(p, c) && MinimumFee(c, p.source) <= MaximumFee(c, p.source)
    ensures Lowest(p, c) <= BoundedFee(p, c, value) <= Highest(p, c)
    ensures IsAdjusted(p, c) ==> BoundedFee(p, c, value) + Adjustment(p, c) >= 0
    ensures Fee(p, c, value) >= 0
  {
    BoundsInOrder(p, c);
    if Lowest(p, c) > 0 { RebateIsAtMostTheFee(Lowest(p, c), p.baseFeePercent); }
  }

  /** The bridge fee shown to the receiver: the converted deposit less the payout. */
  function BridgeFee(p: Setting, value: int): int {
    Convert(value, p.fromDecimals, p.toDecimals) - Payout(p, value)
  }

  /** Whatever the rate, the bounds' order and the adjustment, a fee is never negative. */
  lemma FeeIsNotNegative(p: Setting, c: FeeConfig, value: int)
    requires c.minimum >= 0 && c.maximum >= 0
    ensures Fee(p, c, value) >= 0
  {
    ConvertMonotone(0, MinimumFee(c, p.source), CONFIG_DECIMALS, p.fromDecimals);
    ConvertMonotone(MinimumFee(c, p.source), MinimumFee(c, p.source), CONFIG_DECIMALS, p.fromDecimals);
    ConvertMonotone(MaximumFee(c, p.source), MaximumFee(c, p.source), CONFIG_DECIMALS, p.fromDecimals);
  }

  /**
    A payout of a token lies between zero and the converted deposit, so the bridge fee is never
    negative, for every source-chain fee and every base-fee percentage.
   */
  lemma FeesNeverCreateValue(p: Setting, value: int)
    requires value >= 0
    requires p.feeConfig.Some? ==> p.feeConfig.value.minimum >= 0 && p.feeConfig.value.maximum >= 0
    ensures p.isERC20 ==> 0 <= Payout(p, value) <= Convert(value, p.fromDecimals, p.toDecimals)
    ensures p.isERC20 ==> BridgeFee(p, value) >= 0
    ensures !p.isERC20 ==> Payout(p, value) == value
  {
    ConvertMonotone(value, value, p.fromDecimals, p.toDecimals);
    if p.isERC20 && p.feeConfig.Some? {
      var c := p.feeConfig.value;
      FeeIsNotNegative(p, c, value);
      if IsCharged(c, p.source) && value > Fee(p, c, value) {
        ConvertMonotone(value - Fee(p, c, value), value, p.fromDecimals, p.toDecimals);
      }
    }
  }

  /** The branch that resets a negative fee to zero is taken. */
  predicate IsReset(p: Setting, c: FeeConfig, value: int) {
    IsCharged(c, p.source) && IsAdjusted(p, c) && BoundedFee(p, c, value) + Adjustment(p, c) < 0
  }

  lemma ResetNeedsHighest(p: Setting, c: FeeConfig, value: int)
    requires Checked(p, c) && IsReset(p, c, value)
    ensures Rate(c, p.source) > 0 && Highest(p, c) + Adjustment(p, c) < 0
  {
    RebateIsAtMostTheFee(Lowest(p, c), p.baseFeePercent);
    if IsFixed(c) { ConvertMonotone(c.maximum, MaximumFee(c, p.source), CONFIG_DECIMALS, p.fromDecimals); }
  }

  lemma LargeByRate(lo: int, rate: int)
    requires lo > 0 && rate > 0
    ensures lo * MILLION * rate / MILLION >= lo
  {
    assert lo * MILLION * rate == lo * rate * MILLION;
    assert lo * rate >= lo;
    var x := lo * rate;
    assert x * MILLION / MILLION == x;
  }

  lemma LargeDepositIsReset(p: Setting, c: FeeConfig)
    requires Checked(p, c) && IsAdjusted(p, c) && Rate(c, p.source) > 0 && Highest(p, c) + Adjustment(p, c) < 0
    ensures IsReset(p, c, Lowest(p, c) * MILLION)
  {
    var lo := Lowest(p, c);
    RebateIsAtMostTheFee(lo, p.baseFeePercent);
    LargeByRate(lo, Rate(c, p.source));
    assert RawFee(c, p.source, p.fromDecimals, lo * MILLION) >= lo > Highest(p, c);
  }

  /**
    Under checked configs some deposit reaches the reset exactly if an adjustment applies, a
    rate is charged, and the adjustment takes off more than the converted maximum fee.
   */
  lemma ResetIsReachableIff(p: Setting, c: FeeConfig)
    requires Checked(p, c)
    ensures (exists value :: value >= 0 && IsReset(p, c, value)) <==>
            IsAdjusted(p, c) && Rate(c, p.source) > 0 && Highest(p, c) + Adjustment(p, c) < 0
  {
    if value :| value >= 0 && IsReset(p, c, value) { ResetNeedsHighest(p, c, value); }
    if IsAdjusted(p, c) && Rate(c, p.source) > 0 && Highest(p, c) + Adjustment(p, c) < 0 {
      LargeDepositIsReset(p, c);
      assert Lowest(p, c) * MILLION >= 0;
    }
  }

  /** It happens: the source chain, whose fee is not checked, sets a minimum above every maximum. */
  lemma ResetIsReachableWithCrossedBounds()
    ensures var c := FeeConfig(10, 1, 1000);
            var p := Setting(true, Some(c), Some(SourceFee(0, 100, 0)), false, -90, 18, 18);
            Checked(p, c) && IsReset(p, c, 100000)
  {
  }
}
