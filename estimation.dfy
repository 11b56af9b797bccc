/**
 * Extrapolation of a price for a level with no observation
 * (`Database.Elem.get_new_price_estimate`) and the combined price-and-payback
 * query (`get_price_info_with_payback`).
 */
module Estimation {
  import opened Wrappers
  import opened Decimals
  import opened Prices
  import opened Sequences

  lemma PositiveProduct(a: real, b: real)
    requires a > 0.0 && b >= 1.0
    ensures a * b > 0.0
  {
  }

  /** A positive recorded amount has a positive absolute value. */
  lemma ValuePositive(p: Price)
    requires p.amount > 0.0
    ensures Value(p) > 0.0
  {
    Pow10Positive(p.unit.exp);
    PositiveProduct(p.amount, Pow10(p.unit.exp));
  }

  lemma QuotientPositive(a: real, b: real)
    requires a > 0.0 && b > 0.0
    ensures a / b > 0.0
  {
    DivDef(a, b);
  }

  // ----- calculate_multiplier -----

  /** Some price of the lower level has a discount also observed at the upper level. */
  predicate Shares(lower: seq<Price>, upper: seq<Price>)
  {
    exists k :: 0 <= k < |lower| && FindDiscount(upper, lower[k].discount).Some?
  }

  /**
   * For every discount observed at both levels, the upper level's price over
   * the lower level's (the program walks a set of discounts; the mean of the
   * ratios does not depend on the order).
   */
  function PairRatios(lower: seq<Price>, upper: seq<Price>): (r: seq<real>)
    requires forall k :: 0 <= k < |lower| ==> lower[k].amount > 0.0
    requires forall k :: 0 <= k < |upper| ==> upper[k].amount > 0.0
    ensures forall j :: 0 <= j < |r| ==> r[j] > 0.0
    ensures |r| > 0 <==> Shares(lower, upper)
  {
    if lower == [] then []
    else
      var rest := PairRatios(lower[1..], upper);
      assert forall k :: 0 < k < |lower| ==> lower[k] == lower[1..][k - 1];
      match FindDiscount(upper, lower[0].discount)
      case None =>
        assert Shares(lower, upper) ==> Shares(lower[1..], upper) by {
          if Shares(lower, upper) {
            var k :| 0 <= k < |lower| && FindDiscount(upper, lower[k].discount).Some?;
            assert FindDiscount(upper, lower[1..][k - 1].discount).Some?;
          }
        }
        rest
      case Some(q) =>
        var p := lower[0];
        assert q in upper;
        ValuePositive(p);
        ValuePositive(q);
        QuotientPositive(Value(q), Value(p));
        [Ratio(p, q)] + rest
  }

  /** The ratio of an upper-level price to the lower-level price observed at the same discount. */
  function Ratio(lower: Price, upper: Price): real
    requires lower.amount > 0.0
  {
    ValuePositive(lower);
    Value(upper) / Value(lower)
  }

  /** The lower level's k-th price has a partner at the same discount in the upper level. */
  predicate SharedAt(lower: seq<Price>, upper: seq<Price>, k: int)
  {
    0 <= k < |lower| && FindDiscount(upper, lower[k].discount).Some?
  }

  /** The ratio the lower level's k-th price contributes when it has a partner. */
  function SharedRatio(lower: seq<Price>, upper: seq<Price>, k: int): real
    requires SharedAt(lower, upper, k) && lower[k].amount > 0.0
  {
    Ratio(lower[k], FindDiscount(upper, lower[k].discount).value)
  }

  /**
   * `r` holds one ratio per lower-level price that has a partner, in the
   * lower level's order: `ks` lists those prices' positions.
   */
  ghost predicate RatiosOf(lower: seq<Price>, upper: seq<Price>, ks: seq<int>, r: seq<real>)
    requires forall k :: 0 <= k < |lower| ==> lower[k].amount > 0.0
  {
    && |ks| == |r|
    && (forall j :: 0 <= j < |ks| ==> SharedAt(lower, upper, ks[j]))
    && (forall j :: 0 <= j < |ks| ==> r[j] == SharedRatio(lower, upper, ks[j]))
    && Increasing(ks)
    && (forall k :: SharedAt(lower, upper, k) ==> k in ks)
  }

  predicate Increasing(ks: seq<int>)
  {
    forall i, j :: 0 <= i < j < |ks| ==> ks[i] < ks[j]
  }

  /** Positions moved one further on stay in order behind a new first position 0. */
  lemma ShiftIncreasing(ks: seq<int>)
    requires Increasing(ks) && forall j :: 0 <= j < |ks| ==> 0 <= ks[j]
    ensures Increasing([0] + Shift(ks))
  {
    var ks1 := [0] + Shift(ks);
    forall i, j | 0 <= i < j < |ks1| ensures ks1[i] < ks1[j] {
      assert ks1[j] == ks[j - 1] + 1;
      if i > 0 {
        assert ks1[i] == ks[i - 1] + 1;
      }
    }
  }

  /** Every position one further on. */
  function Shift(ks: seq<int>): (r: seq<int>)
    ensures |r| == |ks| && forall j :: 0 <= j < |ks| ==> r[j] == ks[j] + 1
  {
    seq(|ks|, j requires 0 <= j < |ks| => ks[j] + 1)
  }

  /** Dropping the first lower-level price moves every other one down one place. */
  lemma SharedShift(lower: seq<Price>, upper: seq<Price>, k: int)
    requires |lower| > 0 && 0 <= k
    requires forall i :: 0 <= i < |lower| ==> lower[i].amount > 0.0
    ensures SharedAt(lower, upper, k + 1) <==> SharedAt(lower[1..], upper, k)
    ensures SharedAt(lower, upper, k + 1) ==>
      SharedRatio(lower, upper, k + 1) == SharedRatio(lower[1..], upper, k)
  {
    if k + 1 < |lower| {
      assert lower[k + 1] == lower[1..][k];
    }
  }

  /** The ratios of all but the first price, when the first has no partner. */
  lemma RatiosSkip(lower: seq<Price>, upper: seq<Price>, ks: seq<int>, r: seq<real>)
    requires |lower| > 0 && !SharedAt(lower, upper, 0)
    requires forall i :: 0 <= i < |lower| ==> lower[i].amount > 0.0
    requires RatiosOf(lower[1..], upper, ks, r)
    ensures RatiosOf(lower, upper, Shift(ks), r)
  {
    var ks1 := Shift(ks);
    forall j | 0 <= j < |ks1|
      ensures SharedAt(lower, upper, ks1[j]) && r[j] == SharedRatio(lower, upper, ks1[j])
    {
      SharedShift(lower, upper, ks[j]);
    }
    forall k | SharedAt(lower, upper, k) ensures k in ks1 {
      SharedShift(lower, upper, k - 1);
      var j :| 0 <= j < |ks| && ks[j] == k - 1;
      assert ks1[j] == k;
    }
  }

  /** The ratios of all but the first price, after the first one's. */
  lemma RatiosKeep(lower: seq<Price>, upper: seq<Price>, ks: seq<int>, r: seq<real>)
    requires |lower| > 0 && SharedAt(lower, upper, 0)
    requires forall i :: 0 <= i < |lower| ==> lower[i].amount > 0.0
    requires RatiosOf(lower[1..], upper, ks, r)
    ensures RatiosOf(lower, upper, [0] + Shift(ks), [SharedRatio(lower, upper, 0)] + r)
  {
    var ks1, r1 := [0] + Shift(ks), [SharedRatio(lower, upper, 0)] + r;
    KeptPairs(lower, upper, ks, r, ks1, r1);
    ShiftIncreasing(ks);
    KeptComplete(lower, upper, ks, r, ks1);
  }

  /** Each kept position still pairs a shared discount with its ratio. */
  lemma KeptPairs(lower: seq<Price>, upper: seq<Price>, ks: seq<int>, r: seq<real>, ks1: seq<int>, r1: seq<real>)
    requires |lower| > 0 && SharedAt(lower, upper, 0)
    requires forall i :: 0 <= i < |lower| ==> lower[i].amount > 0.0
    requires RatiosOf(lower[1..], upper, ks, r)
    requires ks1 == [0] + Shift(ks) && r1 == [SharedRatio(lower, upper, 0)] + r
    ensures forall j :: 0 <= j < |ks1| ==> SharedAt(lower, upper, ks1[j]) && r1[j] == SharedRatio(lower, upper, ks1[j])
  {
    forall j | 1 <= j < |ks1|
      ensures SharedAt(lower, upper, ks1[j]) && r1[j] == SharedRatio(lower, upper, ks1[j])
    {
      assert ks1[j] == ks[j - 1] + 1 && r1[j] == r[j - 1];
      SharedShift(lower, upper, ks[j - 1]);
    }
  }

  /** Every shared discount of the longer level is still kept. */
  lemma KeptComplete(lower: seq<Price>, upper: seq<Price>, ks: seq<int>, r: seq<real>, ks1: seq<int>)
    requires |lower| > 0 && SharedAt(lower, upper, 0)
    requires forall i :: 0 <= i < |lower| ==> lower[i].amount > 0.0
    requires RatiosOf(lower[1..], upper, ks, r)
    requires ks1 == [0] + Shift(ks)
    ensures forall k :: SharedAt(lower, upper, k) ==> k in ks1
  {
    forall k | SharedAt(lower, upper, k) ensures k in ks1 {
      if k > 0 {
        SharedShift(lower, upper, k - 1);
        var j :| 0 <= j < |ks| && ks[j] == k - 1;
        assert ks1[j + 1] == k;
      }
    }
  }

  /**
   * The ratios are exactly those of the discounts observed at both levels,
   * one per shared discount, in the lower level's order, each the upper
   * price over the lower one.
   */
  lemma {:induction false} PairRatiosPaired(lower: seq<Price>, upper: seq<Price>)
    requires forall k :: 0 <= k < |lower| ==> lower[k].amount > 0.0
    requires forall k :: 0 <= k < |upper| ==> upper[k].amount > 0.0
    ensures exists ks :: RatiosOf(lower, upper, ks, PairRatios(lower, upper))
  {
    if lower == [] {
      assert RatiosOf(lower, upper, [], PairRatios(lower, upper));
    } else {
      var tail := lower[1..];
      PairRatiosPaired(tail, upper);
      var ks :| RatiosOf(tail, upper, ks, PairRatios(tail, upper));
      if SharedAt(lower, upper, 0) {
        RatiosKeep(lower, upper, ks, PairRatios(tail, upper));
        assert PairRatios(lower, upper) == [SharedRatio(lower, upper, 0)] + PairRatios(tail, upper);
        assert RatiosOf(lower, upper, [0] + Shift(ks), PairRatios(lower, upper));
      } else {
        RatiosSkip(lower, upper, ks, PairRatios(tail, upper));
        assert PairRatios(lower, upper) == PairRatios(tail, upper);
        assert RatiosOf(lower, upper, Shift(ks), PairRatios(lower, upper));
      }
    }
  }

  /** Both levels L-1 and L have prices and share at least one discount. */
  predicate ContributingPair(e: ElemData, level: int)
  {
    HasLevel(e, level - 1) && HasLevel(e, level) &&
    Shares(FindLevel(e.prices, level - 1).value, FindLevel(e.prices, level).value)
  }

  /**
   * `calculate_multiplier(L-1, L)`: the mean ratio of the prices at L to those
   * at L-1 over their shared discounts; nothing when either level has no
   * prices or they share no discount.
   */
  function PairMultiplier(e: ElemData, level: int): (r: Option<real>)
    requires Sane(e)
    ensures r.Some? <==> ContributingPair(e, level)
    ensures r.Some? ==> r.value > 0.0
  {
    if !(HasLevel(e, level - 1) && HasLevel(e, level)) then None
    else
      var lower := FindLevel(e.prices, level - 1).value;
      var upper := FindLevel(e.prices, level).value;
      FoundLevelSane(e, level - 1);
      FoundLevelSane(e, level);
      var ratios := PairRatios(lower, upper);
      if ratios == [] then None
      else
        MeanPositive(ratios);
        Some(Mean(ratios))
  }

  // ----- get_levels / get_multipliers -----

  function MaxLevel(prices: seq<LevelPrices>): (m: int)
    requires |prices| > 0
    ensures forall i :: 0 <= i < |prices| ==> prices[i].level <= m
    ensures exists i :: 0 <= i < |prices| && prices[i].level == m
  {
    if |prices| == 1 then prices[0].level
    else
      var m := MaxLevel(prices[1..]);
      assert forall i :: 1 <= i < |prices| ==> prices[i] == prices[1..][i - 1];
      if prices[0].level >= m then prices[0].level else m
  }

  /**
   * One above the highest level `get_levels` yields: `last_level` when set,
   * else one above the highest recorded level; nothing when neither exists.
   */
  function ScanTop(e: ElemData): Option<int>
  {
    if e.lastLevel.Some? then Some(e.lastLevel.value)
    else if e.prices == [] then None
    else Some(MaxLevel(e.prices) + 1)
  }

  /** Level L is the upper level of a pair (L-1, L) that `get_level_pairs` yields. */
  predicate InScan(e: ElemData, level: int)
  {
    ScanTop(e).Some? && 1 <= level < ScanTop(e).value
  }

  /**
   * The first `k` multipliers found scanning pairs (L-1, L) downward from
   * upper level `level` to upper level 1.
   */
  function MultipliersFrom(e: ElemData, level: int, k: nat): (r: seq<real>)
    requires Sane(e)
    ensures |r| <= k
    ensures forall j :: 0 <= j < |r| ==> r[j] > 0.0
    decreases if level < 1 then 0 else level
  {
    if k == 0 || level < 1 then []
    else match PairMultiplier(e, level)
      case Some(m) => [m] + MultipliersFrom(e, level - 1, k - 1)
      case None => MultipliersFrom(e, level - 1, k)
  }

  /** The (at most five) multipliers `get_new_price_estimate` averages. */
  function Multipliers(e: ElemData): (r: seq<real>)
    requires Sane(e)
    ensures |r| <= 5
  {
    match ScanTop(e)
    case None => []
    case Some(top) => MultipliersFrom(e, top - 1, 5)
  }

  /**
   * The scan from `level` down: the first multiplier is that of the nearest
   * contributing pair (L-1, L) with L <= `level`, no pair between it and
   * `level` contributes, and the rest continue the scan below L with one
   * slot fewer.
   */
  lemma {:induction false} MultipliersFromFirst(e: ElemData, level: int, k: nat)
    requires Sane(e)
    ensures var r := MultipliersFrom(e, level, k);
      r != [] ==>
        exists l ::
          && 1 <= l <= level && k > 0
          && PairMultiplier(e, l) == Some(r[0])
          && (forall u :: l < u <= level ==> !ContributingPair(e, u))
          && r[1..] == MultipliersFrom(e, l - 1, k - 1)
    decreases if level < 1 then 0 else level
  {
    var r := MultipliersFrom(e, level, k);
    if k > 0 && level >= 1 {
      match PairMultiplier(e, level)
      case Some(m) =>
        assert r == [m] + MultipliersFrom(e, level - 1, k - 1);
        assert r[1..] == MultipliersFrom(e, level - 1, k - 1);
      case None =>
        MultipliersFromFirst(e, level - 1, k);
    }
  }

  /**
   * The scan from `level` down depends on nothing but the multipliers of the
   * pairs (L-1, L) with 1 <= L <= `level`.
   */
  lemma {:induction false} MultipliersFromFrame(e: ElemData, e': ElemData, level: int, k: nat)
    requires Sane(e) && Sane(e')
    requires forall l :: 1 <= l <= level ==> PairMultiplier(e, l) == PairMultiplier(e', l)
    ensures MultipliersFrom(e, level, k) == MultipliersFrom(e', level, k)
    decreases if level < 1 then 0 else level
  {
    if k > 0 && level >= 1 {
      MultipliersFromStep(e, level, k);
      MultipliersFromStep(e', level, k);
      var a := PairMultiplier(e, level);
      assert a == PairMultiplier(e', level);
      if a.Some? {
        MultipliersFromFrame(e, e', level - 1, k - 1);
        assert MultipliersFrom(e, level, k) == [a.value] + MultipliersFrom(e, level - 1, k - 1);
        assert MultipliersFrom(e', level, k) == [a.value] + MultipliersFrom(e', level - 1, k - 1);
      } else {
        MultipliersFromFrame(e, e', level - 1, k);
        assert MultipliersFrom(e, level, k) == MultipliersFrom(e, level - 1, k);
        assert MultipliersFrom(e', level, k) == MultipliersFrom(e', level - 1, k);
      }
    }
  }

  lemma MultipliersFromStep(e: ElemData, level: int, k: nat)
    requires Sane(e) && k > 0 && level >= 1
    ensures PairMultiplier(e, level).Some? ==>
      MultipliersFrom(e, level, k) == [PairMultiplier(e, level).value] + MultipliersFrom(e, level - 1, k - 1)
    ensures PairMultiplier(e, level).None? ==>
      MultipliersFrom(e, level, k) == MultipliersFrom(e, level - 1, k)
  {
  }

  lemma {:induction false} MultipliersFromEmpty(e: ElemData, level: int, k: nat)
    requires Sane(e) && k > 0
    ensures MultipliersFrom(e, level, k) == [] <==>
      forall l :: 1 <= l <= level ==> !ContributingPair(e, l)
    decreases if level < 1 then 0 else level
  {
    if level >= 1 {
      MultipliersFromEmpty(e, level - 1, k);
    }
  }

  /**
   * No multiplier is found exactly when no pair (L-1, L) in the scanned range
   * has two recorded levels sharing a discount.
   */
  lemma MultipliersEmpty(e: ElemData)
    requires Sane(e)
    ensures Multipliers(e) == [] <==> forall l :: InScan(e, l) ==> !ContributingPair(e, l)
  {
    if ScanTop(e).Some? {
      MultipliersFromEmpty(e, ScanTop(e).value - 1, 5);
    }
  }

  // ----- get_estimates -----

  function PowNat(m: real, n: nat): real
  {
    if n == 0 then 1.0 else m * PowNat(m, n - 1)
  }

  lemma {:induction false} PowNatPositive(m: real, n: nat)
    requires m > 0.0
    ensures PowNat(m, n) > 0.0
  {
    if n > 0 {
      PowNatPositive(m, n - 1);
      PositiveTimes(m, PowNat(m, n - 1));
    }
  }

  lemma PositiveTimes(a: real, b: real)
    requires a > 0.0 && b > 0.0
    ensures a * b > 0.0
  {
  }

  /** `m ** k` for an integer exponent, negative exponents giving reciprocals. */
  function Pow(m: real, k: int): real
    requires m > 0.0
  {
    if k >= 0 then PowNat(m, k)
    else
      PowNatPositive(m, -k);
      1.0 / PowNat(m, -k)
  }

  /** Every price at a level renormalised to `at` and scaled by `f`, in insertion order. */
  function ScaledValues(ps: seq<Price>, at: int, f: real): (r: seq<real>)
    requires forall k :: 0 <= k < |ps| ==> CanRenormalise(ps[k], at)
    ensures |r| == |ps|
    ensures forall k :: 0 <= k < |ps| ==> r[k] == ValueAt(ps[k], at) * f
  {
    seq(|ps|, k requires 0 <= k < |ps| => ValueAt(ps[k], at) * f)
  }

  /**
   * The estimates one recorded level contributes, given its level factor
   * `f`: its price at discount `d` when recorded, else every price of the
   * level renormalised to `d`, each scaled by `f`.
   */
  function ScaledEstimates(ps: seq<Price>, d: int, f: real): (r: seq<real>)
    requires forall k :: 0 <= k < |ps| ==> ps[k].discount != 100
    ensures |ps| > 0 ==> |r| > 0
  {
    match FindDiscount(ps, d)
    case Some(p) => [ValueAt(p, d) * f]
    case None => ScaledValues(ps, d, f)
  }

  /** The estimates of the level L recorded as `lp`, with the level factor `m^(level - L)`. */
  function LevelEstimates(lp: LevelPrices, level: int, d: int, m: real): (r: seq<real>)
    requires m > 0.0
    requires forall k :: 0 <= k < |lp.discounts| ==> lp.discounts[k].discount != 100
    ensures |lp.discounts| > 0 ==> |r| > 0
  {
    ScaledEstimates(lp.discounts, d, Pow(m, level - lp.level))
  }

  /** A level recorded at discount `d` contributes exactly that price, scaled by `m^(level - L)`. */
  lemma LevelEstimatesRecorded(lp: LevelPrices, level: int, d: int, m: real)
    requires m > 0.0
    requires forall k :: 0 <= k < |lp.discounts| ==> lp.discounts[k].discount != 100
    requires FindDiscount(lp.discounts, d).Some?
    ensures LevelEstimates(lp, level, d, m) ==
      [Value(FindDiscount(lp.discounts, d).value) * Pow(m, level - lp.level)]
  {
    var p, f := FindDiscount(lp.discounts, d).value, Pow(m, level - lp.level);
    var x, y := ValueAt(p, d) * f, Value(p) * f;
    assert x == y;
    var r := LevelEstimates(lp, level, d, m);
    assert |r| == 1 && r[0] == x;
    assert r == [y];
    assert y == Value(FindDiscount(lp.discounts, d).value) * Pow(m, level - lp.level);
  }

  /**
   * A level not recorded at discount `d` contributes each of its prices
   * renormalised to `d`, in insertion order, scaled by `m^(level - L)`
   * (`ScaledValues` states the values).
   */
  lemma LevelEstimatesRenormalised(lp: LevelPrices, level: int, d: int, m: real)
    requires m > 0.0
    requires forall k :: 0 <= k < |lp.discounts| ==> lp.discounts[k].discount != 100
    requires FindDiscount(lp.discounts, d).None?
    ensures LevelEstimates(lp, level, d, m) == ScaledValues(lp.discounts, d, Pow(m, level - lp.level))
  {
  }

  /** The level holds a price, and none observed at 100 percent off. */
  predicate EstimableLevel(lp: LevelPrices)
  {
    |lp.discounts| > 0 && forall k :: 0 <= k < |lp.discounts| ==> lp.discounts[k].discount != 100
  }

  /** Every level can be renormalised to any discount and contributes an estimate. */
  predicate Estimable(prices: seq<LevelPrices>)
  {
    forall i :: 0 <= i < |prices| ==> EstimableLevel(prices[i])
  }

  /** The estimates of every recorded level, visiting levels in reverse insertion order. */
  function EstimatesFrom(prices: seq<LevelPrices>, level: int, d: int, m: real): (r: seq<real>)
    requires m > 0.0 && Estimable(prices)
    ensures |prices| > 0 ==> |r| > 0
  {
    if prices == [] then []
    else
      var n := |prices| - 1;
      LevelEstimates(prices[n], level, d, m) + EstimatesFrom(prices[..n], level, d, m)
  }

  /**
   * The levels are visited newest first: the estimates of the levels filed
   * after `older` all come before those of `older`'s levels.
   */
  lemma {:induction false} EstimatesNewestFirst(older: seq<LevelPrices>, newer: seq<LevelPrices>, level: int, d: int, m: real)
    requires m > 0.0 && Estimable(older + newer)
    ensures Estimable(older) && Estimable(newer)
    ensures EstimatesFrom(older + newer, level, d, m) ==
      EstimatesFrom(newer, level, d, m) + EstimatesFrom(older, level, d, m)
    decreases |newer|
  {
    var all := older + newer;
    assert forall i :: 0 <= i < |older| ==> older[i] == all[i];
    assert forall i :: 0 <= i < |newer| ==> newer[i] == all[|older| + i];
    if newer == [] {
      assert all == older;
    } else {
      var n := |newer| - 1;
      var below := all[..|all| - 1];
      assert below == older + newer[..n];
      assert all[|all| - 1] == newer[n];
      EstimatesNewestFirst(older, newer[..n], level, d, m);
      EstimatesUnfold(all, level, d, m);
      EstimatesUnfold(newer, level, d, m);
      var top, rest, base := LevelEstimates(newer[n], level, d, m),
        EstimatesFrom(newer[..n], level, d, m), EstimatesFrom(older, level, d, m);
      assert EstimatesFrom(below, level, d, m) == rest + base;
      AppendAssoc(top, rest, base);
    }
  }

  lemma EstimatesUnfold(prices: seq<LevelPrices>, level: int, d: int, m: real)
    requires m > 0.0 && Estimable(prices) && |prices| > 0
    ensures Estimable(prices[..|prices| - 1])
    ensures EstimatesFrom(prices, level, d, m) ==
      LevelEstimates(prices[|prices| - 1], level, d, m) + EstimatesFrom(prices[..|prices| - 1], level, d, m)
  {
  }

  /** `islice(..., n)`: the first n values, or all of them when there are fewer. */
  function Take<T>(s: seq<T>, n: nat): (r: seq<T>)
    ensures |r| == if |s| < n then |s| else n
    ensures r == s[..|r|]
  {
    if |s| <= n then s else s[..n]
  }

  /** A pair in the scan has two recorded levels, so the table is not empty. */
  lemma ContributingPairHasPrices(e: ElemData, level: int)
    requires ContributingPair(e, level)
    ensures |e.prices| > 0
  {
  }

  /**
   * `get_new_price_estimate(level, d)`: the mean of at most five estimates
   * built with the mean of at most five multipliers. It fails (the
   * program's StatisticsError) exactly when no pair (L-1, L) of recorded
   * levels in the scanned range shares a discount.
   */
  function Extrapolate(e: ElemData, level: int, d: int): (r: Option<real>)
    requires Sane(e)
    ensures r.None? <==> forall l :: InScan(e, l) ==> !ContributingPair(e, l)
  {
    MultipliersEmpty(e);
    var ms := Multipliers(e);
    if ms == [] then None
    else
      MeanPositive(ms);
      assert |e.prices| > 0 by {
        var l :| InScan(e, l) && ContributingPair(e, l);
        ContributingPairHasPrices(e, l);
      }
      var es := Take(EstimatesFrom(e.prices, level, d, Mean(ms)), 5);
      if es == [] then None else Some(Mean(es))
  }

  /**
   * With `last_level` set, the multipliers depend only on the pairs (L-1, L)
   * with L < `last_level`: prices at or above it never enter them.
   */
  lemma ScanBelowLastLevel(e: ElemData, e': ElemData)
    requires Sane(e) && Sane(e') && e.lastLevel.Some? && e'.lastLevel == e.lastLevel
    requires forall l :: 1 <= l < e.lastLevel.value ==> PairMultiplier(e, l) == PairMultiplier(e', l)
    ensures Multipliers(e) == Multipliers(e')
  {
    MultipliersFromFrame(e, e', e.lastLevel.value - 1, 5);
  }

  // ----- get_price_info_with_payback -----

  /** Price, payback and estimate flag, as `get_price_info_with_payback` returns them. */
  datatype PriceInfo = PriceInfo(price: Option<real>, payback: Option<real>, isEstimate: bool)

  /**
   * `get_price_info_with_payback(level, d)`: the looked-up price, or when
   * there is none the extrapolated one (always flagged as an estimate), with
   * its payback; `(None, None, False)` when both fail.
   */
  function PriceInfoWithPayback(e: ElemData, level: int, d: int): (r: PriceInfo)
    requires Sane(e) && PaybackDefined(e, level)
    ensures r.price.None? <==> GetPrice(e, level, d).price.None? && Extrapolate(e, level, d).None?
    ensures r.price.None? ==> r == PriceInfo(None, None, false)
    ensures r.price.Some? ==> r.payback == Some(Payback(e, r.price.value, level))
    ensures GetPrice(e, level, d).price.Some? ==>
      r.price == GetPrice(e, level, d).price && r.isEstimate == GetPrice(e, level, d).isEstimate
    ensures GetPrice(e, level, d).price.None? && r.price.Some? ==>
      r.isEstimate && r.price == Extrapolate(e, level, d)
  {
    var q := GetPrice(e, level, d);
    var price := if q.price.Some? then q.price else Extrapolate(e, level, d);
    var isEstimate := if q.price.Some? then q.isEstimate else true;
    if price.None? then PriceInfo(None, None, false)
    else PriceInfo(price, Some(Payback(e, price.value, level)), isEstimate)
  }

  /** A price read directly from an observation is the only kind not flagged as an estimate. */
  lemma ExactOnlyWhenRecorded(e: ElemData, level: int, d: int)
    requires Sane(e) && PaybackDefined(e, level)
    ensures var r := PriceInfoWithPayback(e, level, d);
      r.price.Some? && !r.isEstimate <==> !Completed(e, level) && Recorded(e, level, d).Some?
  {
  }
}
