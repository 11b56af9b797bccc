/**
 * The extrapolation of `get_new_price_estimate` is exact on prices that grow
 * geometrically. When every price recorded at level L was observed from the
 * undiscounted price `c * m^L`, every ratio and pair multiplier is `m`, every
 * per-level estimate is `c * m^level` brought to the asked discount, and so
 * is the extrapolated price, whichever recorded levels it draws on.
 */
module GeometricPrices {
  import opened Wrappers
  import opened Prices
  import opened Estimation

  // ----- powers with an integer exponent -----

  /** `m^a * m^b == m^(a+b)` for natural exponents. */
  lemma {:induction false} PowNatAdd(m: real, a: nat, b: nat, sum: nat)
    requires sum == a + b
    ensures PowNat(m, a) * PowNat(m, b) == PowNat(m, sum)
  {
    if a > 0 {
      PowNatAdd(m, a - 1, b, sum - 1);
      Assoc(m, PowNat(m, a - 1), PowNat(m, b));
    }
  }

  /** `m^a * m^b == m^(a+b)` for a natural `a` and any integer `b`. */
  lemma PowAddNat(m: real, a: nat, b: int, sum: int)
    requires m > 0.0 && sum == a + b
    ensures Pow(m, a) * Pow(m, b) == Pow(m, sum)
  {
    if b >= 0 {
      PowNatAdd(m, a, b, sum);
    } else if sum >= 0 {
      PowDivide(m, a, b, sum);
    } else {
      PowDivideBelow(m, a, b, sum);
    }
  }

  /** `m^a * m^b == m^(a+b)` for a negative `b` with `a + b >= 0`. */
  lemma PowDivide(m: real, a: nat, b: int, sum: nat)
    requires m > 0.0 && b < 0 && sum == a + b
    ensures Pow(m, a) * Pow(m, b) == Pow(m, sum)
  {
    PowNatAdd(m, sum, -b, a);
    PowNatPositive(m, -b);
    TimesReciprocal(PowNat(m, a), PowNat(m, -b), PowNat(m, sum));
  }

  /** `m^a * m^b == m^(a+b)` for a negative `b` with `a + b < 0`. */
  lemma PowDivideBelow(m: real, a: nat, b: int, sum: int)
    requires m > 0.0 && b < 0 && sum < 0 && sum == a + b
    ensures Pow(m, a) * Pow(m, b) == Pow(m, sum)
  {
    PowNatAdd(m, a, -sum, -b);
    PowNatPositive(m, -sum);
    PowNatPositive(m, -b);
    ReciprocalOfProduct(PowNat(m, a), PowNat(m, -sum), PowNat(m, -b));
  }

  /** `m^a * m^b == m^(a+b)` for all integer exponents. */
  lemma PowAdd(m: real, a: int, b: int, sum: int)
    requires m > 0.0 && sum == a + b
    ensures Pow(m, a) * Pow(m, b) == Pow(m, sum)
  {
    if a >= 0 {
      PowAddNat(m, a, b, sum);
    } else if b >= 0 {
      PowAddNat(m, b, a, sum);
      Commute(Pow(m, a), Pow(m, b));
    } else {
      PowNatAdd(m, -a, -b, -sum);
      PowNatPositive(m, -a);
      PowNatPositive(m, -b);
      ReciprocalProduct(PowNat(m, -a), PowNat(m, -b));
    }
  }

  /** One more factor of `m`, for negative exponents as well. */
  lemma PowStep(m: real, k: int, next: int)
    requires m > 0.0 && next == k + 1
    ensures Pow(m, next) == m * Pow(m, k)
  {
    assert PowNat(m, 1) == m * PowNat(m, 0);
    assert Pow(m, 1) == m;
    PowAdd(m, 1, k, next);
  }

  lemma Assoc(m: real, x: real, y: real)
    ensures (m * x) * y == m * (x * y)
  {
  }

  lemma Commute(x: real, y: real)
    ensures x * y == y * x
  {
  }

  /** `x == z * y` gives `x * (1/y) == z`. */
  lemma TimesReciprocal(x: real, y: real, z: real)
    requires y > 0.0 && z * y == x
    ensures x * (1.0 / y) == z
  {
    DivUnique(x, y, z);
  }

  /** `x * w == y` gives `x * (1/y) == 1/w`. */
  lemma ReciprocalOfProduct(x: real, w: real, y: real)
    requires w > 0.0 && y > 0.0 && x * w == y
    ensures x * (1.0 / y) == 1.0 / w
  {
    var r := x * (1.0 / y);
    DivDef(1.0, y);
    assert r * w == (x * w) * (1.0 / y);
    DivUnique(1.0, w, r);
  }

  lemma ReciprocalProduct(x: real, y: real)
    requires x > 0.0 && y > 0.0
    ensures (1.0 / x) * (1.0 / y) == 1.0 / (x * y)
  {
    var r := (1.0 / x) * (1.0 / y);
    DivDef(1.0, x);
    DivDef(1.0, y);
    assert r * (x * y) == ((1.0 / x) * x) * ((1.0 / y) * y);
    DivUnique(1.0, x * y, r);
  }

  /** `b == c*a` and `a*f == p` give `b*t*f == c*p*t`. */
  lemma Rescale(b: real, c: real, a: real, t: real, f: real, p: real)
    requires b == c * a && a * f == p
    ensures b * t * f == c * p * t
  {
    assert b * t * f == c * (a * f) * t;
  }

  /** `p1 == m*p` gives `c*p1 == m*(c*p)`. */
  lemma ScaleStep(c: real, p: real, p1: real, m: real)
    requires p1 == m * p
    ensures c * p1 == m * (c * p)
  {
  }

  // ----- geometric price data -----

  /** The price at `level` and `d` percent off under the law `c * m^level`. */
  function LawPrice(c: real, m: real, level: int, d: int): real
    requires m > 0.0
  {
    c * Pow(m, level) * (1.0 - d as real / 100.0)
  }

  /** The undiscounted price `c * m^L` of level L, one factor of `m` per level. */
  function Base(c: real, m: real, level: int): real
    requires m > 0.0
    decreases if level < 0 then -level else level
  {
    if level == 0 then c
    else if level > 0 then m * Base(c, m, level - 1)
    else Base(c, m, level + 1) / m
  }

  /** Each level's base is `m` times the one below it. */
  lemma BaseStep(c: real, m: real, level: int)
    requires m > 0.0
    ensures Base(c, m, level) == m * Base(c, m, level - 1)
  {
    if level <= 0 {
      DivDef(Base(c, m, level), m);
      Commute(Base(c, m, level) / m, m);
    }
  }

  /** The base of level L is `c * m^L`. */
  lemma {:induction false} BasePow(c: real, m: real, level: int)
    requires m > 0.0
    ensures Base(c, m, level) == c * Pow(m, level)
    decreases if level < 0 then -level else level
  {
    if level > 0 {
      BasePow(c, m, level - 1);
      PowStep(m, level - 1, level);
      ScaleStep(c, Pow(m, level - 1), Pow(m, level), m);
    } else if level < 0 {
      BasePow(c, m, level + 1);
      PowStep(m, level, level + 1);
      ScaleStep(c, Pow(m, level), Pow(m, level + 1), m);
      Commute(m, c * Pow(m, level));
      DivUnique(Base(c, m, level + 1), m, c * Pow(m, level));
    }
  }

  /** Every price recorded at level L was observed from the undiscounted price `c * m^L`. */
  ghost predicate Geometric(prices: seq<LevelPrices>, c: real, m: real)
    requires m > 0.0
  {
    forall i :: 0 <= i < |prices| ==> LevelObserved(prices[i], c, m)
  }

  /** Every price of one level L was observed from `c * m^L`. */
  ghost predicate LevelObserved(lp: LevelPrices, c: real, m: real)
    requires m > 0.0
  {
    AllObservedFrom(lp.discounts, Base(c, m, lp.level))
  }

  /** Every price in `ps` was observed from the undiscounted price `b`. */
  ghost predicate AllObservedFrom(ps: seq<Price>, b: real)
  {
    forall k :: 0 <= k < |ps| ==> ObservedFrom(ps[k], b)
  }

  /** The base of level `from` at `d` percent off, scaled by `m^(level - from)`, is the law's price at `level`. */
  lemma ScaledBase(c: real, m: real, from: int, level: int, d: int)
    requires m > 0.0
    ensures Base(c, m, from) * (1.0 - d as real / 100.0) * Pow(m, level - from) == LawPrice(c, m, level, d)
  {
    BasePow(c, m, from);
    ScaledLaw(Base(c, m, from), c, m, from, level, d);
  }

  /** `c * m^from` at `d` percent off, scaled by `m^(level - from)`, is the law's price at `level`. */
  lemma ScaledLaw(b: real, c: real, m: real, from: int, level: int, d: int)
    requires m > 0.0 && b == c * Pow(m, from)
    ensures b * (1.0 - d as real / 100.0) * Pow(m, level - from) == LawPrice(c, m, level, d)
  {
    PowAdd(m, from, level - from, level);
    Rescale(b, c, Pow(m, from), 1.0 - d as real / 100.0, Pow(m, level - from), Pow(m, level));
  }

  /** Prices observed from `b`, renormalised to `d` and scaled by `f`, all come to `b * (1 - d/100) * f`. */
  lemma ScaledObserved(ps: seq<Price>, d: int, b: real, f: real, t: real)
    requires forall k :: 0 <= k < |ps| ==> ps[k].discount != 100
    requires AllObservedFrom(ps, b) && b * (1.0 - d as real / 100.0) * f == t
    ensures forall k :: 0 <= k < |ps| ==> ValueAt(ps[k], d) * f == t
  {
    forall k | 0 <= k < |ps| ensures ValueAt(ps[k], d) * f == t {
      ValueAtConsistent(ps[k], b, d);
    }
  }

  /** A level whose prices all renormalise and scale to `t` contributes only `t`, recorded or not. */
  lemma ScaledEstimatesConstant(ps: seq<Price>, d: int, f: real, t: real)
    requires forall k :: 0 <= k < |ps| ==> ps[k].discount != 100
    requires forall k :: 0 <= k < |ps| ==> ValueAt(ps[k], d) * f == t
    ensures forall j :: 0 <= j < |ScaledEstimates(ps, d, f)| ==> ScaledEstimates(ps, d, f)[j] == t
  {
    var r := ScaledEstimates(ps, d, f);
    if FindDiscount(ps, d).Some? {
      var k :| 0 <= k < |ps| && ps[k] == FindDiscount(ps, d).value;
      RecordedEstimate(ps, d, f, k);
      assert r == [ValueAt(ps[k], d) * f];
    } else {
      assert r == ScaledValues(ps, d, f);
    }
  }

  /** A level recorded at `d` contributes its recorded price only. */
  lemma RecordedEstimate(ps: seq<Price>, d: int, f: real, k: int)
    requires forall k :: 0 <= k < |ps| ==> ps[k].discount != 100
    requires 0 <= k < |ps| && FindDiscount(ps, d) == Some(ps[k])
    ensures ScaledEstimates(ps, d, f) == [ValueAt(ps[k], d) * f]
  {
    var r := ScaledEstimates(ps, d, f);
    assert |r| == 1 && r[0] == ValueAt(ps[k], d) * f;
  }

  /**
   * On geometric data every estimate one recorded level contributes, at
   * its own discount or renormalised, is the law's price at `level`.
   */
  lemma LevelEstimatesExact(lp: LevelPrices, level: int, d: int, c: real, m: real)
    requires m > 0.0
    requires forall k :: 0 <= k < |lp.discounts| ==> lp.discounts[k].discount != 100
    requires LevelObserved(lp, c, m)
    ensures forall j :: 0 <= j < |LevelEstimates(lp, level, d, m)| ==>
      LevelEstimates(lp, level, d, m)[j] == LawPrice(c, m, level, d)
  {
    ScaledBase(c, m, lp.level, level, d);
    ScaledObserved(lp.discounts, d, Base(c, m, lp.level), Pow(m, level - lp.level), LawPrice(c, m, level, d));
    ScaledEstimatesConstant(lp.discounts, d, Pow(m, level - lp.level), LawPrice(c, m, level, d));
  }

  /** On geometric data every estimate `get_estimates` yields is the law's price at `level`. */
  lemma {:induction false} EstimatesFromExact(prices: seq<LevelPrices>, level: int, d: int, c: real, m: real)
    requires m > 0.0 && Estimable(prices) && Geometric(prices, c, m)
    ensures forall j :: 0 <= j < |EstimatesFrom(prices, level, d, m)| ==>
      EstimatesFrom(prices, level, d, m)[j] == LawPrice(c, m, level, d)
  {
    if prices != [] {
      var n := |prices| - 1;
      EstimatesUnfold(prices, level, d, m);
      assert forall i :: 0 <= i < n ==> prices[..n][i] == prices[i];
      EstimatesFromExact(prices[..n], level, d, c, m);
      LevelEstimatesExact(prices[n], level, d, c, m);
    }
  }

  /** A pair of prices at one discount, observed from `b` and `m * b`, has ratio `m`. */
  lemma RatioExact(p: Price, q: Price, b: real, m: real)
    requires p.amount > 0.0 && p.discount == q.discount
    requires ObservedFrom(p, b) && ObservedFrom(q, m * b)
    ensures Ratio(p, q) == m
  {
    var t := 1.0 - p.discount as real / 100.0;
    ValuePositive(p);
    assert Value(q) == m * (b * t);
    DivUnique(Value(q), Value(p), m);
  }

  /** Levels observed from `lo` and `m * lo` give only the ratio `m`. */
  lemma {:induction false} PairRatiosExact(lower: seq<Price>, upper: seq<Price>, lo: real, m: real)
    requires forall k :: 0 <= k < |lower| ==> lower[k].amount > 0.0
    requires forall k :: 0 <= k < |upper| ==> upper[k].amount > 0.0
    requires AllObservedFrom(lower, lo) && AllObservedFrom(upper, m * lo)
    ensures forall j :: 0 <= j < |PairRatios(lower, upper)| ==> PairRatios(lower, upper)[j] == m
  {
    if lower != [] {
      var tail := lower[1..];
      assert forall k :: 0 <= k < |tail| ==> tail[k] == lower[k + 1];
      PairRatiosExact(tail, upper, lo, m);
      match FindDiscount(upper, lower[0].discount)
      case None =>
        assert PairRatios(lower, upper) == PairRatios(tail, upper);
      case Some(q) =>
        var k :| 0 <= k < |upper| && upper[k] == q;
        RatioExact(lower[0], q, lo, m);
        assert PairRatios(lower, upper) == [Ratio(lower[0], q)] + PairRatios(tail, upper);
    }
  }

  /** The prices found for a level of geometric data were observed from `c * m^level`. */
  lemma FoundLevelObserved(e: ElemData, level: int, c: real, m: real)
    requires m > 0.0 && Geometric(e.prices, c, m) && HasLevel(e, level)
    ensures AllObservedFrom(FindLevel(e.prices, level).value, Base(c, m, level))
  {
    FoundLevelAt(e.prices, level);
    var i :| 0 <= i < |e.prices| && e.prices[i].level == level &&
      FindLevel(e.prices, level).value == e.prices[i].discounts;
    LevelAtObserved(e.prices, i, level, c, m);
  }

  /** The level at position `i` of geometric data, filed as `level`, was observed from `c * m^level`. */
  lemma LevelAtObserved(prices: seq<LevelPrices>, i: int, level: int, c: real, m: real)
    requires m > 0.0 && Geometric(prices, c, m) && 0 <= i < |prices| && prices[i].level == level
    ensures AllObservedFrom(prices[i].discounts, Base(c, m, level))
  {
    assert LevelObserved(prices[i], c, m);
  }

  lemma ObservedRebase(ps: seq<Price>, b: real, b': real)
    requires AllObservedFrom(ps, b) && b == b'
    ensures AllObservedFrom(ps, b')
  {
  }

  /** Adjacent levels observed from `c * m^(level-1)` and `c * m^level` give only the ratio `m`. */
  lemma AdjacentRatiosExact(lower: seq<Price>, upper: seq<Price>, c: real, m: real, level: int)
    requires m > 0.0
    requires forall k :: 0 <= k < |lower| ==> lower[k].amount > 0.0
    requires forall k :: 0 <= k < |upper| ==> upper[k].amount > 0.0
    requires AllObservedFrom(lower, Base(c, m, level - 1)) && AllObservedFrom(upper, Base(c, m, level))
    ensures forall j :: 0 <= j < |PairRatios(lower, upper)| ==> PairRatios(lower, upper)[j] == m
  {
    BaseStep(c, m, level);
    ObservedRebase(upper, Base(c, m, level), m * Base(c, m, level - 1));
    PairRatiosExact(lower, upper, Base(c, m, level - 1), m);
  }

  /** On geometric data the multiplier of every contributing pair (L-1, L) is `m`. */
  lemma PairMultiplierExact(e: ElemData, level: int, c: real, m: real)
    requires Sane(e) && m > 0.0 && Geometric(e.prices, c, m) && ContributingPair(e, level)
    ensures PairMultiplier(e, level) == Some(m)
  {
    FoundLevelSane(e, level - 1);
    FoundLevelSane(e, level);
    FoundLevelObserved(e, level - 1, c, m);
    FoundLevelObserved(e, level, c, m);
    AdjacentRatiosExact(FindLevel(e.prices, level - 1).value, FindLevel(e.prices, level).value, c, m, level);
    MeanConstant(PairRatios(FindLevel(e.prices, level - 1).value, FindLevel(e.prices, level).value), m);
  }

  /** On geometric data every multiplier the scan finds is `m`. */
  lemma {:induction false} MultipliersFromExact(e: ElemData, level: int, k: nat, c: real, m: real)
    requires Sane(e) && m > 0.0 && Geometric(e.prices, c, m)
    ensures forall j :: 0 <= j < |MultipliersFrom(e, level, k)| ==> MultipliersFrom(e, level, k)[j] == m
    decreases if level < 1 then 0 else level
  {
    if k > 0 && level >= 1 {
      MultipliersFromStep(e, level, k);
      if PairMultiplier(e, level).Some? {
        PairMultiplierExact(e, level, c, m);
        MultipliersFromExact(e, level - 1, k - 1, c, m);
      } else {
        MultipliersFromExact(e, level - 1, k, c, m);
      }
    }
  }

  /**
   * Extrapolation is exact on geometric data: whenever it succeeds, the mean
   * multiplier is `m` and the extrapolated price at `level` and `d` percent
   * off is `c * m^level * (1 - d/100)`.
   */
  lemma ExtrapolateExact(e: ElemData, level: int, d: int, c: real, m: real)
    requires Sane(e) && m > 0.0 && Geometric(e.prices, c, m)
    requires Extrapolate(e, level, d).Some?
    ensures Extrapolate(e, level, d) == Some(LawPrice(c, m, level, d))
  {
    MultipliersEmpty(e);
    MultiplierMeanExact(e, c, m);
    EstimateMeanExact(e.prices, level, d, c, m);
  }

  /** On geometric data the mean multiplier is `m` whenever the scan finds one. */
  lemma MultiplierMeanExact(e: ElemData, c: real, m: real)
    requires Sane(e) && m > 0.0 && Geometric(e.prices, c, m) && Multipliers(e) != []
    ensures Mean(Multipliers(e)) == m
  {
    if ScanTop(e).Some? {
      MultipliersFromExact(e, ScanTop(e).value - 1, 5, c, m);
    }
    MeanConstant(Multipliers(e), m);
  }

  /** On geometric data the mean of the first five estimates is the law's price. */
  lemma EstimateMeanExact(prices: seq<LevelPrices>, level: int, d: int, c: real, m: real)
    requires m > 0.0 && Estimable(prices) && Geometric(prices, c, m) && |prices| > 0
    ensures Mean(Take(EstimatesFrom(prices, level, d, m), 5)) == LawPrice(c, m, level, d)
  {
    var all := EstimatesFrom(prices, level, d, m);
    EstimatesFromExact(prices, level, d, c, m);
    var es := Take(all, 5);
    assert forall j :: 0 <= j < |es| ==> es[j] == all[j];
    MeanConstant(es, LawPrice(c, m, level, d));
  }
}
