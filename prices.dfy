/**
 * The recorded price table of one research (`Database.Price`,
 * `Database.Elem._get_price`) and the payback formula of
 * `get_price_info_with_payback`.
 *
 * Prices are real numbers. A research's table is an insertion-ordered list of
 * levels, each holding an insertion-ordered list of prices observed at
 * distinct discount levels: the program's nested dictionaries keep insertion
 * order, and the extrapolation depends on it.
 */
module Prices {
  import opened Wrappers
  import opened Decimals
  import opened Units

  /** One observed price: `amount` in `unit`, observed at `discount` percent off. */
  datatype Price = Price(level: int, amount: real, unit: Unit, discount: int)

  /** All prices observed at one level, in insertion order. */
  datatype LevelPrices = LevelPrices(level: int, discounts: seq<Price>)

  /** `increase_type`: "double", "triple", and every other value, which uses the percent formula. */
  datatype Kind = Double | Triple | Percent

  /** The value of a `Database.Elem`: growth kind, percent, completion level and price table. */
  datatype ElemData = ElemData(kind: Kind, percent: real, lastLevel: Option<int>, prices: seq<LevelPrices>)

  /** `Price.get_price()`: the absolute value, amount times the unit's multiplier. */
  function Value(p: Price): real
  {
    p.amount * Multiplier(p.unit)
  }

  /** Renormalising from `from` percent off to `to` percent off is defined. */
  predicate CanRenormalise(p: Price, at: int)
  {
    at == p.discount || p.discount != 100
  }

  /**
   * `Price.get_price(at)`: the recorded value when `at` is the discount it was
   * observed at; otherwise the undiscounted base price `v / (1 - d/100)`
   * brought to `at` percent off.
   */
  function ValueAt(p: Price, at: int): (r: real)
    requires CanRenormalise(p, at)
    ensures at == p.discount ==> r == Value(p)
  {
    if at == p.discount then Value(p)
    else Value(p) / (1.0 - p.discount as real / 100.0) * (1.0 - at as real / 100.0)
  }

  /** The undiscounted price `b` is consistent with an observation at `p.discount` percent off. */
  predicate ObservedFrom(p: Price, b: real)
  {
    Value(p) == b * (1.0 - p.discount as real / 100.0)
  }

  /**
   * Renormalisation is exact: a price observed at any discount other than 100
   * percent that comes from base price `b` renormalises to `b` at any other
   * discount.
   */
  lemma ValueAtConsistent(p: Price, b: real, at: int)
    requires p.discount != 100 && ObservedFrom(p, b)
    ensures ValueAt(p, at) == b * (1.0 - at as real / 100.0)
  {
    if at != p.discount {
      CancelFactor(b, 1.0 - p.discount as real / 100.0);
    }
  }

  lemma CancelFactor(b: real, y: real)
    requires y != 0.0
    ensures (b * y) / y == b
  {
    DivUnique(b * y, y, b);
  }

  lemma DivDef(a: real, b: real)
    requires b != 0.0
    ensures (a / b) * b == a
  {
  }
  lemma DivUnique(a: real, b: real, c: real)
    requires b != 0.0 && c * b == a
    ensures a / b == c
  {
    DivDef(a, b);
    assert (a / b) * b == c * b;
    assert (a / b - c) * b == 0.0;
  }

  // ----- the nested dictionary, as insertion-ordered lists -----

  /** `prices.get(level)`. */
  function FindLevel(prices: seq<LevelPrices>, level: int): (r: Option<seq<Price>>)
    ensures r.Some? <==> exists i :: 0 <= i < |prices| && prices[i].level == level
  {
    if prices == [] then None
    else if prices[0].level == level then Some(prices[0].discounts)
    else
      var r := FindLevel(prices[1..], level);
      assert forall i :: 0 < i < |prices| ==> prices[i] == prices[1..][i - 1];
      if r.Some? then
        var j :| 0 <= j < |prices[1..]| && prices[1..][j].level == level;
        assert prices[j + 1].level == level;
        r
      else r
  }

  /** `discounts.get(d)`. */
  function FindDiscount(ps: seq<Price>, d: int): (r: Option<Price>)
    ensures r.Some? ==> r.value in ps && r.value.discount == d
    ensures r.None? <==> forall k :: 0 <= k < |ps| ==> ps[k].discount != d
  {
    if ps == [] then None
    else if ps[0].discount == d then Some(ps[0])
    else
      var r := FindDiscount(ps[1..], d);
      assert forall k :: 0 < k < |ps| ==> ps[k] == ps[1..][k - 1];
      r
  }

  /** The price recorded at exactly (level, d), if any. */
  function Recorded(e: ElemData, level: int, d: int): Option<Price>
  {
    match FindLevel(e.prices, level)
    case None => None
    case Some(ps) => FindDiscount(ps, d)
  }

  /** Level `level` has an entry in the table. */
  predicate HasLevel(e: ElemData, level: int)
  {
    FindLevel(e.prices, level).Some?
  }

  /** The research is marked complete at or below `level` (`level >= last_level`). */
  predicate Completed(e: ElemData, level: int)
  {
    e.lastLevel.Some? && level >= e.lastLevel.value
  }

  /**
   * The table's shape: no level twice, no discount twice within a level, no
   * empty level, and every price filed under its own level.
   */
  ghost predicate WellFormed(e: ElemData)
  {
    && (forall i, j :: 0 <= i < j < |e.prices| ==> e.prices[i].level != e.prices[j].level)
    && (forall i :: 0 <= i < |e.prices| ==> LevelWellFormed(e.prices[i]))
  }

  /** One level's prices: at least one, each filed under the level, no discount twice. */
  predicate LevelWellFormed(lp: LevelPrices)
  {
    && |lp.discounts| > 0
    && (forall k :: 0 <= k < |lp.discounts| ==> lp.discounts[k].level == lp.level)
    && (forall k, m :: 0 <= k < m < |lp.discounts| ==> lp.discounts[k].discount != lp.discounts[m].discount)
  }

  /**
   * What the arithmetic needs and the program never checks: every recorded
   * amount is positive (it is divided by and raised to negative powers) and no
   * price was observed at 100 percent off (renormalisation divides by
   * `1 - d/100`).
   */
  ghost predicate Numeric(e: ElemData)
  {
    forall i, k :: 0 <= i < |e.prices| && 0 <= k < |e.prices[i].discounts| ==>
      e.prices[i].discounts[k].amount > 0.0 && e.prices[i].discounts[k].discount != 100
  }

  ghost predicate Sane(e: ElemData)
  {
    WellFormed(e) && Numeric(e)
  }

  /** The prices found for a level of a sane table are positive and renormalisable. */
  lemma FoundLevelSane(e: ElemData, level: int)
    requires Sane(e) && HasLevel(e, level)
    ensures |FindLevel(e.prices, level).value| > 0
    ensures forall k :: 0 <= k < |FindLevel(e.prices, level).value| ==>
      FindLevel(e.prices, level).value[k].amount > 0.0 &&
      FindLevel(e.prices, level).value[k].discount != 100
  {
    FoundLevelAt(e.prices, level);
  }

  lemma {:induction false} FoundLevelAt(prices: seq<LevelPrices>, level: int)
    requires FindLevel(prices, level).Some?
    ensures exists i :: (0 <= i < |prices| && prices[i].level == level &&
      FindLevel(prices, level).value == prices[i].discounts)
  {
    if prices[0].level != level {
      FoundLevelAt(prices[1..], level);
      var i :| 0 <= i < |prices[1..]| && prices[1..][i].level == level &&
        FindLevel(prices[1..], level).value == prices[1..][i].discounts;
      assert prices[i + 1] == prices[1..][i];
    }
  }

  // ----- means -----

  function Sum(s: seq<real>): real
  {
    if s == [] then 0.0 else s[0] + Sum(s[1..])
  }

  /** `statistics.mean` of a non-empty sequence. */
  function Mean(s: seq<real>): real
    requires |s| > 0
  {
    Sum(s) / |s| as real
  }

  lemma {:induction false} SumConstant(s: seq<real>, c: real)
    requires forall k :: 0 <= k < |s| ==> s[k] == c
    ensures Sum(s) == |s| as real * c
  {
    if s != [] {
      SumConstant(s[1..], c);
    }
  }

  /** The mean of values that all equal c is c. */
  lemma MeanConstant(s: seq<real>, c: real)
    requires |s| > 0
    requires forall k :: 0 <= k < |s| ==> s[k] == c
    ensures Mean(s) == c
  {
    SumConstant(s, c);
    CancelFactor(c, |s| as real);
  }

  lemma {:induction false} SumPositive(s: seq<real>)
    requires forall k :: 0 <= k < |s| ==> s[k] > 0.0
    ensures |s| > 0 ==> Sum(s) > 0.0
  {
    if s != [] {
      SumPositive(s[1..]);
    }
  }

  /** The mean of positive values is positive. */
  lemma MeanPositive(s: seq<real>)
    requires |s| > 0
    requires forall k :: 0 <= k < |s| ==> s[k] > 0.0
    ensures Mean(s) > 0.0
  {
    SumPositive(s);
  }

  /** Every price of a level renormalised to `at` percent off, in insertion order. */
  function ValuesAt(ps: seq<Price>, at: int): (r: seq<real>)
    requires forall k :: 0 <= k < |ps| ==> CanRenormalise(ps[k], at)
    ensures |r| == |ps|
    ensures forall k :: 0 <= k < |ps| ==> r[k] == ValueAt(ps[k], at)
  {
    if ps == [] then [] else [ValueAt(ps[0], at)] + ValuesAt(ps[1..], at)
  }

  // ----- _get_price -----

  /** A price together with the flag saying it was not read directly from an observation. */
  datatype Quote = Quote(price: Option<real>, isEstimate: bool)

  /**
   * `_get_price(level, d)`: nothing for a completed level or a level without
   * prices; the recorded value for an exact (level, d) hit; otherwise an
   * estimate renormalised from the discount-0 price when there is one, else
   * the mean over all prices of the level.
   */
  function GetPrice(e: ElemData, level: int, d: int): (r: Quote)
    requires Sane(e)
    ensures r.price.None? <==> Completed(e, level) || !HasLevel(e, level)
    ensures r.isEstimate ==> r.price.Some?
    ensures r.price.Some? && !r.isEstimate <==> !Completed(e, level) && Recorded(e, level, d).Some?
    ensures r.price.Some? && !r.isEstimate ==> r.price.value == Value(Recorded(e, level, d).value)
    ensures r.isEstimate && Recorded(e, level, 0).Some? ==>
      r.price == Some(ValueAt(Recorded(e, level, 0).value, d))
    ensures r.isEstimate && Recorded(e, level, 0).None? ==> r.price == Some(LevelMean(e, level, d))
  {
    if Completed(e, level) then Quote(None, false)
    else match FindLevel(e.prices, level)
      case None => Quote(None, false)
      case Some(ps) =>
        FoundLevelSane(e, level);
        match FindDiscount(ps, d)
        case Some(p) => Quote(Some(Value(p)), false)
        case None =>
          match FindDiscount(ps, 0)
          case Some(z) => Quote(Some(ValueAt(z, d)), true)
          case None => Quote(Some(LevelMean(e, level, d)), true)
  }

  /** The mean of every price recorded at a level, each renormalised to `d` percent off. */
  function LevelMean(e: ElemData, level: int, d: int): real
    requires Sane(e) && HasLevel(e, level)
  {
    FoundLevelSane(e, level);
    Mean(ValuesAt(FindLevel(e.prices, level).value, d))
  }

  /**
   * Discount invariance: when every price recorded at a level was observed
   * from the same undiscounted price b, the price at any discount d is
   * b * (1 - d/100), whichever recorded price the estimate is built from.
   */
  lemma DiscountInvariance(e: ElemData, level: int, d: int, b: real)
    requires Sane(e) && !Completed(e, level) && HasLevel(e, level)
    requires forall p :: p in FindLevel(e.prices, level).value ==> ObservedFrom(p, b)
    ensures GetPrice(e, level, d).price == Some(b * (1.0 - d as real / 100.0))
  {
    var ps := FindLevel(e.prices, level).value;
    FoundLevelSane(e, level);
    forall k | 0 <= k < |ps| ensures ObservedFrom(ps[k], b) {
      assert ps[k] in ps;
    }
    LevelValuesConstant(ps, d, b);
    if Recorded(e, level, d).Some? {
      var k :| 0 <= k < |ps| && ps[k] == Recorded(e, level, d).value;
    } else if Recorded(e, level, 0).Some? {
      var k :| 0 <= k < |ps| && ps[k] == Recorded(e, level, 0).value;
    } else {
      MeanConstant(ValuesAt(ps, d), b * (1.0 - d as real / 100.0));
    }
  }

  /** Prices all observed from base price `b` renormalise to the same value. */
  lemma LevelValuesConstant(ps: seq<Price>, d: int, b: real)
    requires forall k :: 0 <= k < |ps| ==> ps[k].discount != 100 && ObservedFrom(ps[k], b)
    ensures forall k :: 0 <= k < |ps| ==> ValueAt(ps[k], d) == b * (1.0 - d as real / 100.0)
  {
    forall k | 0 <= k < |ps|
      ensures ValueAt(ps[k], d) == b * (1.0 - d as real / 100.0)
    {
      ValueAtConsistent(ps[k], b, d);
    }
  }

  // ----- payback -----

  /** The percent formula divides by `m - 1` and by `1 + p*level/100`. */
  predicate PaybackDefined(e: ElemData, level: int)
  {
    e.kind.Percent? ==> e.percent != 0.0 && Growth(e.percent, level) != 0.0
  }

  /** 100 times `1 + p*level/100`, the denominator of the payback multiplier. */
  function Growth(p: real, level: int): real
  {
    100.0 + p * (level as real)
  }

  /** The payback multiplier m = (1 + p/100 + p*level/100) / (1 + p*level/100). */
  function LevelMultiplier(p: real, level: int): real
    requires Growth(p, level) != 0.0
  {
    var lp := p * (level as real);
    (1.0 + p / 100.0 + lp / 100.0) / (1.0 + lp / 100.0)
  }

  /** The payback threshold for a price at a level, by growth kind. */
  function Payback(e: ElemData, price: real, level: int): (r: real)
    requires PaybackDefined(e, level)
  {
    match e.kind
    case Double => price * 2.0
    case Triple => price * 3.0
    case Percent =>
      var m := LevelMultiplier(e.percent, level);
      MultiplierAboveOne(e.percent, level);
      price * m / (m - 1.0)
  }

  lemma MultiplierAboveOne(p: real, level: int)
    requires p != 0.0 && Growth(p, level) != 0.0
    ensures LevelMultiplier(p, level) - 1.0 == p / Growth(p, level)
    ensures LevelMultiplier(p, level) != 1.0
  {
    var lp := p * (level as real);
    assert Growth(p, level) == 100.0 + lp;
    RatioShift(lp, p);
  }

  /** ((100 + lp + p)/100) / ((100 + lp)/100) - 1 == p / (100 + lp). */
  lemma RatioShift(lp: real, p: real)
    requires 100.0 + lp != 0.0
    ensures (1.0 + p / 100.0 + lp / 100.0) / (1.0 + lp / 100.0) - 1.0 == p / (100.0 + lp)
  {
    var y := 100.0 + lp;
    var den := 1.0 + lp / 100.0;
    var num := 1.0 + p / 100.0 + lp / 100.0;
    assert den == y / 100.0;
    assert num == den + p / 100.0;
    var q := p / y;
    DivDef(p, y);
    assert (q + 1.0) * den == num by {
      assert q * den == (q * y) / 100.0;
    }
    DivUnique(num, den, q + 1.0);
  }

  /**
   * The payback in closed form: twice or three times the price, and for the
   * percent kind price * (100 + p * (level + 1)) / p.
   */
  lemma PaybackClosedForm(e: ElemData, price: real, level: int)
    requires PaybackDefined(e, level)
    ensures e.kind.Double? ==> Payback(e, price, level) == 2.0 * price
    ensures e.kind.Triple? ==> Payback(e, price, level) == 3.0 * price
    ensures e.kind.Percent? ==> Payback(e, price, level) == price * Growth(e.percent, level + 1) / e.percent
  {
    if e.kind.Percent? {
      var p := e.percent;
      var y := Growth(p, level);
      MultiplierAboveOne(p, level);
      PercentPayback(price, p, y, LevelMultiplier(p, level));
      GrowthStep(p, level);
    }
  }

  lemma GrowthStep(p: real, level: int)
    ensures Growth(p, level) + p == Growth(p, level + 1)
  {
    assert p * ((level + 1) as real) == p * (level as real) + p;
  }

  lemma CancelRight(a: real, b: real, y: real)
    requires y != 0.0 && a * y == b * y
    ensures a == b
  {
    assert (a - b) * y == 0.0;
  }
  lemma PercentPayback(price: real, p: real, y: real, m: real)
    requires p != 0.0 && y != 0.0 && m - 1.0 == p / y
    ensures price * m / (m - 1.0) == price * (y + p) / p
  {
    var q := p / y;
    DivDef(p, y);
    assert q != 0.0;
    var R := price * (y + p) / p;
    DivDef(price * (y + p), p);
    assert (R * q) * y == R * p;
    assert (price * m) * y == price * (q * y + y);
    CancelRight(R * q, price * m, y);
    DivUnique(price * m, q, R);
  }

  /**
   * For a growing research (positive percent, non-negative level) and a
   * positive price, the payback threshold is above the price.
   */
  lemma PaybackAbovePrice(e: ElemData, price: real, level: int)
    requires PaybackDefined(e, level) && price > 0.0 && level >= 0
    requires e.kind.Percent? ==> e.percent > 0.0
    ensures Payback(e, price, level) > price
  {
    PaybackClosedForm(e, price, level);
    if e.kind.Percent? {
      var p := e.percent;
      var g := Growth(p, level + 1);
      GrowthStep(p, level);
      assert p * (level as real) >= 0.0;
      assert g > p;
      var q := g / p;
      DivDef(g, p);
      assert q > 1.0;
      DivDef(price * g, p);
      assert (price * q) * p == price * g;
      DivUnique(price * g, p, price * q);
      assert price * q > price;
    }
  }
}
