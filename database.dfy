/**
 * `Database.Elem`: one research's record, updated in place by `add_cost`
 * and `mark_completed`, and queried for extrapolated prices and paybacks.
 */
module Database {
  import opened Wrappers
  import opened Units
  import opened Prices
  import opened Estimation
  import opened Sequences

  // ----- the table after add_cost -----

  /** The position of `level` in the table: the first entry filed under it. */
  function IndexOfLevel(prices: seq<LevelPrices>, level: int): (r: Option<nat>)
    ensures r.Some? ==> r.value < |prices| && prices[r.value].level == level
    ensures r.Some? ==> forall j :: 0 <= j < r.value ==> prices[j].level != level
    ensures r.None? <==> forall j :: 0 <= j < |prices| ==> prices[j].level != level
  {
    if prices == [] then None
    else if prices[0].level == level then Some(0)
    else
      assert forall j :: 0 < j < |prices| ==> prices[j] == prices[1..][j - 1];
      match IndexOfLevel(prices[1..], level)
      case None => None
      case Some(i) => Some(i + 1)
  }

  /**
   * The table after filing `p`: appended to its level's prices, or a new
   * level holding only `p` appended to the table (dictionary insertion).
   */
  function AddPrice(prices: seq<LevelPrices>, p: Price): (r: seq<LevelPrices>)
  {
    match IndexOfLevel(prices, p.level)
    case None => prices + [LevelPrices(p.level, [p])]
    case Some(i) => prices[i := LevelPrices(prices[i].level, prices[i].discounts + [p])]
  }

  /** `prices.get(level)` finds the first entry filed under `level`. */
  lemma {:induction false} FindLevelFirst(prices: seq<LevelPrices>, level: int, i: nat)
    requires i < |prices| && prices[i].level == level
    requires forall j :: 0 <= j < i ==> prices[j].level != level
    ensures FindLevel(prices, level) == Some(prices[i].discounts)
  {
    if i > 0 {
      assert forall j :: 0 <= j < i - 1 ==> prices[1..][j] == prices[j + 1];
      FindLevelFirst(prices[1..], level, i - 1);
    }
  }

  lemma {:induction false} FindDiscountAppend(ps: seq<Price>, p: Price, d: int)
    ensures FindDiscount(ps + [p], d) ==
      if FindDiscount(ps, d).Some? then FindDiscount(ps, d)
      else if p.discount == d then Some(p) else None
  {
    if ps != [] {
      assert (ps + [p])[1..] == ps[1..] + [p];
      FindDiscountAppend(ps[1..], p, d);
    }
  }

  /** After filing `p`, a level's prices are its old prices (if any) followed by `p`. */
  lemma FindLevelAfterAdd(prices: seq<LevelPrices>, p: Price, level: int)
    ensures FindLevel(AddPrice(prices, p), level) ==
      if level != p.level then FindLevel(prices, level)
      else if FindLevel(prices, level).Some? then Some(FindLevel(prices, level).value + [p])
      else Some([p])
  {
    var r := AddPrice(prices, p);
    var i := IndexOfLevel(prices, p.level);
    var j := IndexOfLevel(prices, level);
    if i.Some? {
      FindLevelFirst(prices, p.level, i.value);
    } else if level == p.level {
      FindLevelFirst(r, level, |prices|);
    }
    if j.Some? {
      FindLevelFirst(prices, level, j.value);
      FindLevelFirst(r, level, j.value);
    }
  }

  /**
   * Filing a price for an unrecorded (level, d) records exactly it and leaves
   * every other (level, discount) entry as it was.
   */
  lemma RecordedAfterAdd(e: ElemData, p: Price, level: int, d: int)
    ensures Recorded(e.(prices := AddPrice(e.prices, p)), level, d) ==
      if level == p.level && d == p.discount && Recorded(e, level, d).None? then Some(p)
      else Recorded(e, level, d)
  {
    FindLevelAfterAdd(e.prices, p, level);
    if level == p.level {
      if FindLevel(e.prices, level).Some? {
        FindDiscountAppend(FindLevel(e.prices, level).value, p, d);
      }
    }
  }

  /** Filing a new price under its own level keeps the table well formed. */
  lemma AddPriceWellFormed(e: ElemData, p: Price)
    requires WellFormed(e) && Recorded(e, p.level, p.discount).None?
    ensures WellFormed(e.(prices := AddPrice(e.prices, p)))
  {
    match IndexOfLevel(e.prices, p.level)
    case None => NewLevelWellFormed(e, p);
    case Some(i) => FiledLevelWellFormed(e, p, i);
  }

  lemma NewLevelWellFormed(e: ElemData, p: Price)
    requires WellFormed(e) && IndexOfLevel(e.prices, p.level).None?
    ensures WellFormed(e.(prices := e.prices + [LevelPrices(p.level, [p])]))
  {
    var r := e.prices + [LevelPrices(p.level, [p])];
    assert forall i :: 0 <= i < |e.prices| ==> r[i] == e.prices[i];
  }

  lemma FiledLevelWellFormed(e: ElemData, p: Price, i: nat)
    requires WellFormed(e) && Recorded(e, p.level, p.discount).None?
    requires IndexOfLevel(e.prices, p.level) == Some(i)
    ensures WellFormed(e.(prices := e.prices[i := LevelPrices(e.prices[i].level, e.prices[i].discounts + [p])]))
  {
    FindLevelFirst(e.prices, p.level, i);
    var lp := e.prices[i];
    assert LevelWellFormed(lp);
    LevelWithNew(lp, p);
    var r := e.prices[i := LevelPrices(lp.level, lp.discounts + [p])];
    assert forall j :: 0 <= j < |r| && j != i ==> r[j] == e.prices[j];
  }

  /** A price filed under its own level at a discount not yet there keeps the level well formed. */
  lemma LevelWithNew(lp: LevelPrices, p: Price)
    requires LevelWellFormed(lp) && p.level == lp.level && FindDiscount(lp.discounts, p.discount).None?
    ensures LevelWellFormed(LevelPrices(lp.level, lp.discounts + [p]))
  {
    var ps := lp.discounts;
    var q := ps + [p];
    assert forall k :: 0 <= k < |ps| ==> ps[k].discount != p.discount;
    assert forall k :: 0 <= k < |ps| ==> q[k] == ps[k];
  }

  /** Filing a positive price observed below 100 percent off keeps the arithmetic defined. */
  lemma AddPriceNumeric(e: ElemData, p: Price)
    requires Numeric(e) && p.amount > 0.0 && p.discount != 100
    ensures Numeric(e.(prices := AddPrice(e.prices, p)))
  {
    var r := AddPrice(e.prices, p);
    match IndexOfLevel(e.prices, p.level)
    case None =>
      assert forall i :: 0 <= i < |e.prices| ==> r[i] == e.prices[i];
    case Some(i) =>
  }

  /** A level seen for the first time is appended after every existing level. */
  lemma NewLevelLast(prices: seq<LevelPrices>, p: Price)
    requires FindLevel(prices, p.level).None?
    ensures AddPrice(prices, p)[..|prices|] == prices
    ensures AddPrice(prices, p)[|prices|] == LevelPrices(p.level, [p])
  {
  }

  // ----- Elem -----

  class Elem {
    const kind: Kind
    const percent: real
    var lastLevel: Option<int>
    var prices: seq<LevelPrices>

    /** The record as a value. */
    function Data(): ElemData
      reads this
    {
      ElemData(kind, percent, lastLevel, prices)
    }

    /** The dictionaries' invariant: levels and discounts are keys, and no level is empty. */
    ghost predicate Valid()
      reads this
    {
      WellFormed(Data())
    }

    constructor(kind: Kind, percent: real, lastLevel: Option<int>, prices: seq<LevelPrices>)
      requires WellFormed(ElemData(kind, percent, lastLevel, prices))
      ensures Data() == ElemData(kind, percent, lastLevel, prices)
      ensures Valid()
    {
      this.kind := kind;
      this.percent := percent;
      this.lastLevel := lastLevel;
      this.prices := prices;
    }

    /**
     * `add_cost(level, d, amount, unit_short)`: files the price under
     * (level, d), creating the level when it is new. A price already on file
     * at (level, d) fails the program's assertion; the model reports `false`
     * and changes nothing.
     */
    method AddCost(level: int, d: int, amount: real, unitShort: string) returns (added: bool)
      requires Valid() && IsValidUnitShort(unitShort)
      modifies this
      ensures Valid()
      ensures added <==> old(Recorded(Data(), level, d)).None?
      ensures !added ==> Data() == old(Data())
      ensures added ==> prices == AddPrice(old(prices), Price(level, amount, UnitForShort(unitShort).value, d))
      ensures lastLevel == old(lastLevel)
    {
      var p := Price(level, amount, UnitForShort(unitShort).value, d);
      ghost var e := Data();
      var i := IndexOfLevel(prices, level);
      var ps := if i.Some? then prices[i.value].discounts else [];
      FilingFacts(e, p, i, ps);
      if FindDiscount(ps, d).Some? {
        return false;
      }
      if i.None? {
        prices := prices + [LevelPrices(level, [p])];
      } else {
        prices := prices[i.value := LevelPrices(prices[i.value].level, ps + [p])];
      }
      assert Data() == e.(prices := AddPrice(e.prices, p));
      added := true;
    }

    /** `mark_completed(L)`: records that the research stops at level L. */
    method MarkCompleted(last: int)
      modifies this
      ensures Data() == old(Data()).(lastLevel := Some(last))
    {
      lastLevel := Some(last);
    }

    /**
     * `get_new_price_estimate(level, d)`: scans consecutive recorded levels
     * downward for up to five multipliers, then walks the levels in reverse
     * insertion order for up to five scaled prices.
     */
    method NewPriceEstimate(level: int, d: int) returns (r: Option<real>)
      requires Sane(Data())
      ensures r == Extrapolate(Data(), level, d)
    {
      var ms := ScanMultipliers();
      if ms == [] {
        return None;
      }
      MeanPositive(ms);
      var es := CollectEstimates(level, d, Mean(ms));
      r := if es == [] then None else Some(Mean(es));
    }

    /**
     * `get_multipliers()` cut to five: the multipliers of the pairs (L-1, L)
     * of recorded levels, for L from one below the scan's top down to 1.
     */
    method ScanMultipliers() returns (ms: seq<real>)
      requires Sane(Data())
      ensures ms == Multipliers(Data())
    {
      var e := Data();
      ms := [];
      var top := ScanTop(e);
      if top.None? {
        return;
      }
      ghost var total := MultipliersFrom(e, top.value - 1, 5);
      var upper := top.value - 1;
      var k: nat := 5;
      while upper >= 1 && k > 0
        invariant ms + MultipliersFrom(e, upper, k) == total
        decreases upper
      {
        ghost var upper0, k0, ms0 := upper, k, ms;
        var m := PairMultiplier(e, upper);
        if m.Some? {
          ms := ms + [m.value];
          k := k - 1;
        }
        upper := upper - 1;
        MultipliersStep(e, upper0, k0, ms0, upper, k, ms, total);
      }
    }

    /**
     * `get_estimates(m)` cut to five: the scaled prices of the recorded levels,
     * newest level first.
     */
    method CollectEstimates(level: int, d: int, m: real) returns (es: seq<real>)
      requires Sane(Data()) && m > 0.0
      ensures es == Take(EstimatesFrom(Data().prices, level, d, m), 5)
    {
      var e := Data();
      es := [];
      SaneEstimable(e);
      ghost var total := EstimatesFrom(e.prices, level, d, m);
      var i := |e.prices|;
      assert e.prices[..i] == e.prices;
      while i > 0 && |es| < 5
        invariant 0 <= i <= |e.prices| && Estimable(e.prices[..i])
        invariant es + EstimatesFrom(e.prices[..i], level, d, m) == total
        decreases i
      {
        EstimatesStep(e.prices, i, level, d, m, es, total);
        es := es + LevelEstimates(e.prices[i - 1], level, d, m);
        i := i - 1;
      }
      if i > 0 {
        TakeOfLong(es, EstimatesFrom(e.prices[..i], level, d, m), 5);
      } else {
        assert e.prices[..i] == [];
      }
      es := Take(es, 5);
    }

    /** `get_price_info_with_payback(level, d)`. */
    method PriceInfoWithPayback(level: int, d: int) returns (r: PriceInfo)
      requires Sane(Data()) && PaybackDefined(Data(), level)
      ensures r == Estimation.PriceInfoWithPayback(Data(), level, d)
    {
      var q := GetPrice(Data(), level, d);
      var price := q.price;
      var isEstimate := q.isEstimate;
      if price.None? {
        price := NewPriceEstimate(level, d);
        isEstimate := true;
      }
      if price.None? {
        return PriceInfo(None, None, false);
      }
      r := PriceInfo(price, Some(Payback(Data(), price.value, level)), isEstimate);
    }
  }

  /** What `add_cost` looks at: the level's prices, if the level is filed, decide whether (level, d) is taken. */
  lemma FilingFacts(e: ElemData, p: Price, i: Option<nat>, ps: seq<Price>)
    requires WellFormed(e)
    requires i == IndexOfLevel(e.prices, p.level)
    requires ps == if i.Some? then e.prices[i.value].discounts else []
    ensures Recorded(e, p.level, p.discount) == FindDiscount(ps, p.discount)
    ensures FindDiscount(ps, p.discount).None? ==> WellFormed(e.(prices := AddPrice(e.prices, p)))
  {
    if i.Some? {
      FindLevelFirst(e.prices, p.level, i.value);
    }
    if FindDiscount(ps, p.discount).None? {
      AddPriceWellFormed(e, p);
    }
  }

  /** One step of the downward scan: the pair at `upper` contributes its multiplier or nothing. */
  lemma MultipliersStep(e: ElemData, upper0: int, k0: nat, ms0: seq<real>,
                        upper: int, k: nat, ms: seq<real>, total: seq<real>)
    requires Sane(e) && upper0 >= 1 && k0 > 0 && upper == upper0 - 1
    requires ms0 + MultipliersFrom(e, upper0, k0) == total
    requires PairMultiplier(e, upper0).Some? ==> ms == ms0 + [PairMultiplier(e, upper0).value] && k0 == k + 1
    requires PairMultiplier(e, upper0).None? ==> ms == ms0 && k == k0
    ensures ms + MultipliersFrom(e, upper, k) == total
  {
    if PairMultiplier(e, upper0).Some? {
      assert ms + MultipliersFrom(e, upper, k) ==
        ms0 + ([PairMultiplier(e, upper0).value] + MultipliersFrom(e, upper, k));
    }
  }

  /** One step of the walk over levels, newest first. */
  lemma EstimatesStep(prices: seq<LevelPrices>, i: nat, level: int, d: int, m: real, es: seq<real>, total: seq<real>)
    requires m > 0.0 && 0 < i <= |prices| && Estimable(prices[..i])
    requires es + EstimatesFrom(prices[..i], level, d, m) == total
    ensures Estimable(prices[..i - 1])
    ensures (es + LevelEstimates(prices[i - 1], level, d, m)) +
      EstimatesFrom(prices[..i - 1], level, d, m) == total
  {
    assert prices[..i][..i - 1] == prices[..i - 1];
    assert prices[..i][i - 1] == prices[i - 1];
    EstimatesUnfold(prices[..i], level, d, m);
    AppendAssoc(es, LevelEstimates(prices[i - 1], level, d, m), EstimatesFrom(prices[..i - 1], level, d, m));
  }

  /** Every level of a sane table holds a price and none observed at 100 percent off. */
  lemma SaneEstimable(e: ElemData)
    requires Sane(e)
    ensures Estimable(e.prices)
  {
    forall i | 0 <= i < |e.prices| ensures EstimableLevel(e.prices[i]) {
      assert |e.prices[i].discounts| > 0;
    }
  }

  lemma TakeOfLong(a: seq<real>, b: seq<real>, n: nat)
    requires |a| >= n
    ensures Take(a + b, n) == Take(a, n)
  {
    assert (a + b)[..n] == a[..n];
  }

  /** Filing the price asked for at (level, d) makes it the exact, non-estimated lookup result. */
  lemma AddedCostIsQuoted(e: ElemData, level: int, d: int, amount: real, u: Unit)
    requires Sane(e) && Recorded(e, level, d).None? && !Completed(e, level)
    requires amount > 0.0 && d != 100
    ensures Sane(e.(prices := AddPrice(e.prices, Price(level, amount, u, d))))
    ensures GetPrice(e.(prices := AddPrice(e.prices, Price(level, amount, u, d))), level, d) ==
      Quote(Some(Value(Price(level, amount, u, d))), false)
  {
    var p := Price(level, amount, u, d);
    AddPriceWellFormed(e, p);
    AddPriceNumeric(e, p);
    RecordedAfterAdd(e, p, level, d);
  }

  /** Once marked completed at L, no level at or above L has a looked-up price. */
  lemma CompletedHidesLevels(e: ElemData, last: int, level: int, d: int)
    requires Sane(e) && level >= last
    ensures GetPrice(e.(lastLevel := Some(last)), level, d).price.None?
  {
  }

  /** Marking completion does not change the price of a level below it. */
  lemma CompletionKeepsLowerLevels(e: ElemData, last: int, level: int, d: int)
    requires Sane(e) && level < last && !Completed(e, level)
    ensures GetPrice(e.(lastLevel := Some(last)), level, d) == GetPrice(e, level, d)
  {
  }
}
