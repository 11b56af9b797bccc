/**
 * `Research`: a player's progress in one research, and the stream of
 * upcoming levels with their costs and paybacks (`get_payback_values`).
 */
module Progression {
  import opened Wrappers
  import opened Prices
  import opened Estimation
  import opened Database

  /** One upcoming level: its cost, whether the cost is estimated, and its payback. */
  datatype PaybackValue = PaybackValue(cost: real, isEstimate: bool, payback: Option<real>, level: nat)

  /**
   * The percent formula's growth rate is positive; then every level from 0 on
   * has a defined payback.
   */
  predicate Growing(e: ElemData)
  {
    e.kind.Percent? ==> e.percent > 0.0
  }

  lemma GrowingDefined(e: ElemData, level: int)
    requires Growing(e) && level >= 0
    ensures PaybackDefined(e, level)
  {
    if e.kind.Percent? {
      assert e.percent * (level as real) >= 0.0;
    }
  }

  /**
   * The value `get_payback_values` yields at `level`: nothing at or above the
   * completion level or when the level's price can neither be looked up nor
   * extrapolated.
   */
  ghost function Entry(e: ElemData, d: int, level: nat): Option<PaybackValue>
  {
    if !(Sane(e) && Growing(e)) || Completed(e, level) then None
    else
      GrowingDefined(e, level);
      var info := PriceInfoWithPayback(e, level, d);
      if info.price.None? then None
      else Some(PaybackValue(info.price.value, info.isEstimate, info.payback, level))
  }

  /**
   * The first `n` values of a generator that yields `entry(l)` for
   * l = start, start + 1, ... and stops at the first level without one.
   */
  function Walk(entry: nat -> Option<PaybackValue>, start: nat, n: nat): seq<PaybackValue>
    decreases n
  {
    if n == 0 then []
    else match entry(start)
      case None => []
      case Some(v) => [v] + Walk(entry, start + 1, n - 1)
  }

  /** The k-th value is the entry of level start + k, and at most `n` are taken. */
  lemma {:induction false} WalkShape(entry: nat -> Option<PaybackValue>, start: nat, n: nat)
    ensures |Walk(entry, start, n)| <= n
    ensures forall k :: 0 <= k < |Walk(entry, start, n)| ==> entry(start + k) == Some(Walk(entry, start, n)[k])
    decreases n
  {
    if n > 0 && entry(start).Some? {
      WalkShape(entry, start + 1, n - 1);
    }
  }

  /** A walk cut short stopped at a level without an entry. */
  lemma {:induction false} WalkStop(entry: nat -> Option<PaybackValue>, start: nat, n: nat)
    requires |Walk(entry, start, n)| < n
    ensures entry(start + |Walk(entry, start, n)|).None?
    decreases n
  {
    if entry(start).Some? {
      WalkStop(entry, start + 1, n - 1);
    }
  }

  /**
   * Restarting after `k` values at the next level continues the walk: this is
   * what `get_next_payback_values` relies on when it asks for the values from
   * `v.level + 1`.
   */
  lemma {:induction false} WalkRestart(entry: nat -> Option<PaybackValue>, start: nat, n: nat, k: nat)
    requires k <= n && k <= |Walk(entry, start, n)|
    ensures Walk(entry, start, n)[k..] == Walk(entry, start + k, n - k)
    decreases k
  {
    if k > 0 {
      WalkRestart(entry, start + 1, n - 1, k - 1);
    }
  }

  /** Asking for more values only extends the walk: the bound models how far the generator is consumed. */
  lemma {:induction false} WalkPrefix(entry: nat -> Option<PaybackValue>, start: nat, n: nat, m: nat)
    requires n <= m
    ensures |Walk(entry, start, n)| <= |Walk(entry, start, m)|
    ensures Walk(entry, start, n) == Walk(entry, start, m)[..|Walk(entry, start, n)|]
    decreases n
  {
    if n > 0 && entry(start).Some? {
      WalkPrefix(entry, start + 1, n - 1, m - 1);
    }
  }

  /** A full walk of `n` values extends by the next level's entry when there is one. */
  lemma {:induction false} WalkSnoc(entry: nat -> Option<PaybackValue>, start: nat, n: nat)
    requires |Walk(entry, start, n)| == n && entry(start + n).Some?
    ensures Walk(entry, start, n + 1) == Walk(entry, start, n) + [entry(start + n).value]
    decreases n
  {
    if n > 0 {
      WalkSnoc(entry, start + 1, n - 1);
    }
  }

  /** One step of the generator's loop: yield the level's entry and move up, or stop. */
  lemma WalkStep(entry: nat -> Option<PaybackValue>, level: nat, k: nat, r: seq<PaybackValue>, total: seq<PaybackValue>)
    requires k > 0 && r + Walk(entry, level, k) == total
    ensures entry(level).None? ==> r == total
    ensures entry(level).Some? ==> (r + [entry(level).value]) + Walk(entry, level + 1, k - 1) == total
  {
    if entry(level).Some? {
      var v := entry(level).value;
      assert (r + [v]) + Walk(entry, level + 1, k - 1) == r + ([v] + Walk(entry, level + 1, k - 1));
    }
  }

  /**
   * The entries of one research by level, characterised level by level so
   * that a proof sees the price query behind an entry only where it names
   * that level.
   */
  ghost function Entries(e: ElemData, d: int): (f: nat -> Option<PaybackValue>)
    ensures forall l: nat {:trigger Entry(e, d, l)} :: f(l) == Entry(e, d, l)
  {
    var g: nat -> Option<PaybackValue> := (l: nat) => Entry(e, d, l);
    assert forall l: nat {:trigger Entry(e, d, l)} :: g(l) == Entry(e, d, l);
    var f: nat -> Option<PaybackValue> :| forall l: nat {:trigger Entry(e, d, l)} :: f(l) == Entry(e, d, l);
    f
  }

  /** The first `n` values `get_payback_values(d, start)` yields. */
  ghost function PaybackValues(e: ElemData, d: int, start: nat, n: nat): seq<PaybackValue>
  {
    Walk(Entries(e, d), start, n)
  }

  /**
   * A level's value carries the level, lies below the completion level, and
   * holds the cost, flag and payback of the price query at that level; there
   * is none exactly when the level is completed or has no price.
   */
  lemma EntryIsPriceInfo(e: ElemData, d: int, level: nat)
    requires Sane(e) && Growing(e)
    ensures PaybackDefined(e, level)
    ensures Entries(e, d)(level) == Entry(e, d, level)
    ensures Entry(e, d, level).None? <==>
      Completed(e, level) || PriceInfoWithPayback(e, level, d).price.None?
    ensures Entry(e, d, level).Some? ==>
      var info := PriceInfoWithPayback(e, level, d);
      Entry(e, d, level).value == PaybackValue(info.price.value, info.isEstimate, info.payback, level)
  {
    GrowingDefined(e, level);
  }

  /** Every value the stream yields has a payback, computed from its cost at its level. */
  lemma EntryPayback(e: ElemData, d: int, level: nat)
    requires Sane(e) && Growing(e) && Entry(e, d, level).Some?
    ensures PaybackDefined(e, level)
    ensures Entry(e, d, level).value.level == level && !Completed(e, level)
    ensures Entry(e, d, level).value.payback == Some(Payback(e, Entry(e, d, level).value.cost, level))
  {
    EntryIsPriceInfo(e, d, level);
  }

  /** A value the stream yields at a level carries that level. */
  lemma EntryLevel(e: ElemData, d: int, level: nat)
    requires Entries(e, d)(level).Some?
    ensures Entries(e, d)(level).value.level == level
  {
    assert Entry(e, d, level).Some?;
    EntryIsPriceInfo(e, d, level);
  }

  /**
   * The stream visits consecutive levels from `start`, each below the
   * completion level, each with a payback, never more than `n` of them.
   */
  lemma PaybackValuesShape(e: ElemData, d: int, start: nat, n: nat)
    requires Sane(e) && Growing(e)
    ensures |PaybackValues(e, d, start, n)| <= n
    ensures forall k :: 0 <= k < |PaybackValues(e, d, start, n)| ==>
      PaybackValues(e, d, start, n)[k].level == start + k &&
      !Completed(e, start + k) &&
      PaybackValues(e, d, start, n)[k].payback.Some?
  {
    var r := PaybackValues(e, d, start, n);
    WalkShape(Entries(e, d), start, n);
    forall k | 0 <= k < |r|
      ensures r[k].level == start + k && !Completed(e, start + k) && r[k].payback.Some?
    {
      assert Entries(e, d)(start + k) == Some(r[k]);
      EntryIsPriceInfo(e, d, start + k);
      EntryPayback(e, d, start + k);
    }
  }

  /**
   * The stream stops before `n` values only at a level that is completed or
   * whose price can neither be looked up nor extrapolated.
   */
  lemma PaybackValuesStop(e: ElemData, d: int, start: nat, n: nat)
    requires Sane(e) && Growing(e)
    requires |PaybackValues(e, d, start, n)| < n
    ensures var l := start + |PaybackValues(e, d, start, n)|;
      PaybackDefined(e, l) &&
      (Completed(e, l) || PriceInfoWithPayback(e, l, d).price.None?)
  {
    WalkStop(Entries(e, d), start, n);
    EntryIsPriceInfo(e, d, start + |PaybackValues(e, d, start, n)|);
  }

  /** After `mark_completed(L)` the stream yields no level at or above L. */
  lemma CompletedStreamBelow(e: ElemData, d: int, last: int, start: nat, n: nat)
    requires Sane(e) && Growing(e)
    ensures Sane(e.(lastLevel := Some(last))) && Growing(e.(lastLevel := Some(last)))
    ensures forall k :: 0 <= k < |PaybackValues(e.(lastLevel := Some(last)), d, start, n)| ==>
      PaybackValues(e.(lastLevel := Some(last)), d, start, n)[k].level < last
  {
    PaybackValuesShape(e.(lastLevel := Some(last)), d, start, n);
  }

  class Research {
    const name: string
    var level: nat
    const elem: Elem

    /** A research without a saved level starts at level 0. */
    constructor(name: string, startLevel: Option<nat>, elem: Elem)
      ensures this.name == name && this.elem == elem
      ensures level == if startLevel.None? then 0 else startLevel.value
    {
      this.name := name;
      this.elem := elem;
      this.level := if startLevel.None? then 0 else startLevel.value;
    }

    /** `increase_level()`: the player bought the next level. */
    method IncreaseLevel()
      modifies this
      ensures level == old(level) + 1
    {
      level := level + 1;
    }

    /**
     * The first `n` values of `get_payback_values(d, start_level)`, starting
     * at the research's own level when no start is given.
     */
    method GetPaybackValues(d: int, startLevel: Option<nat>, n: nat) returns (r: seq<PaybackValue>)
      requires Sane(elem.Data()) && Growing(elem.Data())
      ensures r == PaybackValues(elem.Data(), d, if startLevel.None? then level else startLevel.value, n)
    {
      ghost var e := elem.Data();
      var l: nat := if startLevel.None? then level else startLevel.value;
      ghost var total := PaybackValues(e, d, l, n);
      r := [];
      while |r| < n
        invariant |r| <= n
        invariant r + PaybackValues(e, d, l, n - |r|) == total
        decreases n - |r|
      {
        var v := LevelValue(l, d);
        WalkStep(Entries(e, d), l, n - |r|, r, total);
        if v.None? {
          break;
        }
        r := r + [v.value];
        l := l + 1;
      }
    }

    /**
     * One pass of the generator's loop body: nothing at or above the
     * completion level or without a price, else the level's value.
     */
    method LevelValue(l: nat, d: int) returns (v: Option<PaybackValue>)
      requires Sane(elem.Data()) && Growing(elem.Data())
      ensures v == Entries(elem.Data(), d)(l)
    {
      ghost var e := elem.Data();
      EntryIsPriceInfo(e, d, l);
      if elem.lastLevel.Some? && l >= elem.lastLevel.value {
        return None;
      }
      var info := elem.PriceInfoWithPayback(l, d);
      if info.price.None? {
        return None;
      }
      v := Some(PaybackValue(info.price.value, info.isEstimate, info.payback, l));
    }
  }
}
