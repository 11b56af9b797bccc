/**
 * The unit registry (`UnitStorage`) and the display scaling of a decimal
 * amount (`factor_price`).
 */
module Units {
  import opened Wrappers
  import opened Decimals

  /** An order-of-magnitude unit: its short code and its decimal exponent. */
  datatype Unit = Unit(short: string, exp: nat)

  /** The fixed registry, in the order the program declares it. */
  const Registry: seq<Unit> := [
    Unit("", 0), Unit("M", 6), Unit("B", 9), Unit("T", 12),
    Unit("q", 15), Unit("Q", 18), Unit("s", 21), Unit("S", 24),
    Unit("o", 27), Unit("N", 30), Unit("d", 33), Unit("U", 36),
    Unit("D", 39), Unit("Td", 42), Unit("qd", 45), Unit("Qd", 48)
  ]

  /** The absolute value a unit stands for (`Unit.multiplier`). */
  function Multiplier(u: Unit): real
  {
    Pow10(u.exp)
  }

  /** The exponents present in the registry: 0 and every multiple of 3 from 6 to 48. */
  predicate IsRegisteredExponent(e: int)
  {
    e == 0 || (6 <= e <= 48 && e % 3 == 0)
  }

  function FindByExponent(units: seq<Unit>, e: int): Option<Unit>
  {
    if units == [] then None
    else if units[0].exp == e then Some(units[0])
    else FindByExponent(units[1..], e)
  }

  function FindByShort(units: seq<Unit>, s: string): Option<Unit>
  {
    if units == [] then None
    else if units[0].short == s then Some(units[0])
    else FindByShort(units[1..], s)
  }

  /** `get_unit_for_exponent`: None where the program's dictionary raises KeyError. */
  function UnitForExponent(e: int): (r: Option<Unit>)
    ensures r.Some? <==> IsRegisteredExponent(e)
    ensures r.Some? ==> r.value.exp == e && r.value in Registry
  {
    FindByExponentProps(Registry, e);
    RegistryExponents(e);
    FindByExponent(Registry, e)
  }

  lemma {:induction false} FindByExponentProps(units: seq<Unit>, e: int)
    ensures var r := FindByExponent(units, e);
      (r.Some? ==> r.value.exp == e && r.value in units) &&
      (r.Some? <==> exists u :: u in units && u.exp == e)
  {
    if units != [] {
      FindByExponentProps(units[1..], e);
      if units[0].exp != e {
        assert forall u :: u in units && u.exp == e ==> u in units[1..];
      }
    }
  }

  /** Position k of the registry holds exponent 0 for k = 0 and 3k + 3 otherwise. */
  lemma RegistryLayout()
    ensures |Registry| == 16
    ensures forall k :: 0 <= k < 16 ==> Registry[k].exp == (if k == 0 then 0 else 3 * k + 3)
  {
  }

  lemma RegistryExponents(e: int)
    ensures (exists u :: u in Registry && u.exp == e) <==> IsRegisteredExponent(e)
  {
    RegistryLayout();
    if IsRegisteredExponent(e) {
      var k := if e == 0 then 0 else e / 3 - 1;
      assert Registry[k] in Registry && Registry[k].exp == e;
    }
  }

  /** No two registry entries share an exponent or a short code. */
  lemma RegistryInjective()
    ensures forall i, j :: 0 <= i < j < |Registry| ==> Registry[i].exp != Registry[j].exp
    ensures forall i, j :: 0 <= i < j < |Registry| ==> Registry[i].short != Registry[j].short
  {
    RegistryLayout();
  }

  /** `get_unit_for_short`: None where the program's dictionary raises KeyError. */
  function UnitForShort(s: string): (r: Option<Unit>)
    ensures r.Some? ==> r.value.short == s && r.value in Registry
    ensures r.Some? <==> exists u :: u in Registry && u.short == s
  {
    FindByShortProps(Registry, s);
    FindByShort(Registry, s)
  }

  lemma {:induction false} FindByShortProps(units: seq<Unit>, s: string)
    ensures var r := FindByShort(units, s);
      (r.Some? ==> r.value.short == s && r.value in units) &&
      (r.Some? <==> exists u :: u in units && u.short == s)
  {
    if units != [] {
      FindByShortProps(units[1..], s);
      if units[0].short != s {
        assert forall u :: u in units && u.short == s ==> u in units[1..];
      }
    }
  }

  /** `is_valid_unit_short`: some registered unit has the code. */
  function IsValidUnitShort(s: string): (r: bool)
    ensures r <==> exists u :: u in Registry && u.short == s
  {
    UnitForShort(s).Some?
  }

  /**
   * The registry is a bijection between exponents and short codes: looking up
   * the short code of the unit found for an exponent gives that unit back, and
   * the other way round.
   */
  lemma ExponentShortRoundTrip(e: int)
    requires IsRegisteredExponent(e)
    ensures UnitForShort(UnitForExponent(e).value.short) == UnitForExponent(e)
  {
    var a := UnitForExponent(e).value;
    var c := UnitForShort(a.short);
    assert c.Some? by { assert a in Registry && a.short == a.short; }
    SameShortSameUnit(a, c.value);
  }

  lemma ShortExponentRoundTrip(s: string)
    requires IsValidUnitShort(s)
    ensures UnitForExponent(UnitForShort(s).value.exp) == UnitForShort(s)
  {
    var b := UnitForShort(s).value;
    var c := UnitForExponent(b.exp);
    assert IsRegisteredExponent(b.exp) by { RegistryExponents(b.exp); }
    SameExponentSameUnit(b, c.value);
  }

  lemma SameShortSameUnit(a: Unit, b: Unit)
    requires a in Registry && b in Registry && a.short == b.short
    ensures a == b
  {
    RegistryInjective();
    var i :| 0 <= i < |Registry| && Registry[i] == a;
    var j :| 0 <= j < |Registry| && Registry[j] == b;
    assert !(i < j) && !(j < i);
  }

  lemma SameExponentSameUnit(a: Unit, b: Unit)
    requires a in Registry && b in Registry && a.exp == b.exp
    ensures a == b
  {
    RegistryInjective();
    var i :| 0 <= i < |Registry| && Registry[i] == a;
    var j :| 0 <= j < |Registry| && Registry[j] == b;
    assert !(i < j) && !(j < i);
  }

  /** The quantum `factor_price` rounds the rescaled amount to: 2, 0 or 3 fractional digits. */
  datatype Quantum = Hundredths | Ones | Thousandths

  function FractionDigits(q: Quantum): nat
  {
    match q
    case Hundredths => 2
    case Ones => 0
    case Thousandths => 3
  }

  /**
   * The display exponent `factor_price` picks for a value whose adjusted
   * exponent is `adj`: 0 up to 7, and above that the largest multiple of 3 not
   * above `adj`.
   */
  function DisplayExponent(adj: int): (e: int)
    ensures adj <= 7 ==> e == 0
    ensures adj > 7 ==> e >= 6 && e % 3 == 0 && e <= adj < e + 3
  {
    if adj <= 7 then 0 else adj - adj % 3
  }

  function QuantumFor(adj: int): (q: Quantum)
    ensures adj <= 1 <==> FractionDigits(q) == 2
    ensures 1 < adj <= 7 <==> FractionDigits(q) == 0
    ensures 7 < adj <==> FractionDigits(q) == 3
  {
    if adj <= 1 then Hundredths else if adj <= 7 then Ones else Thousandths
  }

  /** What `factor_price` returns before quantising: the rescaled amount, its quantum and its unit. */
  datatype Display = Display(mantissa: Decimal, quantum: Quantum, unit: Unit)

  /** The registry lookup that fails (KeyError in the program) for a display exponent above 48. */
  datatype ScaleError = UnknownExponent(exp: int)

  /**
   * `factor_price` up to the final `quantize`: it fails exactly when the
   * adjusted exponent is 51 or more; otherwise the amount is `x.scaleb(-e)`
   * for the unit's exponent e; from adjusted exponent 8 on (amounts of 10^8
   * and more) it has one to three integer digits, and below that it is unchanged.
   */
  function FactorPrice(x: Decimal): (r: Result<Display, ScaleError>)
    ensures r.Ok? <==> Adjusted(x) <= 50
    ensures r.Err? ==> r.error == UnknownExponent(DisplayExponent(Adjusted(x)))
    ensures r.Ok? ==> r.value.unit.exp == DisplayExponent(Adjusted(x))
    ensures r.Ok? ==> r.value.quantum == QuantumFor(Adjusted(x))
    ensures r.Ok? ==> r.value.mantissa == Decimal(x.coef, x.exp - r.value.unit.exp)
    ensures r.Ok? && Adjusted(x) > 7 ==> 0 <= Adjusted(r.value.mantissa) <= 2
    ensures r.Ok? && Adjusted(x) <= 7 ==> r.value.mantissa == x
  {
    var adj := Adjusted(x);
    var e := DisplayExponent(adj);
    DisplayExponentRegistered(adj);
    match UnitForExponent(e)
    case None => Err(UnknownExponent(e))
    case Some(u) =>
      assert Adjusted(Decimal(x.coef, x.exp - e)) == adj - e;
      Ok(Display(Decimal(x.coef, x.exp - e), QuantumFor(adj), u))
  }

  lemma DisplayExponentRegistered(adj: int)
    ensures IsRegisteredExponent(DisplayExponent(adj)) <==> adj <= 50
  {
  }
}
