// Domain/measurement/unit_converter.c: physical mass against display counts.
module UnitConverter {
  import opened FixedWidth
  import opened MassMath

  // Enumerations are byte codes: a decoded record may hold any of them.
  type MassUnit = u8
  const MASS_UNIT_KG: MassUnit := 0
  const MASS_UNIT_G: MassUnit := 1
  const MASS_UNIT_LB: MassUnit := 2
  const MASS_UNIT_COUNT: nat := 3

  datatype UnitDisplayConfig = UnitDisplayConfig(enabled: bool, decimal_places: u8, division_digit: u8)

  datatype DisplayWeightValue = DisplayWeightValue(
    display_count: i32, decimal_places: u8, division_digit: u8, unit: MassUnit, valid: bool, overflow: bool)

  function ScaleForDecimals(decimals: u8): Option<i64> {
    match decimals
    case 0 => Some(1)
    case 1 => Some(10)
    case 2 => Some(100)
    case 3 => Some(1000)
    case 4 => Some(10000)
    case 5 => Some(100000)
    case _ => None
  }

  // Micrograms in one unit.
  function UnitFactor(unit: MassUnit): Option<i64> {
    match unit
    case 0 => Some(1000000000)
    case 1 => Some(1000000)
    case 2 => Some(453592370)
    case _ => None
  }

  function CountToMass(count: i64, unit: MassUnit, decimal_places: u8): Option<i64> {
    if UnitFactor(unit).None? || ScaleForDecimals(decimal_places).None? then None
    else MulDivRounded(count, UnitFactor(unit).value, ScaleForDecimals(decimal_places).value)
  }

  predicate ValidDivision(division_digit: u8) { division_digit == 1 || division_digit == 2 || division_digit == 5 }

  function MassToCountUnbounded(mass_ug: i64, unit: MassUnit, decimal_places: u8, division_digit: u8): Option<i64> {
    if !ValidDivision(division_digit) || UnitFactor(unit).None? || ScaleForDecimals(decimal_places).None? then None
    else
      match MulDivRounded(mass_ug, ScaleForDecimals(decimal_places).value, UnitFactor(unit).value)
      case None => None
      case Some(count) => Quantized(count, division_digit)
  }

  function MassToDisplay(mass_ug: i64, unit: MassUnit, config: UnitDisplayConfig): (r: (bool, DisplayWeightValue)) {
    var blank := DisplayWeightValue(0, 0, 0, unit, false, false);
    if !config.enabled then (false, blank)
    else
      match MassToCountUnbounded(mass_ug, unit, config.decimal_places, config.division_digit)
      case None => (false, blank)
      case Some(quantized) =>
        var display := blank.(decimal_places := config.decimal_places, division_digit := config.division_digit);
        if quantized > 999999 || quantized < -99999 then (true, display.(overflow := true))
        else (true, display.(display_count := quantized, valid := true))
  }

  predicate ValidateDisplayConfig(capacity_ug: i64, unit: MassUnit, config: UnitDisplayConfig) {
    && capacity_ug > 0 && config.enabled
    && var (ok, display) := MassToDisplay(capacity_ug, unit, config);
    && ok && display.valid && !display.overflow
    && display.display_count >= config.division_digit
  }

  // ---- the display grid -------------------------------------------------------

  // Arguments under which the converters have a grid to work on.
  predicate OnGrid(unit: MassUnit, decimal_places: u8, division_digit: u8) {
    unit < MASS_UNIT_COUNT && decimal_places <= 5 && ValidDivision(division_digit)
  }

  // A scale is always below a factor, so converting to counts shrinks.
  lemma ScaleBelowFactor(unit: MassUnit, decimal_places: u8)
    ensures UnitFactor(unit).Some? <==> unit < MASS_UNIT_COUNT
    ensures ScaleForDecimals(decimal_places).Some? <==> decimal_places <= 5
    ensures unit < MASS_UNIT_COUNT && decimal_places <= 5 ==>
      1 <= ScaleForDecimals(decimal_places).value <= 100000 < 1000000 <= UnitFactor(unit).value <= 1000000000
  {}

  // Count -> mass -> count is the identity on every grid point whose mass fits.
  lemma GridRoundTrip(count: i64, unit: MassUnit, decimal_places: u8, division_digit: u8)
    requires OnGrid(unit, decimal_places, division_digit)
    requires count % division_digit == 0
    requires CountToMass(count, unit, decimal_places).Some?
    ensures MassToCountUnbounded(CountToMass(count, unit, decimal_places).value, unit, decimal_places, division_digit)
         == Some(count)
  {
    hide RoundHalfAway, Quantized;
    ScaleBelowFactor(unit, decimal_places);
    var f: int, s: int := UnitFactor(unit).value, ScaleForDecimals(decimal_places).value;
    var mass: int := CountToMass(count, unit, decimal_places).value;
    ScaleThere(count, f, s);
    assert MulDivRounded(mass, s, f) == Some(count);
    QuantizedFixedPoint(count, division_digit);
  }

  lemma MassMeansGrid(count: i64, unit: MassUnit, decimal_places: u8)
    requires CountToMass(count, unit, decimal_places).Some?
    ensures unit < MASS_UNIT_COUNT && decimal_places <= 5
  {
    hide MulDivRounded;
    ScaleBelowFactor(unit, decimal_places);
  }

  // Every count of 32 bits has a mass, which shows that count again.
  lemma SmallCountReturns(count: u32, unit: MassUnit, decimal_places: u8)
    requires unit < MASS_UNIT_COUNT && decimal_places <= 5
    ensures CountToMass(count, unit, decimal_places).Some?
    ensures MassToCountUnbounded(CountToMass(count, unit, decimal_places).value, unit, decimal_places, 1) == Some(count)
  {
    ScaleBelowFactor(unit, decimal_places);
    var f: int, s: int := UnitFactor(unit).value, ScaleForDecimals(decimal_places).value;
    SmallProductFits(count, f, s);
    GridRoundTrip(count, unit, decimal_places, 1);
  }

  lemma SmallProductFits(count: u32, f: nat, s: nat)
    requires 1 <= s <= 100000 && f <= 1000000000
    ensures FitsI64(RoundHalfAway(count * f, s))
  {
    MulLe(count, f, 1000000000);
    MulLe(1000000000, count, UINT32_MAX);
    assert count * f >= 0;
    RoundedStays(count * f, s);
  }

  // Rounding a quotient leaves no more than the numerator and half the divisor.
  lemma RoundedStays(n: nat, s: nat)
    requires s >= 1
    ensures 2 * Abs(RoundHalfAway(n, s)) <= 2 * n + s
  {
    RoundHalfAwayIsNearest(n, s);
    hide RoundHalfAway, NearestAwayFromZero;
    var q := RoundHalfAway(n, s);
    NearestBounds(n, s, q);
    FactorGrows(q, s);
  }

  lemma FactorGrows(q: int, s: int)
    requires s >= 1
    ensures Abs(q) <= Abs(q * s)
  {
    if q >= 0 { assert q * (s - 1) >= 0; } else { assert q * (s - 1) <= 0; }
  }

  // One kilogram is a thousand grams, and a pound is 453.59237 grams.
  lemma UnitsAre()
    ensures CountToMass(1, MASS_UNIT_KG, 0) == CountToMass(1000, MASS_UNIT_G, 0) == Some(1000000000)
    ensures CountToMass(100000000, MASS_UNIT_LB, 0) == CountToMass(45359237000, MASS_UNIT_G, 0)
    ensures CountToMass(1, MASS_UNIT_G, 5) == Some(10)
  {
    RoundHalfAwayExact(1000000000, 1);
    RoundHalfAwayExact(45359237000000000, 1);
    RoundHalfAwayExact(10, 100000);
  }

  lemma QuantizedFixedPoint(count: i64, division_digit: u8)
    requires ValidDivision(division_digit) && count % division_digit == 0
    ensures Quantized(count, division_digit) == Some(count)
  {
    var units := count / division_digit;
    assert units * division_digit == count;
    RoundHalfAwayExact(units, division_digit);
    QuantizedIs(count, division_digit);
  }

  // Scaling up, rounding, and scaling down again loses less than half.
  lemma ScaleThere(count: int, f: int, s: int)
    requires 1 <= s < f
    ensures RoundHalfAway(RoundHalfAway(count * f, s) * s, f) == count
  {
    var mass := RoundHalfAway(count * f, s);
    RoundHalfAwayIsNearest(count * f, s);
    NearestBounds(count * f, s, mass);
    NearestAwayFromZeroIsUnique(mass * s, f, count);
  }

  // Mass -> count answers exactly on a grid, and stays within half a display
  // division plus half a count of the true value.
  lemma GridError(mass: i64, unit: MassUnit, decimal_places: u8, division_digit: u8)
    ensures MassToCountUnbounded(mass, unit, decimal_places, division_digit).Some?
       <==> OnGrid(unit, decimal_places, division_digit)
    ensures OnGrid(unit, decimal_places, division_digit) ==>
      var c := MassToCountUnbounded(mass, unit, decimal_places, division_digit).value;
      var f: int, s: int := UnitFactor(unit).value, ScaleForDecimals(decimal_places).value;
      && c % division_digit == 0
      && 2 * Abs(c * f - mass * s) <= (division_digit + 1) * f
  {
    ScaleBelowFactor(unit, decimal_places);
    hide RoundHalfAway, Quantized, NearestAwayFromZero;
    if OnGrid(unit, decimal_places, division_digit) {
      var f: int, s: int := UnitFactor(unit).value, ScaleForDecimals(decimal_places).value;
      var count := GridCount(mass, unit, decimal_places);
      RoundHalfAwayIsNearest(mass * s, f);
      NearestBounds(mass * s, f, count);
      var c := OnDivision(count, division_digit);
      GridErrorSum(c, count, f, division_digit);
    }
  }

  // The nearest count on the division, which is at most half a division away.
  lemma OnDivision(count: i64, division_digit: u8) returns (c: int)
    requires ValidDivision(division_digit) && 9 * Abs(count) <= INT64_MAX + 10
    ensures Quantized(count, division_digit) == Some(c) && c % division_digit == 0
    ensures 2 * Abs(c - count) <= division_digit
  {
    QuantizedIs(count, division_digit);
    var units := RoundHalfAway(count, division_digit);
    hide RoundHalfAway, Quantized;
    NearestBounds(count, division_digit, units);
    c := units * division_digit;
    DivisionIs(c, division_digit, units, 0);
  }

  // The unquantized count: it is at most a tenth of the mass, so it fits.
  lemma GridCount(mass: i64, unit: MassUnit, decimal_places: u8) returns (count: i64)
    requires unit < MASS_UNIT_COUNT && decimal_places <= 5
    ensures var f, s := UnitFactor(unit).value, ScaleForDecimals(decimal_places).value;
            count == RoundHalfAway(mass * s, f) && MulDivRounded(mass, s, f) == Some(count)
    ensures 9 * Abs(count) <= Abs(mass) + 9
  {
    ScaleBelowFactor(unit, decimal_places);
    var f: int, s: int := UnitFactor(unit).value, ScaleForDecimals(decimal_places).value;
    var c := RoundHalfAway(mass * s, f);
    RoundHalfAwayIsNearest(mass * s, f);
    NearestBounds(mass * s, f, c);
    ShrinkBound(Abs(mass), s, f, Abs(c)) by {
      assert Abs(mass * s) == Abs(mass) * s && Abs(c * f) == Abs(c) * f;
    }
    count := c;
  }

  lemma ShrinkBound(m: nat, s: nat, f: nat, c: nat)
    requires 1 <= s && 10 * s <= f && 2 * (c * f) <= 2 * (m * s) + f
    ensures 9 * c <= m + 9
  {
    MulLe(m, 10 * s, f);
    Regrouped(m, 10, s);
    Regrouped(20, c, f);
    assert (2 * m + 10) * f == 2 * (m * f) + 10 * f;
    CancelFactor(20 * c, 2 * m + 10, f);
  }

  lemma Regrouped(a: int, b: int, c: int)
    ensures a * (b * c) == b * (a * c) == a * b * c
  {}

  lemma CancelFactor(a: int, b: int, f: nat)
    requires f > 0 && a * f <= b * f
    ensures a <= b
  {
    if b < a { MulLess(f, b, a); }
  }

  lemma GridErrorSum(c: int, count: int, f: int, division: int)
    requires f > 0 && 2 * Abs(c - count) <= division
    ensures 2 * Abs(c * f - count * f) <= division * f
  {
    assert c * f - count * f == (c - count) * f;
    MulLe(f, 2 * (c - count), division);
    MulLe(f, -division, 2 * (c - count));
  }

  // Heavier never shows less.
  lemma GridMonotone(mass: i64, heavier: i64, unit: MassUnit, decimal_places: u8, division_digit: u8)
    requires mass <= heavier && OnGrid(unit, decimal_places, division_digit)
    ensures MassToCountUnbounded(mass, unit, decimal_places, division_digit).Some?
    ensures MassToCountUnbounded(heavier, unit, decimal_places, division_digit).Some?
    ensures MassToCountUnbounded(mass, unit, decimal_places, division_digit).value
         <= MassToCountUnbounded(heavier, unit, decimal_places, division_digit).value
  {
    GridError(mass, unit, decimal_places, division_digit);
    GridError(heavier, unit, decimal_places, division_digit);
    ScaleBelowFactor(unit, decimal_places);
    var f: int, s: int := UnitFactor(unit).value, ScaleForDecimals(decimal_places).value;
    MulLe(s, mass, heavier);
    RoundHalfAwayMonotone(mass * s, heavier * s, f);
    var a := GridCount(mass, unit, decimal_places);
    var b := GridCount(heavier, unit, decimal_places);
    QuantizedIs(a, division_digit);
    QuantizedIs(b, division_digit);
    RoundHalfAwayMonotone(a, b, division_digit);
    MulLe(division_digit, RoundHalfAway(a, division_digit), RoundHalfAway(b, division_digit));
  }
}
