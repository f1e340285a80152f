// Domain/calibration/calibration_model.c: raw counts to mass through two points.
module CalibrationModel {
  import opened FixedWidth
  import opened MassMath
  import opened Configuration

  datatype CalibrationResult =
    | CalibrationOk | InvalidSpan | SpanTooSmall | InvalidWeight | CalibrationOverflow | Inconsistent

  datatype SensorDirection = DirectionUnknown | DirectionPositive | DirectionNegative

  const BLANK: CalibrationConfig := CalibrationConfig(0, 0, 0, 0, 0, 0, false, 0)

  function BuildMass(raw_zero: i32, raw_span: i32, span_mass_ug: i64, calibration_sequence: u32):
    (CalibrationResult, CalibrationConfig)
  {
    var raw_delta: i64 := raw_span - raw_zero;
    if span_mass_ug <= 0 then (InvalidWeight, BLANK)
    else if raw_delta == 0 then (InvalidSpan, BLANK)
    else if Magnitude(raw_delta) <= 1000 then (SpanTooSmall, BLANK)
    else if !FitsI32(raw_delta) then (CalibrationOverflow, BLANK)
    else
      (CalibrationOk, CalibrationConfig(raw_zero, raw_span, 0, 0, raw_delta, calibration_sequence, true, span_mass_ug))
  }

  function Validate(c: CalibrationConfig): (r: CalibrationResult)
    ensures r == CalibrationOk <==> CalibrationValid(c)
  {
    var raw_delta: i64 := c.raw_span - c.raw_zero;
    if !c.calibration_valid then Inconsistent
    else if c.span_mass_ug <= 0 then InvalidWeight
    else if raw_delta == 0 then InvalidSpan
    else if Magnitude(raw_delta) <= 1000 then SpanTooSmall
    else if !FitsI32(raw_delta) then CalibrationOverflow
    else if c.scale_denominator != 0 && c.scale_denominator != raw_delta then Inconsistent
    else CalibrationOk
  }

  function ConvertMass(c: CalibrationConfig, filtered_raw: i32, zero_offset_raw: i32): Option<i64> {
    if Validate(c) != CalibrationOk then None
    else
      var effective_zero: i64 := c.raw_zero + zero_offset_raw;
      var measurement_delta: i64 := filtered_raw - effective_zero;
      MulDivRounded(measurement_delta, c.span_mass_ug, c.raw_span - c.raw_zero)
  }

  function GetSensorDirection(c: CalibrationConfig): SensorDirection {
    if !c.calibration_valid || Validate(c) != CalibrationOk then DirectionUnknown
    else if c.raw_span > c.raw_zero then DirectionPositive else DirectionNegative
  }

  // The direction is known for a valid calibration, and is that in which counts
  // grow with mass.
  lemma DirectionIs(c: CalibrationConfig, raw: i32)
    ensures GetSensorDirection(c) == DirectionUnknown <==> !CalibrationValid(c)
    ensures CalibrationValid(c) && ConvertMass(c, raw, 0).Some? && ConvertMass(c, raw, 0).value > 0 ==>
              (GetSensorDirection(c) == DirectionPositive <==> raw > c.raw_zero)
  {
    hide RoundHalfAway;
    if CalibrationValid(c) && ConvertMass(c, raw, 0).Some? && ConvertMass(c, raw, 0).value > 0 {
      ProductSign(raw - c.raw_zero, c.span_mass_ug);
      RoundedSign((raw - c.raw_zero) * c.span_mass_ug, c.raw_span - c.raw_zero);
    }
  }

  lemma ProductSign(a: int, b: int)
    requires b > 0
    ensures a > 0 <==> a * b > 0
    ensures a < 0 <==> a * b < 0
  {
    if a > 0 { assert a * b > 0; } else if a < 0 { assert (-a) * b > 0; }
  }

  // A positive quotient has numerator and denominator of one sign.
  lemma RoundedSign(n: int, d: int)
    requires d != 0 && RoundHalfAway(n, d) > 0
    ensures n > 0 <==> d > 0
  {}

  // A calibration is built exactly from usable points, and what is built is valid.
  lemma BuiltIsValid(raw_zero: i32, raw_span: i32, span_mass_ug: i64, sequence: u32)
    ensures var (result, built) := BuildMass(raw_zero, raw_span, span_mass_ug, sequence);
            && (result == CalibrationOk <==>
                  span_mass_ug > 0 && 1000 < Abs(raw_span - raw_zero) && FitsI32(raw_span - raw_zero))
            && (result == CalibrationOk ==>
                  && CalibrationValid(built) && built.calibration_sequence == sequence && built.calibration_valid
                  && built.raw_zero == raw_zero && built.raw_span == raw_span && built.span_mass_ug == span_mass_ug)
            && (result == InvalidWeight <==> span_mass_ug <= 0)
            && (result == InvalidSpan <==> span_mass_ug > 0 && raw_span == raw_zero)
            && (result == SpanTooSmall <==> span_mass_ug > 0 && 0 < Abs(raw_span - raw_zero) <= 1000)
            && (result != CalibrationOk ==> built == BLANK)
  {}

  // Counts convert along the line through the two points, rounded to the nearest
  // microgram, and fail only when that mass is beyond int64.
  lemma ConversionIsNearest(c: CalibrationConfig, raw: i32, offset: i32)
    requires CalibrationValid(c)
    ensures var n, d := (raw - c.raw_zero - offset) * c.span_mass_ug, c.raw_span - c.raw_zero;
            && (ConvertMass(c, raw, offset).Some? ==>
                  NearestAwayFromZero(if d > 0 then n else -n, Abs(d), ConvertMass(c, raw, offset).value))
            && (ConvertMass(c, raw, offset).None? <==> !FitsI64(RoundHalfAway(n, d)))
  {
    var n, d := (raw - c.raw_zero - offset) * c.span_mass_ug, c.raw_span - c.raw_zero;
    hide RoundHalfAway, NearestAwayFromZero;
    if d > 0 {
      RoundHalfAwayIsNearest(n, d);
    } else {
      NegatedQuotient(n, d);
      RoundHalfAwayIsNearest(-n, -d);
    }
  }

  // The two points of a calibration convert to their masses.
  lemma PointsConvert(c: CalibrationConfig)
    requires CalibrationValid(c)
    ensures ConvertMass(c, c.raw_zero, 0) == Some(0)
    ensures ConvertMass(c, c.raw_span, 0) == Some(c.span_mass_ug)
  {
    var d: int := c.raw_span - c.raw_zero;
    RoundHalfAwayExact(0, d);
    RoundHalfAwayExact(c.span_mass_ug, d);
    assert d * c.span_mass_ug == c.span_mass_ug * d;
  }

  // The offset taken at a reading makes that reading zero.
  lemma ZeroedConverts(c: CalibrationConfig, raw: i32)
    requires CalibrationValid(c) && FitsI32(raw - c.raw_zero)
    ensures ConvertMass(c, raw, raw - c.raw_zero) == Some(0)
  {
    hide RoundHalfAway;
    var delta: int := raw - (c.raw_zero + (raw - c.raw_zero));
    assert delta == 0 && delta * c.span_mass_ug == 0;
    RoundHalfAwayExact(0, c.raw_span - c.raw_zero);
  }

  lemma NegatedQuotient(n: int, d: int)
    requires d != 0
    ensures RoundHalfAway(-n, -d) == RoundHalfAway(n, d)
  {
    RoundedQuotientUnique(0, Abs(d), 0);
  }

  // More counts are more mass, or less when the sensor runs the other way.
  lemma ConversionMonotone(c: CalibrationConfig, low: i32, high: i32, offset: i32)
    requires CalibrationValid(c) && low <= high
    requires ConvertMass(c, low, offset).Some? && ConvertMass(c, high, offset).Some?
    ensures GetSensorDirection(c) == DirectionPositive ==>
              ConvertMass(c, low, offset).value <= ConvertMass(c, high, offset).value
    ensures GetSensorDirection(c) == DirectionNegative ==>
              ConvertMass(c, low, offset).value >= ConvertMass(c, high, offset).value
  {
    var d: int, m: int, zero: int := c.raw_span - c.raw_zero, c.span_mass_ug, c.raw_zero + offset;
    MulLe(m, low - zero, high - zero);
    assert m * (low - zero) == (low - zero) * m && m * (high - zero) == (high - zero) * m;
    if d > 0 {
      RoundHalfAwayMonotone((low - zero) * m, (high - zero) * m, d);
    } else {
      RoundHalfAwayMonotone(-((high - zero) * m), -((low - zero) * m), -d);
      NegatedQuotient((low - zero) * m, d);
      NegatedQuotient((high - zero) * m, d);
    }
  }
}
