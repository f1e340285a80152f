// Domain/zero_tare/zero_tare.c: the operator's zero and tare.
module ZeroTare {
  import opened FixedWidth
  import opened MassMath
  import WeightMath

  datatype WeightActionResult =
    | ActionOk | NoSample | FilterNotReady | CalibrationInvalid | NotStable | OutOfZeroRange | TareActive | Overload
    | InvalidArgument | InternalError | ZeroDisabled

  function Saturated32(mass: i64): (r: i32)
    ensures FitsI32(mass) ==> r == mass
    ensures r < mass ==> r == 0x7FFF_FFFF
    ensures r > mass ==> r == -0x8000_0000
  {
    if mass > INT32_MAX then INT32_MAX else if mass < INT32_MIN then INT32_MIN else mass
  }

  // The counters wrap.
  function Next(sequence: u32): u32 { (sequence + 1) % TWO_32 }

  class ZeroTareState {
    var zero_offset_raw: i32
    var tare_weight: i32
    var tare_mass_ug: i64
    var tare_active: bool
    var zero_sequence: u32
    var tare_sequence: u32

    // Without a tare there is no tare mass, and the int32 copy saturates.
    predicate Valid()
      reads this
    {
      (!tare_active ==> tare_mass_ug == 0) && tare_weight == Saturated32(tare_mass_ug)
    }

    constructor ()
      ensures Valid() && !tare_active && zero_offset_raw == 0 && zero_sequence == 0 == tare_sequence
    {
      zero_offset_raw, tare_weight, tare_mass_ug, tare_active, zero_sequence, tare_sequence := 0, 0, 0, false, 0, 0;
    }

    method InitMass(restored_tare: i64, restore_tare: bool)
      modifies this
      ensures Valid() && zero_offset_raw == 0 && zero_sequence == 0 && tare_sequence == 0
      ensures tare_active == (restore_tare && restored_tare > 0) && (tare_active ==> tare_mass_ug == restored_tare)
      ensures tare_weight == Saturated32(tare_mass_ug)
    {
      zero_offset_raw, tare_weight, tare_mass_ug, tare_active, zero_sequence, tare_sequence := 0, 0, 0, false, 0, 0;
      if restore_tare && restored_tare > 0 {
        tare_mass_ug, tare_active := restored_tare, true;
        tare_weight := if restored_tare > INT32_MAX then INT32_MAX else restored_tare;
      }
    }

    // Why a zero is refused; with every test passed only an offset out of int32 fails.
    function ZeroRefused(filtered_raw: i32, calibration_raw_zero: i32, current_gross_ug: i64, zero_range_ug: i64,
                         stable: bool, calibration_valid: bool): WeightActionResult
      reads this`tare_active
    {
      if !calibration_valid then CalibrationInvalid
      else if tare_active then TareActive
      else if !stable then NotStable
      else if zero_range_ug <= 0 then ZeroDisabled
      else if Abs(current_gross_ug) > zero_range_ug then OutOfZeroRange
      else if !FitsI32(filtered_raw - calibration_raw_zero) then InternalError
      else ActionOk
    }

    // One reason at a time.
    lemma ZeroRefusedBecause(filtered_raw: i32, calibration_raw_zero: i32, gross: i64, range: i64, stable: bool,
                             calibrated: bool)
      ensures var result := ZeroRefused(filtered_raw, calibration_raw_zero, gross, range, stable, calibrated);
        var offset := filtered_raw - calibration_raw_zero;
        && (result == CalibrationInvalid <==> !calibrated) && (result == TareActive <==> calibrated && tare_active)
        && (result == NotStable <==> calibrated && !tare_active && !stable)
        && (result == ZeroDisabled <==> calibrated && !tare_active && stable && range <= 0)
        && (result == OutOfZeroRange <==>
              calibrated && !tare_active && stable && 0 < range && !(-range <= gross <= range))
        && (result == ActionOk <==>
              calibrated && !tare_active && stable && 0 < range && -range <= gross <= range
              && -0x8000_0000 <= offset < 0x8000_0000)
    {}

    method ApplyZeroMass(filtered_raw: i32, calibration_raw_zero: i32, current_gross_ug: i64, zero_range_ug: i64,
                         stable: bool, calibration_valid: bool) returns (result: WeightActionResult)
      requires Valid()
      modifies this`zero_offset_raw, this`zero_sequence
      ensures Valid()
      ensures result == ZeroRefused(filtered_raw, calibration_raw_zero, current_gross_ug, zero_range_ug, stable,
                                    calibration_valid)
      ensures if result == ActionOk
              then zero_offset_raw == filtered_raw - calibration_raw_zero && zero_sequence == Next(old(zero_sequence))
              else unchanged(this)
    {
      if !calibration_valid { return CalibrationInvalid; }
      if tare_active { return TareActive; }
      if !stable { return NotStable; }
      if zero_range_ug <= 0 { return ZeroDisabled; }
      if Magnitude(current_gross_ug) > zero_range_ug { return OutOfZeroRange; }
      var offset := WeightMath.ClampInt64ToInt32(filtered_raw - calibration_raw_zero);
      if offset.None? { return InternalError; }
      zero_offset_raw, zero_sequence := offset.value, Next(zero_sequence);
      return ActionOk;
    }

    method ResetZero() returns (result: WeightActionResult)
      requires Valid()
      modifies this`zero_offset_raw, this`zero_sequence
      ensures Valid() && result == ActionOk && zero_offset_raw == 0 && zero_sequence == Next(old(zero_sequence))
    {
      zero_offset_raw, zero_sequence := 0, Next(zero_sequence);
      return ActionOk;
    }

    method ApplyTareMass(current_gross_ug: i64, stable: bool, calibration_valid: bool, overload: bool)
      returns (result: WeightActionResult)
      requires Valid()
      modifies this`tare_mass_ug, this`tare_weight, this`tare_active, this`tare_sequence
      ensures Valid()
      ensures result == if !calibration_valid then CalibrationInvalid
                        else if overload then Overload else if !stable then NotStable else ActionOk
      ensures if result == ActionOk
              then
                && tare_active && tare_mass_ug == current_gross_ug && tare_sequence == Next(old(tare_sequence))
                && tare_weight == Saturated32(current_gross_ug)
              else unchanged(this)
    {
      if !calibration_valid { return CalibrationInvalid; }
      if overload { return Overload; }
      if !stable { return NotStable; }
      tare_mass_ug, tare_active, tare_sequence := current_gross_ug, true, Next(tare_sequence);
      tare_weight := if current_gross_ug > INT32_MAX then INT32_MAX
                     else if current_gross_ug < INT32_MIN then INT32_MIN else current_gross_ug;
      return ActionOk;
    }

    method ClearTare() returns (result: WeightActionResult)
      modifies this`tare_mass_ug, this`tare_weight, this`tare_active, this`tare_sequence
      ensures Valid() && result == ActionOk && !tare_active && tare_sequence == Next(old(tare_sequence))
      ensures tare_mass_ug == 0 == tare_weight
    {
      tare_weight, tare_mass_ug, tare_active, tare_sequence := 0, 0, false, Next(tare_sequence);
      return ActionOk;
    }
  }
}
