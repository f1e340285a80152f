// The rules every configuration in force obeys, number by number: what the
// validators of persistent_codec.c, metrology_config_validator.c,
// metrology_standard_validator.c and their neighbours let through, and nothing
// else.
module ConfigurationRules {
  import opened FixedWidth
  import opened MassMath
  import opened UnitConverter
  import opened Configuration
  import opened LittleEndian
  import opened PersistentCodec

  // Serial line, Modbus, Bluetooth, display and battery.
  predicate LinesInRange(c: DeviceConfig) {
    var line, cell := c.communication, c.battery;
    && line.baud_rate > 0 && line.parity in {0, 1, 2} && line.stop_bits in {0, 1}
    && 0 < line.modbus_address < 248 && line.protocol_mode in {0, 1, 2} && line.output_policy in {0, 1}
    && line.word_order in {0, 1} && line.recommended_poll_interval_ms > 0
    && (line.output_policy == 0 || line.output_period_ms > 0)
    && c.bluetooth.uart_baud_rate > 0 && c.bluetooth.protocol_version > 0
    && c.display.brightness < 8 && c.display.default_weight_view in {0, 1}
    && cell.divider_top_ohm > 0 && cell.divider_bottom_ohm > 0
    && (!cell.low_voltage_alarm_enable || 0 < cell.critical_low_mv < cell.low_warning_mv <= cell.recovery_mv)
  }

  // Limits in counts and in mass; a hysteresis band fits twice between the masses.
  predicate LimitsInOrder(a: AlarmConfig) {
    && a.weight_source in {0, 1} && a.lower_limit <= a.upper_limit && a.hysteresis_ug >= 0
    && (a.limit_function_enable ==>
          && a.lower_limit < a.upper_limit && a.lower_limit + a.hysteresis <= a.upper_limit
          && a.lower_limit_ug < a.upper_limit_ug && a.lower_limit_ug + 2 * a.hysteresis_ug <= a.upper_limit_ug)
  }

  // No filter, a mean of 2 to 32 samples, or smoothing of strength 1 to 8.
  predicate FilterUsable(mode: u8, strength: u8) {
    (mode == 0 && strength == 0) || (mode == 1 && 2 <= strength <= 32) || (mode in {2, 3} && 1 <= strength <= 8)
  }

  predicate ProfileUsable(p: WeighingProfileConfig) {
    && p.sample_rate <= 3 && p.gain <= 3 && FilterUsable(p.filter_mode, p.filter_strength)
    && 1 < p.stability_window < 33 && 9 < p.stability_hold_ms < 10001
    && p.stability_enter_threshold_ug >= 0 && p.stability_exit_threshold_ug >= p.stability_enter_threshold_ug
  }

  // The display can show the capacity, as a number of at least one division.
  predicate ShowsCapacity(capacity_ug: i64, unit: u8, d: UnitDisplayConfig) {
    && d.decimal_places <= 5 && d.division_digit in {1, 2, 5}
    && exists count: int :: d.division_digit <= count <= 999999
         && MassToCountUnbounded(capacity_ug, unit, d.decimal_places, d.division_digit) == Some(count)
  }

  predicate UnitsAgree(m: MetrologyConfig) {
    var mask: int := m.enabled_unit_mask;
    && (m.kg.enabled <==> mask % 2 == 1) && (m.kg.enabled ==> ShowsCapacity(m.capacity_ug, 0, m.kg))
    && (m.g.enabled <==> mask % 4 in {2, 3}) && (m.g.enabled ==> ShowsCapacity(m.capacity_ug, 1, m.g))
    && (m.lb.enabled <==> mask % 8 >= 4) && (m.lb.enabled ==> ShowsCapacity(m.capacity_ug, 2, m.lb))
    && ((m.active_unit == 0 && m.kg.enabled) || (m.active_unit == 1 && m.g.enabled)
        || (m.active_unit == 2 && m.lb.enabled))
  }

  predicate CellInRange(l: LoadCellMetadata, capacity_ug: i64) {
    && (l.rated_capacity_known ==> l.rated_capacity_ug >= capacity_ug)
    && (l.sensitivity_known ==> l.sensitivity_uv_per_v > 0) && (l.safe_load_known ==> l.safe_load_permille > 999)
  }

  // Class III: kilograms or grams, at most 10000 divisions of the verification
  // interval, 200 permille of initial zero, and 40 permille of later zero setting
  // and tracking together, the tracked part rounded.
  predicate ClassThree(m: MetrologyConfig) {
    var e := m.verification_interval_e_ug;
    && m.capacity_ug > 0 && m.active_unit in {0, 1}
    && e > 0 && DisplayDivisionMass(m) == Some(e) && m.capacity_ug < 10001 * e
    && m.initial_zero_range_permille <= 200
    && var tracked :=
         if m.auto_zero_tracking_range_ug > 0
         then RoundHalfAway(1000 * m.auto_zero_tracking_range_ug, m.capacity_ug) else 0;
       m.semi_auto_zero_range_permille + tracked <= 40
  }

  predicate MetrologySound(m: MetrologyConfig) {
    && m.capacity_ug > 0 && 0 <= m.zero_range_ug <= m.capacity_ug
    && (m.overload_threshold_ug == 0 || m.overload_threshold_ug >= m.capacity_ug)
    && UnitsAgree(m) && CellInRange(m.load_cell, m.capacity_ug)
    && m.active_profile in {0, 1} && ProfileUsable(m.high_precision) && ProfileUsable(m.high_speed)
    && (m.compliance_mode == 0 || (m.compliance_mode == 1 && ClassThree(m)))
  }

  // The two points are more than 1000 counts apart, and their distance is 32 bits.
  predicate PointsApart(c: CalibrationConfig) {
    var distance := c.raw_span - c.raw_zero;
    && c.span_mass_ug > 0 && (distance > 1000 || distance < -1000)
    && -0x8000_0000 <= distance <= 0x7FFF_FFFF
    && (c.scale_denominator == 0 || c.scale_denominator == distance)
  }

  predicate Rules(c: DeviceConfig) {
    && LinesInRange(c) && LimitsInOrder(c.alarm) && MetrologySound(c.metrology)
    && (c.calibration.calibration_valid ==> PointsApart(c.calibration))
  }

  // ---- the validators accept just that ---------------------------------------------------------

  lemma CommonRules(c: DeviceConfig)
    ensures CommonValid(c) && AlarmValid(c.alarm) <==> LinesInRange(c) && LimitsInOrder(c.alarm)
  {}

  lemma ProfileRules(p: WeighingProfileConfig)
    ensures ProfileValid(p) <==> ProfileUsable(p)
  {}

  lemma DisplayRules(capacity_ug: i64, unit: u8, d: UnitDisplayConfig)
    requires capacity_ug > 0 && unit < MASS_UNIT_COUNT && d.enabled
    ensures ValidateDisplayConfig(capacity_ug, unit, d) <==> ShowsCapacity(capacity_ug, unit, d)
  {
    hide MulDivRounded, Quantized;
    ScaleBelowFactor(unit, d.decimal_places);
  }

  lemma UnitRules(m: MetrologyConfig)
    requires m.capacity_ug > 0
    ensures UnitsAgree(m) <==>
              && m.active_unit < MASS_UNIT_COUNT && UnitEnabled(m.enabled_unit_mask, m.active_unit)
              && UnitValid(m, 0) && UnitValid(m, 1) && UnitValid(m, 2)
  {
    hide ValidateDisplayConfig, ShowsCapacity;
    if m.kg.enabled { DisplayRules(m.capacity_ug, 0, m.kg); }
    if m.g.enabled { DisplayRules(m.capacity_ug, 1, m.g); }
    if m.lb.enabled { DisplayRules(m.capacity_ug, 2, m.lb); }
  }

  lemma DivisionsFit(capacity: nat, e: nat)
    requires e > 0
    ensures capacity / e <= 10000 <==> capacity < 10001 * e
  {
    if capacity / e <= 10000 {
      MulLe(e, capacity / e, 10000);
      assert capacity == capacity / e * e + capacity % e;
    } else {
      MulLe(e, 10001, capacity / e);
      assert capacity == capacity / e * e + capacity % e;
    }
  }

  lemma StandardRules(m: MetrologyConfig)
    requires m.capacity_ug > 0
    ensures StandardValid(m) <==> m.compliance_mode == 0 || (m.compliance_mode == 1 && ClassThree(m))
  {
    hide DisplayDivisionMass, RoundHalfAway;
    if m.verification_interval_e_ug > 0 { DivisionsFit(m.capacity_ug, m.verification_interval_e_ug); }
    if m.auto_zero_tracking_range_ug > 0 { TrackedRange(m.auto_zero_tracking_range_ug, m.capacity_ug); }
  }

  // The rounded permille of a range, which is not negative, or is beyond int64.
  lemma TrackedRange(range: i64, capacity: i64)
    requires range > 0 && capacity > 0
    ensures RoundHalfAway(1000 * range, capacity) >= 0
    ensures MulDivRounded(range, 1000, capacity)
         == if FitsI64(RoundHalfAway(1000 * range, capacity)) then Some(RoundHalfAway(1000 * range, capacity)) else None
  {}

  lemma MetrologyRules(m: MetrologyConfig)
    ensures CanonicalValid(m) <==> MetrologySound(m)
  {
    if m.capacity_ug > 0 {
      UnitRules(m);
      StandardRules(m);
    }
    ProfileRules(m.high_precision);
    ProfileRules(m.high_speed);
    hide ProfileValid, ProfileUsable, UnitValid, UnitsAgree, StandardValid, ClassThree, UnitEnabled;
  }

  lemma CalibrationRules(c: CalibrationConfig)
    ensures CalibrationValid(c) <==> c.calibration_valid && PointsApart(c)
  {}

  // A configuration is valid exactly when it obeys the rules.
  lemma ValidIsRules(c: DeviceConfig)
    ensures ConfigValid(c) <==> Rules(c)
  {
    CommonRules(c);
    MetrologyRules(c.metrology);
    CalibrationRules(c.calibration);
    hide CommonValid, AlarmValid, CanonicalValid, CalibrationValid, LinesInRange, LimitsInOrder, MetrologySound,
      PointsApart;
  }

  // Whatever bytes are restored, of either schema, the configuration obeys them.
  lemma RestoredObeysRules(schema: nat, b: Bytes)
    requires Decode(schema, b).Restored?
    ensures Rules(Decode(schema, b).config) && Decode(schema, b).runtime.weight_view in {0, 1}
  {
    ValidIsRules(Decode(schema, b).config);
    hide Rules, ConfigValid, DecodeV1, DecodeV2;
    if schema == SCHEMA_V2 { Restored2(b); } else { Restored1(b); }
  }

  lemma Restored2(b: Bytes)
    requires DecodeV2(b).Restored?
    ensures ConfigValid(DecodeV2(b).config) && DecodeV2(b).runtime.weight_view in {0, 1}
  {
    hide ReadV1, ConfigValid, CommonValid, Parse;
  }

  lemma Restored1(b: Bytes)
    requires DecodeV1(b).Restored?
    ensures ConfigValid(DecodeV1(b).config) && DecodeV1(b).runtime.weight_view in {0, 1}
  {
    hide ReadV1, ConfigValid, CommonValid, LegacyV1Valid, CountToMass;
  }
}
