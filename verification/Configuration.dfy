// Config/device_config.h, Config/runtime_state.h and the validators a stored
// configuration must pass.  Enumerations are byte codes, because a decoded
// record can hold any byte there.
module Configuration {
  import opened FixedWidth
  import opened MassMath
  import opened UnitConverter

  datatype LoadCellMetadata = LoadCellMetadata(
    rated_capacity_known: bool, rated_capacity_ug: i64, sensitivity_known: bool,
    sensitivity_uv_per_v: u32, safe_load_known: bool, safe_load_permille: u16)

  datatype WeighingProfileConfig = WeighingProfileConfig(
    sample_rate: u8, gain: u8, filter_mode: u8, filter_strength: u8, stability_window: u8,
    stability_enter_threshold_ug: i64, stability_exit_threshold_ug: i64, stability_hold_ms: u32)

  // The V1 metrology fields, kept for records of the old schema.
  datatype LegacyMetrology = LegacyMetrology(
    capacity: u32, division: u32, decimal_places: u8, unit: u8, sample_mode: u8, cs1237_gain: u8,
    cs1237_data_rate: u8, filter_mode: u8, filter_strength: u8, zero_range: u32, overload_threshold: u32,
    auto_zero_tracking_enable: bool, auto_zero_tracking_range: u32)

  datatype MetrologyConfig = MetrologyConfig(
    capacity_ug: i64, verification_interval_e_ug: i64, zero_range_ug: i64, overload_threshold_ug: i64,
    auto_zero_tracking_range_ug: i64, initial_zero_range_permille: u16, semi_auto_zero_range_permille: u16,
    compliance_mode: u8, active_unit: u8, enabled_unit_mask: u8,
    kg: UnitDisplayConfig, g: UnitDisplayConfig, lb: UnitDisplayConfig,
    load_cell: LoadCellMetadata,
    high_precision: WeighingProfileConfig, high_speed: WeighingProfileConfig, active_profile: u8,
    legacy: LegacyMetrology)
  {
    // unit_display[unit]
    function UnitDisplay(unit: u8): UnitDisplayConfig
      requires unit < MASS_UNIT_COUNT
    {
      if unit == MASS_UNIT_KG then kg else if unit == MASS_UNIT_G then g else lb
    }

    // profiles[id]
    function Profile(id: u8): WeighingProfileConfig
      requires id < WEIGHING_PROFILE_COUNT
    {
      if id == WEIGHING_PROFILE_HIGH_PRECISION then high_precision else high_speed
    }
  }

  datatype CalibrationConfig = CalibrationConfig(
    raw_zero: i32, raw_span: i32, span_weight: u32, scale_numerator: i32, scale_denominator: i32,
    calibration_sequence: u32, calibration_valid: bool, span_mass_ug: i64)

  datatype StabilityConfig = StabilityConfig(
    window_size: u16, enter_threshold: u32, exit_threshold: u32, stable_hold_ms: u32)

  datatype CommunicationConfig = CommunicationConfig(
    baud_rate: u32, parity: u8, stop_bits: u8, modbus_address: u8, protocol_mode: u8, output_policy: u8,
    output_period_ms: u32, zero_suppress_range: u32, word_order: u8, response_delay_ms: u16,
    recommended_poll_interval_ms: u16, broadcast_write_policy: u8, pending_apply: bool)

  datatype BluetoothConfig = BluetoothConfig(uart_baud_rate: u32, protocol_version: u16, w02_configured: bool)

  datatype AlarmConfig = AlarmConfig(
    lower_limit: i32, upper_limit: i32, hysteresis: u32, weight_source: u8, internal_buzzer_enable: bool,
    external_buzzer_enable: bool, qualified_beep_enable: bool, limit_function_enable: bool,
    lower_limit_ug: i64, upper_limit_ug: i64, hysteresis_ug: i64)

  datatype DisplayConfig = DisplayConfig(brightness: u8, default_weight_view: u8)

  datatype BatteryConfig = BatteryConfig(
    divider_top_ohm: u32, divider_bottom_ohm: u32, calibration_gain_ppm: i32, calibration_offset_mv: i32,
    low_warning_mv: u32, critical_low_mv: u32, recovery_mv: u32, low_voltage_alarm_enable: bool)

  datatype SystemConfig = SystemConfig(
    tare_power_loss_retention: bool, watchdog_enable: bool, startup_auto_zero_enable: bool)

  datatype DeviceConfig = DeviceConfig(
    metrology: MetrologyConfig, calibration: CalibrationConfig, stability: StabilityConfig,
    communication: CommunicationConfig, bluetooth: BluetoothConfig, alarm: AlarmConfig, display: DisplayConfig,
    battery: BatteryConfig, system: SystemConfig)

  datatype RuntimeState = RuntimeState(
    weight_view: u8, current_tare: i32, current_tare_ug: i64, tare_active: bool, config_dirty: bool,
    boot_count: u32, migration_pending_save: bool)

  const WEIGHING_PROFILE_HIGH_PRECISION: u8 := 0
  const WEIGHING_PROFILE_COUNT: nat := 2
  const WEIGHT_VIEW_COUNT: nat := 2
  const FILTER_MODE_NONE: u8 := 0
  const FILTER_MODE_AVERAGE: u8 := 1
  const FILTER_MODE_IIR: u8 := 2
  const FILTER_MODE_MEDIAN3_IIR: u8 := 3
  const METROLOGY_COMPLIANCE_GENERAL: u8 := 0
  const METROLOGY_COMPLIANCE_CLASS_III_REFERENCE: u8 := 1
  const OUTPUT_POLICY_PERIODIC: u8 := 1
  const WEIGHT_FILTER_MAX_WINDOW: nat := 32
  const STABILITY_MAX_WINDOW: nat := 32
  const CALIBRATION_MIN_RAW_SPAN_COUNTS: nat := 1000

  const DEFAULT_CONFIG: DeviceConfig := DeviceConfig(
    MetrologyConfig(
      3000000000, 1000000, 60000000, 3000000000, 0, 0, 0, METROLOGY_COMPLIANCE_GENERAL, MASS_UNIT_G, 7,
      UnitDisplayConfig(true, 3, 1), UnitDisplayConfig(true, 2, 1), UnitDisplayConfig(true, 3, 1),
      LoadCellMetadata(true, 3000000000, false, 0, false, 0),
      WeighingProfileConfig(0, 3, FILTER_MODE_MEDIAN3_IIR, 3, 8, 50000, 100000, 1000),
      WeighingProfileConfig(1, 3, FILTER_MODE_NONE, 0, 8, 2000000, 4000000, 500),
      WEIGHING_PROFILE_HIGH_PRECISION,
      LegacyMetrology(300000, 1, 2, MASS_UNIT_G, 0, 3, 0, FILTER_MODE_MEDIAN3_IIR, 3, 6000, 300000, false, 0)),
    CalibrationConfig(0, 0, 0, 0, 1, 0, false, 0),
    StabilityConfig(8, 5, 10, 1000),
    CommunicationConfig(115200, 0, 0, 1, 1, 0, 0, 0, 0, 0, 50, 0, false),
    BluetoothConfig(9600, 1, false),
    AlarmConfig(0, 0, 0, 0, false, false, false, false, 0, 0, 0),
    DisplayConfig(3, 0),
    BatteryConfig(30000, 10000, 0, 0, 0, 0, 0, false),
    SystemConfig(false, false, false))

  // ---- validators ---------------------------------------------------------------

  predicate FilterValid(mode: u8, strength: u8) {
    if mode == FILTER_MODE_NONE then strength == 0
    else if mode == FILTER_MODE_AVERAGE then 2 <= strength <= WEIGHT_FILTER_MAX_WINDOW
    else if mode == FILTER_MODE_IIR || mode == FILTER_MODE_MEDIAN3_IIR then 1 <= strength <= 8
    else false
  }

  predicate ProfileValid(p: WeighingProfileConfig) {
    && p.sample_rate < 4 && p.gain < 4
    && FilterValid(p.filter_mode, p.filter_strength)
    && 2 <= p.stability_window <= STABILITY_MAX_WINDOW
    && 0 <= p.stability_enter_threshold_ug <= p.stability_exit_threshold_ug
    && 10 <= p.stability_hold_ms <= 10000
  }

  function DisplayDivisionMass(m: MetrologyConfig): Option<i64> {
    if m.active_unit >= MASS_UNIT_COUNT then None
    else
      var display := m.UnitDisplay(m.active_unit);
      CountToMass(display.division_digit, m.active_unit, display.decimal_places)
  }

  predicate StandardValid(m: MetrologyConfig) {
    if m.compliance_mode == METROLOGY_COMPLIANCE_GENERAL then true
    else
      && m.compliance_mode == METROLOGY_COMPLIANCE_CLASS_III_REFERENCE
      && (m.active_unit == MASS_UNIT_KG || m.active_unit == MASS_UNIT_G)
      && var division := DisplayDivisionMass(m);
      && division.Some? && division.value > 0 && m.verification_interval_e_ug == division.value
      // Only asked of a positive capacity, so truncation and floor agree.
      && m.capacity_ug / division.value <= 10000
      && m.initial_zero_range_permille <= 200
      && (if m.auto_zero_tracking_range_ug > 0 then
            var scaled := MulDivRounded(m.auto_zero_tracking_range_ug, 1000, m.capacity_ug);
            scaled.Some? && scaled.value >= 0 && m.semi_auto_zero_range_permille + scaled.value <= 40
          else m.semi_auto_zero_range_permille <= 40)
  }

  // The mass above which the overload flag is raised; 0 when there is none.
  function DisplayOverload(m: MetrologyConfig): i64 {
    if m.compliance_mode != METROLOGY_COMPLIANCE_CLASS_III_REFERENCE then
      if m.overload_threshold_ug > 0 then m.overload_threshold_ug else m.capacity_ug
    else
      match DisplayDivisionMass(m)
      case None => 0
      case Some(division) =>
        match MulDivRounded(division, 9, 1)
        case None => 0
        case Some(addition) =>
          match MassMath.Add(m.capacity_ug, addition)
          case None => 0
          case Some(result) => result
  }

  // In general use that is the threshold that was set, or else the capacity; under
  // class III it is the capacity and nine divisions of the display.
  lemma DisplayOverloadIs(m: MetrologyConfig)
    requires m.capacity_ug > 0
    ensures m.compliance_mode != METROLOGY_COMPLIANCE_CLASS_III_REFERENCE ==>
              DisplayOverload(m) == if m.overload_threshold_ug > 0 then m.overload_threshold_ug else m.capacity_ug
    ensures m.compliance_mode == METROLOGY_COMPLIANCE_CLASS_III_REFERENCE && DisplayDivisionMass(m).Some? ==>
              var nine := 9 * DisplayDivisionMass(m).value;
              FitsI64(nine) && FitsI64(m.capacity_ug + nine) ==> DisplayOverload(m) == m.capacity_ug + nine
  {
    hide DisplayDivisionMass;
    if DisplayDivisionMass(m).Some? { RoundHalfAwayExact(9 * DisplayDivisionMass(m).value, 1); }
  }

  predicate UnitEnabled(mask: u8, unit: u8)
    requires unit < MASS_UNIT_COUNT
  {
    (if unit == 0 then mask % 2 else if unit == 1 then mask / 2 % 2 else mask / 4 % 2) == 1
  }

  predicate UnitValid(m: MetrologyConfig, unit: u8)
    requires unit < MASS_UNIT_COUNT
  {
    var display, enabled := m.UnitDisplay(unit), UnitEnabled(m.enabled_unit_mask, unit);
    display.enabled == enabled && (enabled ==> ValidateDisplayConfig(m.capacity_ug, unit, display))
  }

  predicate CanonicalValid(m: MetrologyConfig) {
    && m.capacity_ug > 0
    && m.active_unit < MASS_UNIT_COUNT && UnitEnabled(m.enabled_unit_mask, m.active_unit)
    && UnitValid(m, MASS_UNIT_KG) && UnitValid(m, MASS_UNIT_G) && UnitValid(m, MASS_UNIT_LB)
    && 0 <= m.zero_range_ug <= m.capacity_ug
    && (m.overload_threshold_ug != 0 ==> m.overload_threshold_ug >= m.capacity_ug)
    && (m.load_cell.rated_capacity_known ==>
          m.load_cell.rated_capacity_ug > 0 && m.capacity_ug <= m.load_cell.rated_capacity_ug)
    && (m.load_cell.sensitivity_known ==> m.load_cell.sensitivity_uv_per_v != 0)
    && (m.load_cell.safe_load_known ==> m.load_cell.safe_load_permille >= 1000)
    && m.active_profile < WEIGHING_PROFILE_COUNT
    && ProfileValid(m.high_precision) && ProfileValid(m.high_speed)
    && StandardValid(m)
  }

  predicate LegacyV1Valid(m: LegacyMetrology, s: StabilityConfig) {
    && 0 < m.capacity <= INT32_MAX
    && 0 < m.division <= m.capacity
    && m.unit < MASS_UNIT_COUNT
    && FilterValid(m.filter_mode, m.filter_strength)
    && 2 <= s.window_size <= STABILITY_MAX_WINDOW && s.enter_threshold <= s.exit_threshold
    && 10 <= s.stable_hold_ms <= 10000
  }

  predicate AlarmValid(a: AlarmConfig) {
    && a.weight_source < 2 && a.hysteresis_ug >= 0
    && (a.limit_function_enable ==>
          a.lower_limit_ug < a.upper_limit_ug && a.hysteresis_ug <= (a.upper_limit_ug - a.lower_limit_ug) / 2)
  }

  predicate CalibrationValid(c: CalibrationConfig) {
    var raw_delta := c.raw_span - c.raw_zero;
    && c.calibration_valid && c.span_mass_ug > 0
    && Abs(raw_delta) > CALIBRATION_MIN_RAW_SPAN_COUNTS
    && FitsI32(raw_delta)
    && (c.scale_denominator != 0 ==> c.scale_denominator == raw_delta)
  }

  predicate CommonValid(c: DeviceConfig) {
    && c.communication.baud_rate != 0
    && c.communication.parity < 3 && c.communication.stop_bits < 2
    && 1 <= c.communication.modbus_address <= 247
    && c.communication.protocol_mode < 3 && c.communication.output_policy < 2
    && c.communication.word_order < 2
    && c.communication.recommended_poll_interval_ms != 0
    && (c.communication.output_policy == OUTPUT_POLICY_PERIODIC ==> c.communication.output_period_ms != 0)
    && c.bluetooth.uart_baud_rate != 0 && c.bluetooth.protocol_version != 0
    && c.alarm.lower_limit <= c.alarm.upper_limit
    && c.display.brightness <= 7 && c.display.default_weight_view < WEIGHT_VIEW_COUNT
    && c.battery.divider_top_ohm != 0 && c.battery.divider_bottom_ohm != 0
    && (c.alarm.limit_function_enable ==>
          var span := c.alarm.upper_limit - c.alarm.lower_limit;
          span > 0 && c.alarm.hysteresis <= span)
    && (c.battery.low_voltage_alarm_enable ==>
          && c.battery.critical_low_mv != 0 && c.battery.low_warning_mv > c.battery.critical_low_mv
          && c.battery.recovery_mv >= c.battery.low_warning_mv)
  }

  // PersistentCodec_ValidateConfig
  predicate ConfigValid(c: DeviceConfig) {
    && CommonValid(c) && AlarmValid(c.alarm) && CanonicalValid(c.metrology)
    && (c.calibration.calibration_valid ==> CalibrationValid(c.calibration))
  }
}
