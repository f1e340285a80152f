// Domain/measurement/metrology_legacy_projection.c: the V1 fields a V2 record
// carries along are display counts of the physical masses.
module LegacyProjection {
  import opened FixedWidth
  import opened UnitConverter
  import opened Configuration

  function ProjectCount(mass_ug: i64, unit: u8, display: UnitDisplayConfig): Option<u32> {
    if mass_ug < 0 || !display.enabled then None
    else
      match MassToCountUnbounded(mass_ug, unit, display.decimal_places, display.division_digit)
      case None => None
      case Some(projected) => if projected < 0 || projected > UINT32_MAX then None else Some(projected)
  }

  function ProjectSignedCount(mass_ug: i64, unit: u8, display: UnitDisplayConfig): Option<i32> {
    if !display.enabled then None
    else
      match MassToCountUnbounded(mass_ug, unit, display.decimal_places, display.division_digit)
      case None => None
      case Some(projected) => if FitsI32(projected) then Some(projected) else None
  }

  function ProjectAlarm(a: AlarmConfig, unit: u8, display: UnitDisplayConfig): Option<AlarmConfig> {
    var lower, upper :=
      ProjectSignedCount(a.lower_limit_ug, unit, display), ProjectSignedCount(a.upper_limit_ug, unit, display);
    var hysteresis := ProjectCount(a.hysteresis_ug, unit, display);
    if lower.None? || upper.None? || hysteresis.None? then None
    else Some(a.(lower_limit := lower.value, upper_limit := upper.value, hysteresis := hysteresis.value))
  }

  function ProjectRuntime(r: RuntimeState, unit: u8, display: UnitDisplayConfig): Option<RuntimeState> {
    if !r.tare_active then Some(r.(current_tare := 0))
    else
      match ProjectCount(r.current_tare_ug, unit, display)
      case None => None
      case Some(tare) => if tare > INT32_MAX then None else Some(r.(current_tare := tare))
  }

  function ProjectMetrology(m: MetrologyConfig): Option<MetrologyConfig> {
    if m.active_unit >= MASS_UNIT_COUNT || m.active_profile >= WEIGHING_PROFILE_COUNT then None
    else
      var unit, display, profile := m.active_unit, m.UnitDisplay(m.active_unit), m.Profile(m.active_profile);
      var capacity, zero_range :=
        ProjectCount(m.capacity_ug, unit, display), ProjectCount(m.zero_range_ug, unit, display);
      var overload := ProjectCount(m.overload_threshold_ug, unit, display);
      var auto_range := ProjectCount(m.auto_zero_tracking_range_ug, unit, display);
      if capacity.None? || zero_range.None? || overload.None? || auto_range.None? then None
      else Some(m.(legacy := LegacyMetrology(
        capacity.value, display.division_digit, display.decimal_places, unit,
        if m.active_profile == WEIGHING_PROFILE_HIGH_PRECISION then 1 else 0,
        profile.gain, profile.sample_rate, profile.filter_mode, profile.filter_strength,
        zero_range.value, overload.value, m.auto_zero_tracking_range_ug > 0, auto_range.value)))
  }

  function ProjectStability(m: MetrologyConfig): Option<StabilityConfig> {
    if m.active_unit >= MASS_UNIT_COUNT || m.active_profile >= WEIGHING_PROFILE_COUNT then None
    else
      var display, profile := m.UnitDisplay(m.active_unit), m.Profile(m.active_profile);
      var enter := ProjectCount(profile.stability_enter_threshold_ug, m.active_unit, display);
      var exit := ProjectCount(profile.stability_exit_threshold_ug, m.active_unit, display);
      if enter.None? || exit.None? then None
      else Some(StabilityConfig(profile.stability_window, enter.value, exit.value, profile.stability_hold_ms))
  }

  function ProjectCalibration(c: CalibrationConfig, unit: u8, display: UnitDisplayConfig): Option<CalibrationConfig> {
    if !c.calibration_valid then Some(c.(span_weight := 0, scale_numerator := 0))
    else
      match ProjectCount(c.span_mass_ug, unit, display)
      case None => None
      case Some(span) => if span > INT32_MAX then None else Some(c.(span_weight := span, scale_numerator := span))
  }

  // The configuration with every legacy field projected, as EncodeV2 stores it.
  function ProjectConfig(c: DeviceConfig): Option<DeviceConfig> {
    var metrology, stability := ProjectMetrology(c.metrology), ProjectStability(c.metrology);
    if metrology.None? || stability.None? then None
    else
      var unit, display := c.metrology.active_unit, c.metrology.UnitDisplay(c.metrology.active_unit);
      var alarm, calibration := ProjectAlarm(c.alarm, unit, display), ProjectCalibration(c.calibration, unit, display);
      if alarm.None? || calibration.None? then None
      else Some(c.(metrology := metrology.value, stability := stability.value, alarm := alarm.value,
                   calibration := calibration.value))
  }

  // Projecting again changes nothing.
  lemma ProjectConfigIdempotent(c: DeviceConfig)
    requires ProjectConfig(c).Some?
    ensures ProjectConfig(ProjectConfig(c).value) == ProjectConfig(c)
  {
    hide ProjectCount, ProjectSignedCount;
  }

  // Projection leaves every canonical field as it is.
  lemma ProjectConfigCanonical(c: DeviceConfig)
    requires ProjectConfig(c).Some?
    ensures var p := ProjectConfig(c).value;
      && p.metrology == c.metrology.(legacy := p.metrology.legacy)
      && p.calibration == c.calibration.(span_weight := p.calibration.span_weight,
                                         scale_numerator := p.calibration.scale_numerator)
      && p.alarm == c.alarm.(lower_limit := p.alarm.lower_limit, upper_limit := p.alarm.upper_limit,
                             hysteresis := p.alarm.hysteresis)
      && p == c.(metrology := p.metrology, stability := p.stability, alarm := p.alarm, calibration := p.calibration)
  {
    hide ProjectCount, ProjectSignedCount;
  }

  // The display in the active unit shows `mass` as `count`.
  predicate Shows(m: MetrologyConfig, mass: i64, count: int) {
    && m.active_unit < MASS_UNIT_COUNT && m.UnitDisplay(m.active_unit).enabled
    && var display := m.UnitDisplay(m.active_unit);
       MassToCountUnbounded(mass, m.active_unit, display.decimal_places, display.division_digit) == Some(count)
  }

  // Every projected mass is the count that the display shows of its own canonical
  // mass; the other legacy fields are those of the active display and profile.
  lemma ProjectedShows(c: DeviceConfig)
    requires ProjectConfig(c).Some?
    ensures c.metrology.active_unit < MASS_UNIT_COUNT && c.metrology.active_profile < WEIGHING_PROFILE_COUNT
    ensures var m, p := c.metrology, ProjectConfig(c).value;
      var l, profile, display := p.metrology.legacy, m.Profile(m.active_profile), m.UnitDisplay(m.active_unit);
      && m.capacity_ug >= 0 && m.zero_range_ug >= 0 && m.overload_threshold_ug >= 0 && c.alarm.hysteresis_ug >= 0
      && Shows(m, m.capacity_ug, l.capacity) && Shows(m, m.zero_range_ug, l.zero_range)
      && Shows(m, m.overload_threshold_ug, l.overload_threshold)
      && Shows(m, m.auto_zero_tracking_range_ug, l.auto_zero_tracking_range)
      && (l.auto_zero_tracking_enable <==> m.auto_zero_tracking_range_ug > 0)
      && l.unit == m.active_unit && l.decimal_places == display.decimal_places && l.division == display.division_digit
      && l.sample_mode == 1 - m.active_profile && l.cs1237_gain == profile.gain
      && l.cs1237_data_rate == profile.sample_rate
      && l.filter_mode == profile.filter_mode && l.filter_strength == profile.filter_strength
      && Shows(m, profile.stability_enter_threshold_ug, p.stability.enter_threshold)
      && Shows(m, profile.stability_exit_threshold_ug, p.stability.exit_threshold)
      && p.stability.window_size == profile.stability_window
      && p.stability.stable_hold_ms == profile.stability_hold_ms
      && Shows(m, c.alarm.lower_limit_ug, p.alarm.lower_limit)
      && Shows(m, c.alarm.upper_limit_ug, p.alarm.upper_limit)
      && Shows(m, c.alarm.hysteresis_ug, p.alarm.hysteresis)
      && (if c.calibration.calibration_valid
          then Shows(m, c.calibration.span_mass_ug, p.calibration.span_weight)
               && p.calibration.scale_numerator == p.calibration.span_weight
          else p.calibration.span_weight == 0 && p.calibration.scale_numerator == 0)
  {
    hide MassToCountUnbounded;
  }

  // The tare is projected likewise; it fails only when there is a tare and its
  // count is missing or beyond int32.
  lemma ProjectedTareShows(m: MetrologyConfig, r: RuntimeState)
    requires m.active_unit < MASS_UNIT_COUNT
    ensures var projected := ProjectRuntime(r, m.active_unit, m.UnitDisplay(m.active_unit));
      && (projected.Some? ==>
            && projected.value == r.(current_tare := projected.value.current_tare)
            && if r.tare_active then Shows(m, r.current_tare_ug, projected.value.current_tare)
               else projected.value.current_tare == 0)
      && (projected.None? <==>
            r.tare_active
            && !exists tare :: r.current_tare_ug >= 0 && 0 <= tare <= INT32_MAX && Shows(m, r.current_tare_ug, tare))
  {
    hide MassToCountUnbounded;
  }

  // A projected configuration shows a known unit.
  lemma ProjectedUnit(c: DeviceConfig)
    ensures ProjectConfig(c).Some? ==> ProjectConfig(c).value.metrology.active_unit < MASS_UNIT_COUNT
  {
    hide ProjectCount, ProjectSignedCount, ProjectAlarm, ProjectCalibration, ProjectStability;
  }
}
