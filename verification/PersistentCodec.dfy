// Services/config_store/persistent_codec.c: a configuration as 344 payload bytes
// (schema 2), or 164 of the old schema 1, and back.
module PersistentCodec {
  import opened FixedWidth
  import opened LittleEndian
  import opened UnitConverter
  import opened Configuration
  import opened LegacyProjection

  const SCHEMA_V1: nat := 1
  const SCHEMA_V2: nat := 2
  const V1_PAYLOAD_SIZE: nat := 164
  const V2_PAYLOAD_SIZE: nat := 344

  datatype CodecError = BufferTooSmall | InvalidValue | UnsupportedSchema | Truncated | ValidationFailed

  datatype Encoded = Payload(bytes: Bytes) | EncodeError(error: CodecError)

  datatype Decoded = Restored(config: DeviceConfig, runtime: RuntimeState) | DecodeError(error: CodecError)

  // ---- schema 1, section by section --------------------------------------------------

  const LEGACY_WIDTHS: seq<nat> := [4, 4, 1, 1, 1, 1, 1, 1, 1, 4, 4, 1, 4]
  const CALIBRATION_WIDTHS: seq<nat> := [4, 4, 4, 4, 4, 4, 1]
  const STABILITY_WIDTHS: seq<nat> := [2, 4, 4, 4]
  const COMMUNICATION_WIDTHS: seq<nat> := [4, 1, 1, 1, 1, 1, 4, 4]
  const BLUETOOTH_WIDTHS: seq<nat> := [4, 2, 1, 1, 1, 1, 1, 1]
  const ALARM_WIDTHS: seq<nat> := [4, 4, 4, 1, 1, 1, 1, 1]
  const DISPLAY_WIDTHS: seq<nat> := [1, 1, 1, 1, 1, 1, 1, 1]
  const BATTERY_WIDTHS: seq<nat> := [4, 4, 4, 4, 4, 4, 4, 1]
  const SYSTEM_WIDTHS: seq<nat> := [1, 1, 1, 1, 1, 1, 1, 1]
  const RUNTIME_WIDTHS: seq<nat> := [1, 4, 1]

  function LegacyFields(m: LegacyMetrology): seq<Field> {
    [U32(m.capacity), U32(m.division), U8(m.decimal_places), U8(m.unit), U8(m.sample_mode), U8(m.cs1237_gain),
     U8(m.cs1237_data_rate), U8(m.filter_mode), U8(m.filter_strength), U32(m.zero_range), U32(m.overload_threshold),
     Flag(m.auto_zero_tracking_enable), U32(m.auto_zero_tracking_range)]
  }

  function CalibrationFields(c: CalibrationConfig): seq<Field> {
    [I32(c.raw_zero), I32(c.raw_span), U32(c.span_weight), I32(c.scale_numerator), I32(c.scale_denominator),
     U32(c.calibration_sequence), Flag(c.calibration_valid)]
  }

  function StabilityFields(s: StabilityConfig): seq<Field> {
    [U16(s.window_size), U32(s.enter_threshold), U32(s.exit_threshold), U32(s.stable_hold_ms)]
  }

  function CommunicationFields(c: CommunicationConfig): seq<Field> {
    [U32(c.baud_rate), U8(c.parity), U8(c.stop_bits), U8(c.modbus_address), U8(c.protocol_mode), U8(c.output_policy),
     U32(c.output_period_ms), U32(c.zero_suppress_range)]
  }

  function BluetoothFields(b: BluetoothConfig): seq<Field> {
    [U32(b.uart_baud_rate), U16(b.protocol_version), Flag(b.w02_configured),
     RESERVED, RESERVED, RESERVED, RESERVED, RESERVED]
  }

  function AlarmFields(a: AlarmConfig): seq<Field> {
    [I32(a.lower_limit), I32(a.upper_limit), U32(a.hysteresis), U8(a.weight_source), Flag(a.internal_buzzer_enable),
     Flag(a.external_buzzer_enable), Flag(a.qualified_beep_enable), Flag(a.limit_function_enable)]
  }

  function DisplayFields(d: DisplayConfig): seq<Field> {
    [U8(d.brightness), U8(d.default_weight_view), RESERVED, RESERVED, RESERVED, RESERVED, RESERVED, RESERVED]
  }

  function BatteryFields(b: BatteryConfig): seq<Field> {
    [U32(b.divider_top_ohm), U32(b.divider_bottom_ohm), I32(b.calibration_gain_ppm), I32(b.calibration_offset_mv),
     U32(b.low_warning_mv), U32(b.critical_low_mv), U32(b.recovery_mv), Flag(b.low_voltage_alarm_enable)]
  }

  function SystemFields(s: SystemConfig): seq<Field> {
    [Flag(s.tare_power_loss_retention), Flag(s.watchdog_enable), Flag(s.startup_auto_zero_enable),
     RESERVED, RESERVED, RESERVED, RESERVED, RESERVED]
  }

  function RuntimeFields(r: RuntimeState): seq<Field> {
    [U8(r.weight_view), I32(r.current_tare), Flag(r.tare_active)]
  }

  // A decoded section, and whether its flags were 0 or 1 and its reserved bytes 0.
  datatype Section<T> = Section(value: T, valid: bool)

  function LegacyOf(v: seq<nat>): Section<LegacyMetrology>
    requires |v| == 13
  {
    Section(LegacyMetrology(AsU32(v[0]), AsU32(v[1]), AsU8(v[2]), AsU8(v[3]), AsU8(v[4]), AsU8(v[5]), AsU8(v[6]),
                            AsU8(v[7]), AsU8(v[8]), AsU32(v[9]), AsU32(v[10]), v[11] != 0, AsU32(v[12])),
            v[11] <= 1)
  }

  function CalibrationOf(v: seq<nat>): Section<CalibrationConfig>
    requires |v| == 7
  {
    Section(CalibrationConfig(AsI32(v[0]), AsI32(v[1]), AsU32(v[2]), AsI32(v[3]), AsI32(v[4]), AsU32(v[5]),
                              v[6] != 0, 0), v[6] <= 1)
  }

  function StabilityOf(v: seq<nat>): Section<StabilityConfig>
    requires |v| == 4
  {
    Section(StabilityConfig(AsU16(v[0]), AsU32(v[1]), AsU32(v[2]), AsU32(v[3])), true)
  }

  // The fields schema 1 lacks keep their defaults.
  function CommunicationOf(v: seq<nat>): Section<CommunicationConfig>
    requires |v| == 8
  {
    Section(DEFAULT_CONFIG.communication.(
      baud_rate := AsU32(v[0]), parity := AsU8(v[1]), stop_bits := AsU8(v[2]), modbus_address := AsU8(v[3]),
      protocol_mode := AsU8(v[4]),
      output_policy := AsU8(v[5]), output_period_ms := AsU32(v[6]), zero_suppress_range := AsU32(v[7])), true)
  }

  function BluetoothOf(v: seq<nat>): Section<BluetoothConfig>
    requires |v| == 8
  {
    Section(BluetoothConfig(AsU32(v[0]), AsU16(v[1]), v[2] != 0),
            v[2] <= 1 && v[3] == 0 && v[4] == 0 && v[5] == 0 && v[6] == 0 && v[7] == 0)
  }

  function AlarmOf(v: seq<nat>): Section<AlarmConfig>
    requires |v| == 8
  {
    Section(AlarmConfig(AsI32(v[0]), AsI32(v[1]), AsU32(v[2]), AsU8(v[3]), v[4] != 0, v[5] != 0, v[6] != 0,
                        v[7] != 0, 0, 0, 0),
            v[4] <= 1 && v[5] <= 1 && v[6] <= 1 && v[7] <= 1)
  }

  function DisplayOf(v: seq<nat>): Section<DisplayConfig>
    requires |v| == 8
  {
    Section(DisplayConfig(AsU8(v[0]), AsU8(v[1])),
            v[2] == 0 && v[3] == 0 && v[4] == 0 && v[5] == 0 && v[6] == 0 && v[7] == 0)
  }

  function BatteryOf(v: seq<nat>): Section<BatteryConfig>
    requires |v| == 8
  {
    Section(BatteryConfig(AsU32(v[0]), AsU32(v[1]), AsI32(v[2]), AsI32(v[3]), AsU32(v[4]), AsU32(v[5]), AsU32(v[6]),
                          v[7] != 0), v[7] <= 1)
  }

  function SystemOf(v: seq<nat>): Section<SystemConfig>
    requires |v| == 8
  {
    Section(SystemConfig(v[0] != 0, v[1] != 0, v[2] != 0),
            v[0] <= 1 && v[1] <= 1 && v[2] <= 1 && v[3] == 0 && v[4] == 0 && v[5] == 0 && v[6] == 0 && v[7] == 0)
  }

  function RuntimeOf(v: seq<nat>): Section<RuntimeState>
    requires |v| == 3
  {
    Section(RuntimeState(AsU8(v[0]), AsI32(v[1]), 0, v[2] != 0, false, 0, false), v[2] <= 1)
  }

  // ---- what schema 2 adds --------------------------------------------------------------

  const METROLOGY_WIDTHS: seq<nat> := [8, 8, 8, 8, 8, 2, 2, 1, 1, 1]
  const UNIT_DISPLAY_WIDTHS: seq<nat> := [1, 1, 4]
  const LOAD_CELL_WIDTHS: seq<nat> := [1, 8, 1, 4, 1, 2]
  const PROFILE_WIDTHS: seq<nat> := [1, 1, 1, 1, 1, 8, 8, 4]
  const SPAN_WIDTHS: seq<nat> := [1, 8]
  const LINK_WIDTHS: seq<nat> := [1, 2, 2, 1, 1]
  const MASS_LIMIT_WIDTHS: seq<nat> := [8, 8, 8, 8]

  function MetrologyFields(m: MetrologyConfig): seq<Field> {
    [I64(m.capacity_ug), I64(m.verification_interval_e_ug), I64(m.zero_range_ug), I64(m.overload_threshold_ug),
     I64(m.auto_zero_tracking_range_ug), U16(m.initial_zero_range_permille), U16(m.semi_auto_zero_range_permille),
     U8(m.compliance_mode), U8(m.active_unit), U8(m.enabled_unit_mask)]
  }

  function UnitDisplayFields(d: UnitDisplayConfig): seq<Field> {
    [Flag(d.enabled), U8(d.decimal_places), U32(d.division_digit)]
  }

  function LoadCellFields(l: LoadCellMetadata): seq<Field> {
    [Flag(l.rated_capacity_known), I64(l.rated_capacity_ug), Flag(l.sensitivity_known), U32(l.sensitivity_uv_per_v),
     Flag(l.safe_load_known), U16(l.safe_load_permille)]
  }

  function ProfileFields(p: WeighingProfileConfig): seq<Field> {
    [U8(p.sample_rate), U8(p.gain), U8(p.filter_mode), U8(p.filter_strength), U8(p.stability_window),
     I64(p.stability_enter_threshold_ug), I64(p.stability_exit_threshold_ug), U32(p.stability_hold_ms)]
  }

  function SpanFields(c: DeviceConfig): seq<Field> {
    [U8(c.metrology.active_profile), I64(c.calibration.span_mass_ug)]
  }

  function LinkFields(c: CommunicationConfig): seq<Field> {
    [U8(c.word_order), U16(c.response_delay_ms), U16(c.recommended_poll_interval_ms), U8(c.broadcast_write_policy),
     Flag(c.pending_apply)]
  }

  function MassLimitFields(a: AlarmConfig, r: RuntimeState): seq<Field> {
    [I64(a.lower_limit_ug), I64(a.upper_limit_ug), I64(a.hysteresis_ug), I64(r.current_tare_ug)]
  }

  // The metrology numbers, with placeholders where later sections belong.
  function MetrologyOf(v: seq<nat>, base: MetrologyConfig): Section<MetrologyConfig>
    requires |v| == 10
  {
    Section(base.(
      capacity_ug := AsI64(v[0]), verification_interval_e_ug := AsI64(v[1]), zero_range_ug := AsI64(v[2]),
      overload_threshold_ug := AsI64(v[3]), auto_zero_tracking_range_ug := AsI64(v[4]),
      initial_zero_range_permille := AsU16(v[5]), semi_auto_zero_range_permille := AsU16(v[6]),
      compliance_mode := AsU8(v[7]),
      active_unit := AsU8(v[8]), enabled_unit_mask := AsU8(v[9])), true)
  }

  // The division digit is cut to a byte.
  function UnitDisplayOf(v: seq<nat>): Section<UnitDisplayConfig>
    requires |v| == 3
  {
    Section(UnitDisplayConfig(v[0] != 0, AsU8(v[1]), AsU8(v[2])), v[0] <= 1)
  }

  function LoadCellOf(v: seq<nat>): Section<LoadCellMetadata>
    requires |v| == 6
  {
    Section(LoadCellMetadata(v[0] != 0, AsI64(v[1]), v[2] != 0, AsU32(v[3]), v[4] != 0, AsU16(v[5])),
            v[0] <= 1 && v[2] <= 1 && v[4] <= 1)
  }

  function ProfileOf(v: seq<nat>): Section<WeighingProfileConfig>
    requires |v| == 8
  {
    Section(WeighingProfileConfig(AsU8(v[0]), AsU8(v[1]), AsU8(v[2]), AsU8(v[3]), AsU8(v[4]), AsI64(v[5]),
                                  AsI64(v[6]), AsU32(v[7])), true)
  }

  function SpanOf(v: seq<nat>): Section<(u8, i64)>
    requires |v| == 2
  {
    Section((AsU8(v[0]), AsI64(v[1])), true)
  }

  function LinkOf(v: seq<nat>, base: CommunicationConfig): Section<CommunicationConfig>
    requires |v| == 5
  {
    Section(base.(word_order := AsU8(v[0]), response_delay_ms := AsU16(v[1]),
                  recommended_poll_interval_ms := AsU16(v[2]),
                  broadcast_write_policy := AsU8(v[3]), pending_apply := v[4] != 0), v[4] <= 1)
  }

  function MassLimitsOf(v: seq<nat>): Section<(i64, i64, i64, i64)>
    requires |v| == 4
  {
    Section((AsI64(v[0]), AsI64(v[1]), AsI64(v[2]), AsI64(v[3])), true)
  }

  // ---- encoding ----------------------------------------------------------------------

  function V1Bytes(c: DeviceConfig, r: RuntimeState): Bytes {
    Encode(LegacyFields(c.metrology.legacy)) + Encode(CalibrationFields(c.calibration))
    + Encode(StabilityFields(c.stability)) + Encode(CommunicationFields(c.communication))
    + Encode(BluetoothFields(c.bluetooth)) + Encode(AlarmFields(c.alarm)) + Encode(DisplayFields(c.display))
    + Encode(BatteryFields(c.battery)) + Encode(SystemFields(c.system)) + Encode(RuntimeFields(r))
  }

  function V2Bytes(c: DeviceConfig, r: RuntimeState): Bytes {
    Encode(MetrologyFields(c.metrology)) + Encode(UnitDisplayFields(c.metrology.kg))
    + Encode(UnitDisplayFields(c.metrology.g)) + Encode(UnitDisplayFields(c.metrology.lb))
    + Encode(LoadCellFields(c.metrology.load_cell)) + Encode(ProfileFields(c.metrology.high_precision))
    + Encode(ProfileFields(c.metrology.high_speed)) + Encode(SpanFields(c)) + Encode(LinkFields(c.communication))
    + Encode(MassLimitFields(c.alarm, r))
  }

  predicate V1Encodable(c: DeviceConfig, r: RuntimeState) {
    ConfigValid(c) && LegacyV1Valid(c.metrology.legacy, c.stability) && r.weight_view < WEIGHT_VIEW_COUNT
  }

  function EncodeV1(c: DeviceConfig, r: RuntimeState, capacity: nat): Encoded {
    if capacity < V1_PAYLOAD_SIZE then EncodeError(BufferTooSmall)
    else if !V1Encodable(c, r) then EncodeError(ValidationFailed)
    else Payload(V1Bytes(c, r))
  }

  function EncodeV2(c: DeviceConfig, r: RuntimeState, capacity: nat): Encoded {
    if capacity < V2_PAYLOAD_SIZE then EncodeError(BufferTooSmall)
    else if ProjectConfig(c).None? then EncodeError(ValidationFailed)
    else
      var p := ProjectConfig(c).value;
      var runtime := ProjectRuntime(r, p.metrology.active_unit, p.metrology.UnitDisplay(p.metrology.active_unit));
      if runtime.None? then EncodeError(ValidationFailed)
      else
        match EncodeV1(p, runtime.value, capacity)
        case EncodeError(error) => EncodeError(error)
        case Payload(v1) => Payload(v1 + V2Bytes(c, r))
  }

  // ---- decoding ----------------------------------------------------------------------

  // Schema 1 fields over the default configuration; `valid` as in Section.
  function ReadV1(b: Bytes): (DeviceConfig, RuntimeState, bool)
    requires |b| == V1_PAYLOAD_SIZE
  {
    var legacy := LegacyOf(Parse(LEGACY_WIDTHS, b[0..28]));
    var calibration := CalibrationOf(Parse(CALIBRATION_WIDTHS, b[28..53]));
    var stability := StabilityOf(Parse(STABILITY_WIDTHS, b[53..67]));
    var communication := CommunicationOf(Parse(COMMUNICATION_WIDTHS, b[67..84]));
    var bluetooth := BluetoothOf(Parse(BLUETOOTH_WIDTHS, b[84..96]));
    var alarm := AlarmOf(Parse(ALARM_WIDTHS, b[96..113]));
    var display := DisplayOf(Parse(DISPLAY_WIDTHS, b[113..121]));
    var battery := BatteryOf(Parse(BATTERY_WIDTHS, b[121..150]));
    var system := SystemOf(Parse(SYSTEM_WIDTHS, b[150..158]));
    var runtime := RuntimeOf(Parse(RUNTIME_WIDTHS, b[158..164]));
    (DeviceConfig(DEFAULT_CONFIG.metrology.(legacy := legacy.value), calibration.value, stability.value,
                  communication.value, bluetooth.value, alarm.value, display.value, battery.value, system.value),
     runtime.value,
     legacy.valid && calibration.valid && bluetooth.valid && alarm.valid && display.valid && battery.valid
     && system.valid && runtime.valid)
  }

  // The schema 2 fields over a configuration that already has the schema 1 ones.
  function ReadV2(b: Bytes, c: DeviceConfig, r: RuntimeState): (DeviceConfig, RuntimeState, bool)
    requires |b| == V2_PAYLOAD_SIZE - V1_PAYLOAD_SIZE
  {
    var metrology := MetrologyOf(Parse(METROLOGY_WIDTHS, b[0..47]), c.metrology);
    var kg := UnitDisplayOf(Parse(UNIT_DISPLAY_WIDTHS, b[47..53]));
    var g := UnitDisplayOf(Parse(UNIT_DISPLAY_WIDTHS, b[53..59]));
    var lb := UnitDisplayOf(Parse(UNIT_DISPLAY_WIDTHS, b[59..65]));
    var load_cell := LoadCellOf(Parse(LOAD_CELL_WIDTHS, b[65..82]));
    var high_precision := ProfileOf(Parse(PROFILE_WIDTHS, b[82..107]));
    var high_speed := ProfileOf(Parse(PROFILE_WIDTHS, b[107..132]));
    var span := SpanOf(Parse(SPAN_WIDTHS, b[132..141]));
    var link := LinkOf(Parse(LINK_WIDTHS, b[141..148]), c.communication);
    var limits := MassLimitsOf(Parse(MASS_LIMIT_WIDTHS, b[148..180]));
    (c.(metrology := metrology.value.(
          kg := kg.value, g := g.value, lb := lb.value, load_cell := load_cell.value,
          high_precision := high_precision.value, high_speed := high_speed.value, active_profile := span.value.0),
        calibration := c.calibration.(span_mass_ug := span.value.1),
        communication := link.value,
        alarm := c.alarm.(lower_limit_ug := limits.value.0, upper_limit_ug := limits.value.1,
                          hysteresis_ug := limits.value.2)),
     r.(current_tare_ug := limits.value.3),
     kg.valid && g.valid && lb.valid && load_cell.valid && link.valid)
  }

  // The rule under which a stored tare survives a restart.
  predicate TareRetained(c: DeviceConfig, r: RuntimeState) {
    && r.tare_active && c.system.tare_power_loss_retention && c.calibration.calibration_valid
    && 0 < r.current_tare_ug <= c.metrology.overload_threshold_ug
  }

  function RestoreTare(c: DeviceConfig, r: RuntimeState): RuntimeState {
    if TareRetained(c, r) then r else r.(current_tare_ug := 0, current_tare := 0, tare_active := false)
  }

  function DecodeV2(b: Bytes): Decoded {
    if |b| < V2_PAYLOAD_SIZE then DecodeError(Truncated)
    else if |b| > V2_PAYLOAD_SIZE then DecodeError(InvalidValue)
    else
      var (c1, r1, valid1) := ReadV1(b[..V1_PAYLOAD_SIZE]);
      if !valid1 then DecodeError(InvalidValue)
      else if !CommonValid(c1) || r1.weight_view >= WEIGHT_VIEW_COUNT then DecodeError(ValidationFailed)
      else
        var (c2, r2, valid2) := ReadV2(b[V1_PAYLOAD_SIZE..], c1, r1);
        if !valid2 then DecodeError(InvalidValue)
        else if !ConfigValid(c2) then DecodeError(ValidationFailed)
        else Restored(c2, RestoreTare(c2, r2))
  }

  // Schema 1 decoded and converted to physical masses.
  function DecodeV1(b: Bytes): Decoded {
    if |b| < V1_PAYLOAD_SIZE then DecodeError(Truncated)
    else if |b| > V1_PAYLOAD_SIZE then DecodeError(InvalidValue)
    else
      var (c, r, valid) := ReadV1(b);
      if !valid then DecodeError(InvalidValue)
      else if !CommonValid(c) || r.weight_view >= WEIGHT_VIEW_COUNT then DecodeError(ValidationFailed)
      else if !LegacyV1Valid(c.metrology.legacy, c.stability) then DecodeError(ValidationFailed)
      else Migrate(c, r)
  }

  function OrElse(x: Option<i64>, otherwise: i64): i64 { if x.Some? then x.value else otherwise }

  function Migrate(c: DeviceConfig, r: RuntimeState): Decoded {
    var l := c.metrology.legacy;
    var limit := if l.overload_threshold != 0 then l.overload_threshold else l.capacity;
    var keep := c.system.tare_power_loss_retention && r.tare_active && c.calibration.calibration_valid
                && 0 < r.current_tare <= limit;
    var tare := if keep then r.current_tare else 0;
    var capacity, interval :=
      CountToMass(l.capacity, l.unit, l.decimal_places), CountToMass(l.division, l.unit, l.decimal_places);
    var zero, overload :=
      CountToMass(l.zero_range, l.unit, l.decimal_places), CountToMass(l.overload_threshold, l.unit, l.decimal_places);
    if capacity.None? || interval.None? || zero.None? || overload.None? then DecodeError(ValidationFailed)
    else
      var p := c.metrology.high_precision;
      var profile := WeighingProfileConfig(
        l.cs1237_data_rate, l.cs1237_gain, l.filter_mode, l.filter_strength, AsU8(c.stability.window_size),
        OrElse(CountToMass(c.stability.enter_threshold, l.unit, l.decimal_places), p.stability_enter_threshold_ug),
        OrElse(CountToMass(c.stability.exit_threshold, l.unit, l.decimal_places), p.stability_exit_threshold_ug),
        c.stability.stable_hold_ms);
      var migrated := c.(
        metrology := c.metrology.(
          capacity_ug := capacity.value, verification_interval_e_ug := interval.value, zero_range_ug := zero.value,
          overload_threshold_ug := overload.value, active_unit := l.unit,
          active_profile := WEIGHING_PROFILE_HIGH_PRECISION, high_precision := profile),
        calibration := c.calibration.(span_mass_ug :=
          OrElse(CountToMass(c.calibration.span_weight, l.unit, l.decimal_places), c.calibration.span_mass_ug)));
      if !ConfigValid(migrated) then DecodeError(ValidationFailed)
      else Restored(migrated,
                    r.(current_tare := tare, tare_active := keep, migration_pending_save := true, config_dirty := true,
                                 current_tare_ug := OrElse(CountToMass(tare, l.unit, l.decimal_places),
                                                           r.current_tare_ug)))
  }

  function Decode(schema: nat, b: Bytes): Decoded {
    if schema == SCHEMA_V2 then DecodeV2(b)
    else if schema != SCHEMA_V1 then DecodeError(UnsupportedSchema)
    else DecodeV1(b)
  }

  // ---- every section reads back what was written -----------------------------------------

  lemma Written(fs: seq<Field>, widths: seq<nat>)
    requires Widths(fs) == widths && forall f :: f in fs ==> Fits(f)
    ensures |Encode(fs)| == Size(widths) && Parse(widths, Encode(fs)) == Values(fs)
  {
    ParseEncode(fs);
  }

  lemma LegacyLayout(m: LegacyMetrology)
    ensures Widths(LegacyFields(m)) == LEGACY_WIDTHS && Size(LEGACY_WIDTHS) == 28
    ensures forall f :: f in LegacyFields(m) ==> Fits(f)
  {
    hide Size, Fits;
    LegacyFit(m);
    LegacySize();
  }

  lemma LegacySize()
    ensures Size(LEGACY_WIDTHS) == 28
  {}

  lemma LegacyFit(m: LegacyMetrology)
    ensures forall f :: f in LegacyFields(m) ==> Fits(f)
  {
    FieldsFit();
    hide Fits;
  }

  lemma LegacyReadsBack(m: LegacyMetrology)
    ensures |Encode(LegacyFields(m))| == 28
    ensures LegacyOf(Parse(LEGACY_WIDTHS, Encode(LegacyFields(m)))) == Section(m, true)
  {
    LegacyLayout(m);
    hide Parse, Encode, Fits, Size;
    Written(LegacyFields(m), LEGACY_WIDTHS);
  }

  lemma CalibrationLayout(c: CalibrationConfig)
    ensures Widths(CalibrationFields(c)) == CALIBRATION_WIDTHS && Size(CALIBRATION_WIDTHS) == 25
    ensures forall f :: f in CalibrationFields(c) ==> Fits(f)
  {
    FieldsFit();
    hide Fits;
  }

  lemma CalibrationReadsBack(c: CalibrationConfig)
    ensures |Encode(CalibrationFields(c))| == 25
    ensures CalibrationOf(Parse(CALIBRATION_WIDTHS, Encode(CalibrationFields(c))))
         == Section(c.(span_mass_ug := 0), true)
  {
    CalibrationLayout(c);
    hide Parse, Encode, Fits, Size;
    Written(CalibrationFields(c), CALIBRATION_WIDTHS);
  }

  lemma StabilityLayout(s: StabilityConfig)
    ensures Widths(StabilityFields(s)) == STABILITY_WIDTHS && Size(STABILITY_WIDTHS) == 14
    ensures forall f :: f in StabilityFields(s) ==> Fits(f)
  {
    FieldsFit();
    hide Fits;
  }

  lemma StabilityReadsBack(s: StabilityConfig)
    ensures |Encode(StabilityFields(s))| == 14
    ensures StabilityOf(Parse(STABILITY_WIDTHS, Encode(StabilityFields(s)))) == Section(s, true)
  {
    StabilityLayout(s);
    hide Parse, Encode, Fits, Size;
    Written(StabilityFields(s), STABILITY_WIDTHS);
  }

  lemma CommunicationLayout(c: CommunicationConfig)
    ensures Widths(CommunicationFields(c)) == COMMUNICATION_WIDTHS && Size(COMMUNICATION_WIDTHS) == 17
    ensures forall f :: f in CommunicationFields(c) ==> Fits(f)
  {
    FieldsFit();
    hide Fits;
  }

  lemma CommunicationReadsBack(c: CommunicationConfig)
    ensures |Encode(CommunicationFields(c))| == 17
    ensures CommunicationOf(Parse(COMMUNICATION_WIDTHS, Encode(CommunicationFields(c))))
         == Section(DEFAULT_CONFIG.communication.(
      baud_rate := c.baud_rate, parity := c.parity, stop_bits := c.stop_bits, modbus_address := c.modbus_address,
      protocol_mode := c.protocol_mode, output_policy := c.output_policy, output_period_ms := c.output_period_ms,
      zero_suppress_range := c.zero_suppress_range), true)
  {
    CommunicationLayout(c);
    hide Parse, Encode, Fits, Size;
    Written(CommunicationFields(c), COMMUNICATION_WIDTHS);
  }

  lemma BluetoothLayout(b: BluetoothConfig)
    ensures Widths(BluetoothFields(b)) == BLUETOOTH_WIDTHS && Size(BLUETOOTH_WIDTHS) == 12
    ensures forall f :: f in BluetoothFields(b) ==> Fits(f)
  {
    FieldsFit();
    hide Fits;
  }

  lemma BluetoothReadsBack(b: BluetoothConfig)
    ensures |Encode(BluetoothFields(b))| == 12
    ensures BluetoothOf(Parse(BLUETOOTH_WIDTHS, Encode(BluetoothFields(b)))) == Section(b, true)
  {
    BluetoothLayout(b);
    hide Parse, Encode, Fits, Size;
    Written(BluetoothFields(b), BLUETOOTH_WIDTHS);
  }

  lemma AlarmLayout(a: AlarmConfig)
    ensures Widths(AlarmFields(a)) == ALARM_WIDTHS && Size(ALARM_WIDTHS) == 17
    ensures forall f :: f in AlarmFields(a) ==> Fits(f)
  {
    AlarmFit(a);
    hide Fits;
  }

  lemma AlarmFit(a: AlarmConfig)
    ensures forall f :: f in AlarmFields(a) ==> Fits(f)
  {
    FieldsFit();
    hide Fits, U8, U16, U32, I32, I64, Flag;
  }

  lemma AlarmReadsBack(a: AlarmConfig)
    ensures |Encode(AlarmFields(a))| == 17
    ensures AlarmOf(Parse(ALARM_WIDTHS, Encode(AlarmFields(a))))
         == Section(a.(lower_limit_ug := 0, upper_limit_ug := 0, hysteresis_ug := 0), true)
  {
    AlarmLayout(a);
    hide Parse, Encode, Fits, Size;
    Written(AlarmFields(a), ALARM_WIDTHS);
  }

  lemma DisplayLayout(d: DisplayConfig)
    ensures Widths(DisplayFields(d)) == DISPLAY_WIDTHS && Size(DISPLAY_WIDTHS) == 8
    ensures forall f :: f in DisplayFields(d) ==> Fits(f)
  {
    FieldsFit();
    hide Fits;
  }

  lemma DisplayReadsBack(d: DisplayConfig)
    ensures |Encode(DisplayFields(d))| == 8
    ensures DisplayOf(Parse(DISPLAY_WIDTHS, Encode(DisplayFields(d)))) == Section(d, true)
  {
    DisplayLayout(d);
    hide Parse, Encode, Fits, Size;
    Written(DisplayFields(d), DISPLAY_WIDTHS);
  }

  lemma BatteryLayout(b: BatteryConfig)
    ensures Widths(BatteryFields(b)) == BATTERY_WIDTHS && Size(BATTERY_WIDTHS) == 29
    ensures forall f :: f in BatteryFields(b) ==> Fits(f)
  {
    FieldsFit();
    hide Fits;
  }

  lemma BatteryReadsBack(b: BatteryConfig)
    ensures |Encode(BatteryFields(b))| == 29
    ensures BatteryOf(Parse(BATTERY_WIDTHS, Encode(BatteryFields(b)))) == Section(b, true)
  {
    BatteryLayout(b);
    hide Parse, Encode, Fits, Size;
    Written(BatteryFields(b), BATTERY_WIDTHS);
  }

  lemma SystemLayout(s: SystemConfig)
    ensures Widths(SystemFields(s)) == SYSTEM_WIDTHS && Size(SYSTEM_WIDTHS) == 8
    ensures forall f :: f in SystemFields(s) ==> Fits(f)
  {
    FieldsFit();
    hide Fits;
  }

  lemma SystemReadsBack(s: SystemConfig)
    ensures |Encode(SystemFields(s))| == 8
    ensures SystemOf(Parse(SYSTEM_WIDTHS, Encode(SystemFields(s)))) == Section(s, true)
  {
    SystemLayout(s);
    hide Parse, Encode, Fits, Size;
    Written(SystemFields(s), SYSTEM_WIDTHS);
  }

  lemma RuntimeLayout(r: RuntimeState)
    ensures Widths(RuntimeFields(r)) == RUNTIME_WIDTHS && Size(RUNTIME_WIDTHS) == 6
    ensures forall f :: f in RuntimeFields(r) ==> Fits(f)
  {
    FieldsFit();
    hide Fits;
  }

  lemma RuntimeReadsBack(r: RuntimeState)
    ensures |Encode(RuntimeFields(r))| == 6
    ensures RuntimeOf(Parse(RUNTIME_WIDTHS, Encode(RuntimeFields(r))))
         == Section(r.(current_tare_ug := 0, config_dirty := false, boot_count := 0, migration_pending_save := false),
                    true)
  {
    RuntimeLayout(r);
    hide Parse, Encode, Fits, Size;
    Written(RuntimeFields(r), RUNTIME_WIDTHS);
  }

  lemma MetrologyLayout(m: MetrologyConfig)
    ensures Widths(MetrologyFields(m)) == METROLOGY_WIDTHS && Size(METROLOGY_WIDTHS) == 47
    ensures forall f :: f in MetrologyFields(m) ==> Fits(f)
  {
    MetrologyFit(m);
    hide Fits;
  }

  lemma MetrologyFit(m: MetrologyConfig)
    ensures forall f :: f in MetrologyFields(m) ==> Fits(f)
  {
    FieldsFit();
    hide Fits, U8, U16, U32, I32, I64, Flag;
  }

  lemma MetrologyReadsBack(m: MetrologyConfig, base: MetrologyConfig)
    ensures |Encode(MetrologyFields(m))| == 47
    ensures MetrologyOf(Parse(METROLOGY_WIDTHS, Encode(MetrologyFields(m))), base) == Section(base.(
      capacity_ug := m.capacity_ug, verification_interval_e_ug := m.verification_interval_e_ug,
      zero_range_ug := m.zero_range_ug, overload_threshold_ug := m.overload_threshold_ug,
      auto_zero_tracking_range_ug := m.auto_zero_tracking_range_ug,
      initial_zero_range_permille := m.initial_zero_range_permille,
      semi_auto_zero_range_permille := m.semi_auto_zero_range_permille, compliance_mode := m.compliance_mode,
      active_unit := m.active_unit, enabled_unit_mask := m.enabled_unit_mask), true)
  {
    MetrologyLayout(m);
    hide Parse, Encode, Fits, Size;
    Written(MetrologyFields(m), METROLOGY_WIDTHS);
  }

  lemma UnitDisplayLayout(d: UnitDisplayConfig)
    ensures Widths(UnitDisplayFields(d)) == UNIT_DISPLAY_WIDTHS && Size(UNIT_DISPLAY_WIDTHS) == 6
    ensures forall f :: f in UnitDisplayFields(d) ==> Fits(f)
  {
    FieldsFit();
    hide Fits;
  }

  lemma UnitDisplayReadsBack(d: UnitDisplayConfig)
    ensures |Encode(UnitDisplayFields(d))| == 6
    ensures UnitDisplayOf(Parse(UNIT_DISPLAY_WIDTHS, Encode(UnitDisplayFields(d)))) == Section(d, true)
  {
    UnitDisplayLayout(d);
    hide Parse, Encode, Fits, Size;
    Written(UnitDisplayFields(d), UNIT_DISPLAY_WIDTHS);
  }

  lemma LoadCellLayout(l: LoadCellMetadata)
    ensures Widths(LoadCellFields(l)) == LOAD_CELL_WIDTHS && Size(LOAD_CELL_WIDTHS) == 17
    ensures forall f :: f in LoadCellFields(l) ==> Fits(f)
  {
    FieldsFit();
    hide Fits;
  }

  lemma LoadCellReadsBack(l: LoadCellMetadata)
    ensures |Encode(LoadCellFields(l))| == 17
    ensures LoadCellOf(Parse(LOAD_CELL_WIDTHS, Encode(LoadCellFields(l)))) == Section(l, true)
  {
    LoadCellLayout(l);
    hide Parse, Encode, Fits, Size;
    Written(LoadCellFields(l), LOAD_CELL_WIDTHS);
  }

  lemma ProfileLayout(p: WeighingProfileConfig)
    ensures Widths(ProfileFields(p)) == PROFILE_WIDTHS && Size(PROFILE_WIDTHS) == 25
    ensures forall f :: f in ProfileFields(p) ==> Fits(f)
  {
    FieldsFit();
    hide Fits;
  }

  lemma ProfileReadsBack(p: WeighingProfileConfig)
    ensures |Encode(ProfileFields(p))| == 25
    ensures ProfileOf(Parse(PROFILE_WIDTHS, Encode(ProfileFields(p)))) == Section(p, true)
  {
    ProfileLayout(p);
    hide Parse, Encode, Fits, Size;
    Written(ProfileFields(p), PROFILE_WIDTHS);
  }

  lemma SpanLayout(c: DeviceConfig)
    ensures Widths(SpanFields(c)) == SPAN_WIDTHS && Size(SPAN_WIDTHS) == 9
    ensures forall f :: f in SpanFields(c) ==> Fits(f)
  {
    FieldsFit();
    hide Fits;
  }

  lemma SpanReadsBack(c: DeviceConfig)
    ensures |Encode(SpanFields(c))| == 9
    ensures SpanOf(Parse(SPAN_WIDTHS, Encode(SpanFields(c))))
         == Section((c.metrology.active_profile, c.calibration.span_mass_ug), true)
  {
    SpanLayout(c);
    hide Parse, Encode, Fits, Size;
    Written(SpanFields(c), SPAN_WIDTHS);
  }

  lemma LinkLayout(c: CommunicationConfig)
    ensures Widths(LinkFields(c)) == LINK_WIDTHS && Size(LINK_WIDTHS) == 7
    ensures forall f :: f in LinkFields(c) ==> Fits(f)
  {
    FieldsFit();
    hide Fits;
  }

  lemma LinkReadsBack(c: CommunicationConfig, base: CommunicationConfig)
    ensures |Encode(LinkFields(c))| == 7
    ensures LinkOf(Parse(LINK_WIDTHS, Encode(LinkFields(c))), base) == Section(base.(
      word_order := c.word_order, response_delay_ms := c.response_delay_ms,
      recommended_poll_interval_ms := c.recommended_poll_interval_ms,
      broadcast_write_policy := c.broadcast_write_policy, pending_apply := c.pending_apply), true)
  {
    LinkLayout(c);
    hide Parse, Encode, Fits, Size;
    Written(LinkFields(c), LINK_WIDTHS);
  }

  lemma MassLimitLayout(a: AlarmConfig, r: RuntimeState)
    ensures Widths(MassLimitFields(a, r)) == MASS_LIMIT_WIDTHS && Size(MASS_LIMIT_WIDTHS) == 32
    ensures forall f :: f in MassLimitFields(a, r) ==> Fits(f)
  {
    FieldsFit();
    hide Fits;
  }

  lemma MassLimitReadsBack(a: AlarmConfig, r: RuntimeState)
    ensures |Encode(MassLimitFields(a, r))| == 32
    ensures MassLimitsOf(Parse(MASS_LIMIT_WIDTHS, Encode(MassLimitFields(a, r))))
         == Section((a.lower_limit_ug, a.upper_limit_ug, a.hysteresis_ug, r.current_tare_ug), true)
  {
    MassLimitLayout(a, r);
    hide Parse, Encode, Fits, Size;
    Written(MassLimitFields(a, r), MASS_LIMIT_WIDTHS);
  }

  // ---- the whole payload ------------------------------------------------------------------

  // Five sections behind a prefix.
  lemma FiveInPlace(p: Bytes, s0: Bytes, s1: Bytes, s2: Bytes, s3: Bytes, s4: Bytes,
                    o0: nat, o1: nat, o2: nat, o3: nat, o4: nat, o5: nat)
    requires o0 == |p| && o1 == o0 + |s0| && o2 == o1 + |s1| && o3 == o2 + |s2| && o4 == o3 + |s3| && o5 == o4 + |s4|
    ensures var b := p + s0 + s1 + s2 + s3 + s4;
      && |b| == o5 && b[..o0] == p
      && b[o0..o1] == s0 && b[o1..o2] == s1 && b[o2..o3] == s2 && b[o3..o4] == s3 && b[o4..o5] == s4
  {}

  lemma SliceOfStart(b: Bytes, n: nat, i: nat, j: nat)
    requires i <= j <= n <= |b|
    ensures b[..n][i..j] == b[i..j]
  {}

  // Ten sections of known length stand at the sums of the lengths before them.
  lemma SectionsInPlace(s0: Bytes, s1: Bytes, s2: Bytes, s3: Bytes, s4: Bytes, s5: Bytes, s6: Bytes, s7: Bytes,
                        s8: Bytes, s9: Bytes, o: seq<nat>)
    requires |o| == 11 && o[0] == 0 && o[1] == |s0| && o[2] == o[1] + |s1| && o[3] == o[2] + |s2| && o[4] == o[3] + |s3|
    requires o[5] == o[4] + |s4| && o[6] == o[5] + |s5| && o[7] == o[6] + |s6| && o[8] == o[7] + |s7|
    requires o[9] == o[8] + |s8| && o[10] == o[9] + |s9|
    ensures var b := s0 + s1 + s2 + s3 + s4 + s5 + s6 + s7 + s8 + s9;
      && |b| == o[10]
      && b[0..o[1]] == s0 && b[o[1]..o[2]] == s1 && b[o[2]..o[3]] == s2 && b[o[3]..o[4]] == s3
      && b[o[4]..o[5]] == s4 && b[o[5]..o[6]] == s5 && b[o[6]..o[7]] == s6 && b[o[7]..o[8]] == s7
      && b[o[8]..o[9]] == s8 && b[o[9]..o[10]] == s9
  {
    var start := s0 + s1 + s2 + s3 + s4;
    assert [] + s0 == s0;
    FiveInPlace([], s0, s1, s2, s3, s4, o[0], o[1], o[2], o[3], o[4], o[5]);
    FiveInPlace(start, s5, s6, s7, s8, s9, o[5], o[6], o[7], o[8], o[9], o[10]);
    var b := s0 + s1 + s2 + s3 + s4 + s5 + s6 + s7 + s8 + s9;
    SliceOfStart(b, o[5], 0, o[1]);
    SliceOfStart(b, o[5], o[1], o[2]);
    SliceOfStart(b, o[5], o[2], o[3]);
    SliceOfStart(b, o[5], o[3], o[4]);
    SliceOfStart(b, o[5], o[4], o[5]);
  }

  // What schema 1 stores of a configuration and of the runtime state.
  function V1View(c: DeviceConfig): DeviceConfig {
    DeviceConfig(
      DEFAULT_CONFIG.metrology.(legacy := c.metrology.legacy), c.calibration.(span_mass_ug := 0), c.stability,
      c.communication.(
        word_order := DEFAULT_CONFIG.communication.word_order,
        response_delay_ms := DEFAULT_CONFIG.communication.response_delay_ms,
        recommended_poll_interval_ms := DEFAULT_CONFIG.communication.recommended_poll_interval_ms,
        broadcast_write_policy := DEFAULT_CONFIG.communication.broadcast_write_policy,
        pending_apply := DEFAULT_CONFIG.communication.pending_apply),
      c.bluetooth, c.alarm.(lower_limit_ug := 0, upper_limit_ug := 0,
                            hysteresis_ug := 0), c.display, c.battery, c.system)
  }

  function V1RuntimeView(r: RuntimeState): RuntimeState {
    r.(current_tare_ug := 0, config_dirty := false, boot_count := 0, migration_pending_save := false)
  }

  lemma V1ReadsBack(c: DeviceConfig, r: RuntimeState)
    ensures |V1Bytes(c, r)| == V1_PAYLOAD_SIZE
    ensures ReadV1(V1Bytes(c, r)) == (V1View(c), V1RuntimeView(r), true)
  {
    LegacyReadsBack(c.metrology.legacy);
    CalibrationReadsBack(c.calibration);
    StabilityReadsBack(c.stability);
    CommunicationReadsBack(c.communication);
    BluetoothReadsBack(c.bluetooth);
    AlarmReadsBack(c.alarm);
    DisplayReadsBack(c.display);
    BatteryReadsBack(c.battery);
    SystemReadsBack(c.system);
    RuntimeReadsBack(r);
    hide Encode, Parse, LegacyFields, CalibrationFields, StabilityFields, CommunicationFields, BluetoothFields,
      AlarmFields,
      DisplayFields, BatteryFields, SystemFields, RuntimeFields, LegacyOf, CalibrationOf, StabilityOf, CommunicationOf,
      BluetoothOf, AlarmOf, DisplayOf, BatteryOf, SystemOf, RuntimeOf;
    SectionsInPlace(
      Encode(LegacyFields(c.metrology.legacy)), Encode(CalibrationFields(c.calibration)),
      Encode(StabilityFields(c.stability)), Encode(CommunicationFields(c.communication)),
      Encode(BluetoothFields(c.bluetooth)), Encode(AlarmFields(c.alarm)), Encode(DisplayFields(c.display)),
      Encode(BatteryFields(c.battery)), Encode(SystemFields(c.system)), Encode(RuntimeFields(r)),
      [0, 28, 53, 67, 84, 96, 113, 121, 150, 158, 164]);
  }

  // Schema 2 read over any configuration: its own fields from the bytes, the
  // schema 1 fields from underneath.
  lemma V2ReadsBack(c: DeviceConfig, r: RuntimeState, base: DeviceConfig, runtime: RuntimeState)
    ensures |V2Bytes(c, r)| == V2_PAYLOAD_SIZE - V1_PAYLOAD_SIZE
    ensures ReadV2(V2Bytes(c, r), base, runtime)
         == (base.(
               metrology := c.metrology.(legacy := base.metrology.legacy),
               calibration := base.calibration.(span_mass_ug := c.calibration.span_mass_ug),
               communication := base.communication.(
                 word_order := c.communication.word_order, response_delay_ms := c.communication.response_delay_ms,
                 recommended_poll_interval_ms := c.communication.recommended_poll_interval_ms,
                 broadcast_write_policy := c.communication.broadcast_write_policy,
                 pending_apply := c.communication.pending_apply),
               alarm := base.alarm.(lower_limit_ug := c.alarm.lower_limit_ug, upper_limit_ug := c.alarm.upper_limit_ug,
                                    hysteresis_ug := c.alarm.hysteresis_ug)),
             runtime.(current_tare_ug := r.current_tare_ug), true)
  {
    MetrologyReadsBack(c.metrology, base.metrology);
    UnitDisplayReadsBack(c.metrology.kg);
    UnitDisplayReadsBack(c.metrology.g);
    UnitDisplayReadsBack(c.metrology.lb);
    LoadCellReadsBack(c.metrology.load_cell);
    ProfileReadsBack(c.metrology.high_precision);
    ProfileReadsBack(c.metrology.high_speed);
    SpanReadsBack(c);
    LinkReadsBack(c.communication, base.communication);
    MassLimitReadsBack(c.alarm, r);
    hide Encode, Parse, MetrologyFields, UnitDisplayFields, LoadCellFields, ProfileFields, SpanFields, LinkFields,
      MassLimitFields, MetrologyOf, UnitDisplayOf, LoadCellOf, ProfileOf, SpanOf, LinkOf, MassLimitsOf;
    SectionsInPlace(
      Encode(MetrologyFields(c.metrology)), Encode(UnitDisplayFields(c.metrology.kg)),
      Encode(UnitDisplayFields(c.metrology.g)), Encode(UnitDisplayFields(c.metrology.lb)),
      Encode(LoadCellFields(c.metrology.load_cell)), Encode(ProfileFields(c.metrology.high_precision)),
      Encode(ProfileFields(c.metrology.high_speed)), Encode(SpanFields(c)), Encode(LinkFields(c.communication)),
      Encode(MassLimitFields(c.alarm, r)),
      [0, 47, 53, 59, 65, 82, 107, 132, 141, 148, 180]);
  }

  // What a restart makes of (c, r) once it has been stored.
  function AfterRestart(c: DeviceConfig, r: RuntimeState): (DeviceConfig, RuntimeState)
    requires ProjectConfig(c).Some? && ProjectConfig(c).value.metrology.active_unit < MASS_UNIT_COUNT
  {
    var p := ProjectConfig(c).value;
    var projected := ProjectRuntime(r, p.metrology.active_unit, p.metrology.UnitDisplay(p.metrology.active_unit));
    var tare := if projected.Some? then projected.value.current_tare else 0;
    (p, RestoreTare(p, RuntimeState(r.weight_view, tare, r.current_tare_ug, r.tare_active, false, 0, false)))
  }

  // The configurations differ in legacy fields only, as far as they are stored.
  predicate SameCanonical(c: DeviceConfig, p: DeviceConfig) {
    && p.metrology == c.metrology.(legacy := p.metrology.legacy)
    && p.calibration.span_mass_ug == c.calibration.span_mass_ug
    && p.alarm == c.alarm.(lower_limit := p.alarm.lower_limit, upper_limit := p.alarm.upper_limit,
                           hysteresis := p.alarm.hysteresis)
    && p.communication == c.communication
  }

  lemma ProjectionKeeps(c: DeviceConfig)
    requires ProjectConfig(c).Some?
    ensures SameCanonical(c, ProjectConfig(c).value)
  {
    ProjectConfigCanonical(c);
    hide ProjectConfig;
  }

  // The two schemas' fields together make up the projected configuration.
  lemma ViewCompletes(c: DeviceConfig, p: DeviceConfig, base: DeviceConfig)
    requires SameCanonical(c, p) && base == V1View(p)
    ensures base.(
        metrology := c.metrology.(legacy := base.metrology.legacy),
        calibration := base.calibration.(span_mass_ug := c.calibration.span_mass_ug),
        communication := base.communication.(
          word_order := c.communication.word_order, response_delay_ms := c.communication.response_delay_ms,
          recommended_poll_interval_ms := c.communication.recommended_poll_interval_ms,
          broadcast_write_policy := c.communication.broadcast_write_policy,
          pending_apply := c.communication.pending_apply),
        alarm := base.alarm.(lower_limit_ug := c.alarm.lower_limit_ug, upper_limit_ug := c.alarm.upper_limit_ug,
                             hysteresis_ug := c.alarm.hysteresis_ug)) == p
  {}

  // A valid configuration is valid already when only schema 1 has been read:
  // the missing link fields default to valid ones.
  lemma ViewStaysValid(p: DeviceConfig)
    requires CommonValid(p)
    ensures CommonValid(V1View(p))
  {}

  lemma DecodeOfParts(v1: Bytes, v2: Bytes, base: DeviceConfig, r1: RuntimeState, p: DeviceConfig, r2: RuntimeState)
    requires |v1| == V1_PAYLOAD_SIZE && |v2| == V2_PAYLOAD_SIZE - V1_PAYLOAD_SIZE
    requires ReadV1(v1) == (base, r1, true) && CommonValid(base) && r1.weight_view < WEIGHT_VIEW_COUNT
    requires ReadV2(v2, base, r1) == (p, r2, true) && ConfigValid(p)
    ensures DecodeV2(v1 + v2) == Restored(p, RestoreTare(p, r2))
  {
    hide ReadV1, ReadV2, ConfigValid, CommonValid, RestoreTare;
    assert (v1 + v2)[..V1_PAYLOAD_SIZE] == v1 && (v1 + v2)[V1_PAYLOAD_SIZE..] == v2;
  }

  lemma DecodeOfEncoded(c: DeviceConfig, r: RuntimeState, p: DeviceConfig, runtime: RuntimeState)
    requires SameCanonical(c, p)
    requires ConfigValid(p) && runtime.weight_view < WEIGHT_VIEW_COUNT
    ensures var b := V1Bytes(p, runtime) + V2Bytes(c, r);
      && |b| == V2_PAYLOAD_SIZE
      && DecodeV2(b) == Restored(p, RestoreTare(p, V1RuntimeView(runtime).(current_tare_ug := r.current_tare_ug)))
  {
    V1ViewKeeps(runtime);
    hide *;
    var base, r1 := V1View(p), V1RuntimeView(runtime);
    V1ReadsBack(p, runtime);
    V2CompletesV1(c, r, p, r1);
    ValidBeforeV2(p);
    DecodeOfParts(V1Bytes(p, runtime), V2Bytes(c, r), base, r1, p, r1.(current_tare_ug := r.current_tare_ug));
  }

  lemma V1ViewKeeps(r: RuntimeState)
    ensures V1RuntimeView(r).weight_view == r.weight_view
  {}

  // Read behind schema 1, schema 2 makes up the projected configuration.
  lemma V2CompletesV1(c: DeviceConfig, r: RuntimeState, p: DeviceConfig, r1: RuntimeState)
    requires SameCanonical(c, p)
    ensures |V2Bytes(c, r)| == V2_PAYLOAD_SIZE - V1_PAYLOAD_SIZE
    ensures ReadV2(V2Bytes(c, r), V1View(p), r1) == (p, r1.(current_tare_ug := r.current_tare_ug), true)
  {
    V2ReadsBack(c, r, V1View(p), r1);
    ViewCompletes(c, p, V1View(p));
    hide ReadV2, V2Bytes, V1View, SameCanonical;
  }

  lemma ValidBeforeV2(p: DeviceConfig)
    requires ConfigValid(p)
    ensures CommonValid(V1View(p))
  {
    assert CommonValid(p);
    ViewStaysValid(p);
  }

  // Whatever EncodeV2 accepts, DecodeV2 gives back: the canonical fields as they
  // were, the legacy ones as their projections, the tare by the retention rule.
  lemma RoundTrip(c: DeviceConfig, r: RuntimeState, capacity: nat)
    requires EncodeV2(c, r, capacity).Payload?
    ensures |EncodeV2(c, r, capacity).bytes| == V2_PAYLOAD_SIZE
    ensures ProjectConfig(c).Some? && ProjectConfig(c).value.metrology.active_unit < MASS_UNIT_COUNT
    ensures DecodeV2(EncodeV2(c, r, capacity).bytes) == Restored(AfterRestart(c, r).0, AfterRestart(c, r).1)
  {
    var runtime := EncodedParts(c, r, capacity);
    ProjectionKeeps(c);
    hide *;
    DecodeOfEncoded(c, r, ProjectConfig(c).value, runtime);
  }

  // A stored tare comes back exactly when it was active, retention is on, the
  // calibration is valid and the mass is positive and within the overload limit;
  // otherwise there is no tare.  Its count is what the display shows of it.
  lemma TareComesBack(c: DeviceConfig, r: RuntimeState, capacity: nat)
    requires EncodeV2(c, r, capacity).Payload?
    ensures DecodeV2(EncodeV2(c, r, capacity).bytes).Restored?
    ensures var d := DecodeV2(EncodeV2(c, r, capacity).bytes).runtime;
      && (d.tare_active <==> r.tare_active && c.system.tare_power_loss_retention && c.calibration.calibration_valid
                             && 0 < r.current_tare_ug <= c.metrology.overload_threshold_ug)
      && d.current_tare_ug == (if d.tare_active then r.current_tare_ug else 0)
      && (if d.tare_active then Shows(c.metrology, r.current_tare_ug, d.current_tare) else d.current_tare == 0)
      && d.weight_view == r.weight_view && !d.config_dirty && !d.migration_pending_save
  {
    RoundTrip(c, r, capacity);
    ProjectConfigCanonical(c);
    EncodedTareShows(c, r, capacity);
    hide Shows;
    hide EncodeV2, DecodeV2, ProjectConfig, ProjectRuntime;
  }

  lemma EncodedTareShows(c: DeviceConfig, r: RuntimeState, capacity: nat)
    requires EncodeV2(c, r, capacity).Payload?
    ensures ProjectConfig(c).Some? && ProjectConfig(c).value.metrology.active_unit < MASS_UNIT_COUNT
    ensures var m := ProjectConfig(c).value.metrology;
      var projected := ProjectRuntime(r, m.active_unit, m.UnitDisplay(m.active_unit));
      projected.Some? && (r.tare_active ==> Shows(c.metrology, r.current_tare_ug, projected.value.current_tare))
  {
    EncodesProjected(c, r, capacity);
    ProjectConfigCanonical(c);
    hide EncodeV2, ProjectConfig, ProjectRuntime;
    ProjectedTareShows(ProjectConfig(c).value.metrology, r);
  }

  // And the configuration comes back with every canonical field.
  lemma ConfigComesBack(c: DeviceConfig, r: RuntimeState, capacity: nat)
    requires EncodeV2(c, r, capacity).Payload?
    ensures DecodeV2(EncodeV2(c, r, capacity).bytes).Restored?
    ensures var d := DecodeV2(EncodeV2(c, r, capacity).bytes).config;
      && d.metrology == c.metrology.(legacy := d.metrology.legacy)
      && d.calibration == c.calibration.(span_weight := d.calibration.span_weight,
                                         scale_numerator := d.calibration.scale_numerator)
      && d.communication == c.communication && d.bluetooth == c.bluetooth && d.display == c.display
      && d.alarm == c.alarm.(lower_limit := d.alarm.lower_limit, upper_limit := d.alarm.upper_limit,
                             hysteresis := d.alarm.hysteresis)
      && d.battery == c.battery && d.system == c.system
  {
    RoundTrip(c, r, capacity);
    ProjectConfigCanonical(c);
    hide EncodeV2, DecodeV2, ProjectConfig, ProjectRuntime, RestoreTare;
  }

  // No bytes whatever restore a tare against the rule.
  lemma NoTareAgainstTheRule(b: Bytes)
    requires DecodeV2(b).Restored?
    ensures var d := DecodeV2(b);
      if d.runtime.tare_active
      then d.config.system.tare_power_loss_retention && d.config.calibration.calibration_valid
           && 0 < d.runtime.current_tare_ug <= d.config.metrology.overload_threshold_ug
      else d.runtime.current_tare_ug == 0 && d.runtime.current_tare == 0
  {
    hide ReadV1, ReadV2, ConfigValid, CommonValid;
  }

  // The old display settings show the mass as this count.
  predicate LegacyShows(l: LegacyMetrology, mass: i64, count: int) {
    MassToCountUnbounded(mass, l.unit, l.decimal_places, 1) == Some(count)
  }

  // On the old display settings every mass of the new configuration shows the
  // count that it was stored as.
  ghost predicate MassesShow(v1: DeviceConfig, d: DeviceConfig) {
    var l, m := v1.metrology.legacy, d.metrology;
    && LegacyShows(l, m.capacity_ug, l.capacity) && LegacyShows(l, m.verification_interval_e_ug, l.division)
    && LegacyShows(l, m.zero_range_ug, l.zero_range) && LegacyShows(l, m.overload_threshold_ug, l.overload_threshold)
    && LegacyShows(l, d.calibration.span_mass_ug, v1.calibration.span_weight)
    && LegacyShows(l, m.high_precision.stability_enter_threshold_ug, v1.stability.enter_threshold)
    && LegacyShows(l, m.high_precision.stability_exit_threshold_ug, v1.stability.exit_threshold)
  }

  // The old filter and stability settings make up the first profile, which is active.
  ghost predicate ProfileTakenOver(v1: DeviceConfig, d: DeviceConfig) {
    var l, p := v1.metrology.legacy, d.metrology.high_precision;
    && d.metrology.active_unit == l.unit && d.metrology.active_profile == WEIGHING_PROFILE_HIGH_PRECISION
    && p.sample_rate == l.cs1237_data_rate && p.gain == l.cs1237_gain && p.filter_mode == l.filter_mode
    && p.filter_strength == l.filter_strength && p.stability_window == v1.stability.window_size
    && p.stability_hold_ms == v1.stability.stable_hold_ms
  }

  // A tare is kept by the same rule as later, against the old limit.
  ghost predicate TareTakenOver(v1: DeviceConfig, r1: RuntimeState, d: RuntimeState) {
    var l := v1.metrology.legacy;
    && (d.tare_active <==>
          && r1.tare_active && v1.system.tare_power_loss_retention && v1.calibration.calibration_valid
          && 0 < r1.current_tare
          && r1.current_tare <= if l.overload_threshold == 0 then l.capacity else l.overload_threshold)
    && d.current_tare == (if d.tare_active then r1.current_tare else 0)
    && LegacyShows(l, d.current_tare_ug, d.current_tare)
  }

  // What becomes of a schema 1 record.
  lemma MigrationShowsSame(b: Bytes)
    requires DecodeV1(b).Restored?
    ensures |b| == V1_PAYLOAD_SIZE
    ensures var (v1, r1, _) := ReadV1(b);
      var d := DecodeV1(b);
      && MassesShow(v1, d.config) && ProfileTakenOver(v1, d.config) && TareTakenOver(v1, r1, d.runtime)
      && d.runtime.migration_pending_save && d.runtime.config_dirty && d.runtime.weight_view == r1.weight_view
  {
    hide ReadV1, ConfigValid, CommonValid, MassesShow, ProfileTakenOver, TareTakenOver;
    var (v1, r1, _) := ReadV1(b);
    assert v1.stability.window_size <= STABILITY_MAX_WINDOW;
    hide Migrate;
    MigratedShows(v1, r1);
    TareMigrates(v1, r1);
  }

  lemma MigratedShows(v1: DeviceConfig, r1: RuntimeState)
    requires Migrate(v1, r1).Restored? && v1.stability.window_size <= STABILITY_MAX_WINDOW
    ensures MassesShow(v1, Migrate(v1, r1).config) && ProfileTakenOver(v1, Migrate(v1, r1).config)
  {
    hide ConfigValid, CountToMass, MassToCountUnbounded;
    var l := v1.metrology.legacy;
    MassMeansGrid(l.capacity, l.unit, l.decimal_places);
    SmallCountReturns(l.capacity, l.unit, l.decimal_places);
    SmallCountReturns(l.division, l.unit, l.decimal_places);
    SmallCountReturns(l.zero_range, l.unit, l.decimal_places);
    SmallCountReturns(l.overload_threshold, l.unit, l.decimal_places);
    SmallCountReturns(v1.calibration.span_weight, l.unit, l.decimal_places);
    SmallCountReturns(v1.stability.enter_threshold, l.unit, l.decimal_places);
    SmallCountReturns(v1.stability.exit_threshold, l.unit, l.decimal_places);
  }

  lemma TareMigrates(v1: DeviceConfig, r1: RuntimeState)
    requires Migrate(v1, r1).Restored?
    ensures TareTakenOver(v1, r1, Migrate(v1, r1).runtime)
    ensures var d := Migrate(v1, r1).runtime;
            d.migration_pending_save && d.config_dirty && d.weight_view == r1.weight_view
  {
    hide ConfigValid, CountToMass, MassToCountUnbounded;
    var l := v1.metrology.legacy;
    MassMeansGrid(l.capacity, l.unit, l.decimal_places);
    SmallCountReturns(Migrate(v1, r1).runtime.current_tare, l.unit, l.decimal_places);
  }

  // What an accepted encoding is made of.
  lemma EncodedParts(c: DeviceConfig, r: RuntimeState, capacity: nat) returns (runtime: RuntimeState)
    requires EncodeV2(c, r, capacity).Payload?
    ensures ProjectConfig(c).Some? && ProjectConfig(c).value.metrology.active_unit < MASS_UNIT_COUNT
    ensures var p := ProjectConfig(c).value;
      && ConfigValid(p) && runtime.weight_view < WEIGHT_VIEW_COUNT
      && EncodeV2(c, r, capacity).bytes == V1Bytes(p, runtime) + V2Bytes(c, r)
      && AfterRestart(c, r) == (p, RestoreTare(p, V1RuntimeView(runtime).(current_tare_ug := r.current_tare_ug)))
  {
    ProjectedUnit(c);
    hide ProjectConfig, ConfigValid, LegacyV1Valid, V1Bytes, V2Bytes, ProjectCount, RestoreTare;
    var p := ProjectConfig(c).value;
    runtime := ProjectRuntime(r, p.metrology.active_unit, p.metrology.UnitDisplay(p.metrology.active_unit)).value;
  }

  // The schema 2 bytes depend on the canonical fields and the tare mass alone.
  lemma V2BytesSame(c: DeviceConfig, r: RuntimeState, p: DeviceConfig, r2: RuntimeState)
    requires SameCanonical(c, p) && r2.current_tare_ug == r.current_tare_ug
    ensures V2Bytes(p, r2) == V2Bytes(c, r)
  {
    assert MetrologyFields(p.metrology) == MetrologyFields(c.metrology);
    assert SpanFields(p) == SpanFields(c);
    assert MassLimitFields(p.alarm, r2) == MassLimitFields(c.alarm, r);
    hide Encode;
  }

  lemma Lengths(c: DeviceConfig, r: RuntimeState)
    ensures |V1Bytes(c, r)| == V1_PAYLOAD_SIZE && |V2Bytes(c, r)| == V2_PAYLOAD_SIZE - V1_PAYLOAD_SIZE
  {
    V1ReadsBack(c, r);
    V2ReadsBack(c, r, c, r);
    hide *;
  }

  // Of the runtime state schema 1 shows all that it stores ...
  lemma V1Shows(p: DeviceConfig, r: RuntimeState, r2: RuntimeState)
    ensures V1Bytes(p, r2) == V1Bytes(p, r)
       <==> r2.weight_view == r.weight_view && r2.current_tare == r.current_tare && r2.tare_active == r.tare_active
  {
    V1ViewIs(r, r2);
    hide *;
    V1ReadsBack(p, r);
    V1ReadsBack(p, r2);
    V1BytesSame(p, r, r2);
  }

  lemma V1ViewIs(r: RuntimeState, r2: RuntimeState)
    ensures V1RuntimeView(r2) == V1RuntimeView(r)
       <==> r2.weight_view == r.weight_view && r2.current_tare == r.current_tare && r2.tare_active == r.tare_active
  {}

  lemma V1BytesSame(p: DeviceConfig, r: RuntimeState, r2: RuntimeState)
    ensures V1RuntimeView(r2) == V1RuntimeView(r) ==> V1Bytes(p, r2) == V1Bytes(p, r)
  {
    hide Encode;
    if V1RuntimeView(r2) == V1RuntimeView(r) {
      assert RuntimeFields(r2) == RuntimeFields(r);
    }
  }

  // ... and schema 2 the tare mass.
  lemma V2Shows(c: DeviceConfig, p: DeviceConfig, r: RuntimeState, r2: RuntimeState)
    requires SameCanonical(c, p)
    ensures V2Bytes(p, r2) == V2Bytes(c, r) <==> r2.current_tare_ug == r.current_tare_ug
  {
    TareReadsBack(c, r, p);
    TareReadsBack(p, r2, p);
    hide SameCanonical, ReadV2, V2Bytes;
    if r2.current_tare_ug == r.current_tare_ug { V2BytesSame(c, r, p, r2); }
  }

  lemma TareReadsBack(c: DeviceConfig, r: RuntimeState, base: DeviceConfig)
    ensures |V2Bytes(c, r)| == V2_PAYLOAD_SIZE - V1_PAYLOAD_SIZE
    ensures ReadV2(V2Bytes(c, r), base, BLANK_RUNTIME).1.current_tare_ug == r.current_tare_ug
  {
    V2ReadsBack(c, r, base, BLANK_RUNTIME);
    hide *;
  }

  const BLANK_RUNTIME: RuntimeState := RuntimeState(0, 0, 0, false, false, 0, false)

  // The bytes of another runtime state over the same configuration differ
  // exactly when a stored runtime field does.
  lemma RuntimeShowsInBytes(c: DeviceConfig, p: DeviceConfig, r: RuntimeState, r2: RuntimeState)
    requires SameCanonical(c, p)
    ensures V1Bytes(p, r2) + V2Bytes(p, r2) == V1Bytes(p, r) + V2Bytes(c, r)
       <==> r2.weight_view == r.weight_view && r2.current_tare == r.current_tare && r2.tare_active == r.tare_active
            && r2.current_tare_ug == r.current_tare_ug
  {
    hide *;
    V1Shows(p, r, r2);
    V2Shows(c, p, r, r2);
    Lengths(p, r2);
    Lengths(p, r);
    SamePrefix(V1Bytes(p, r2), V2Bytes(p, r2), V1Bytes(p, r), V2Bytes(c, r));
  }

  lemma SamePrefix(a: Bytes, b: Bytes, c: Bytes, d: Bytes)
    requires |a| == |c|
    ensures a + b == c + d <==> a == c && b == d
  {
    if a + b == c + d {
      assert (a + b)[..|a|] == a && (a + b)[|a|..] == b;
      assert (c + d)[..|c|] == c && (c + d)[|c|..] == d;
    }
  }

  lemma EncodeV2Is(c: DeviceConfig, r: RuntimeState, capacity: nat, p: DeviceConfig, runtime: RuntimeState)
    requires ProjectConfig(c) == Some(p) && p.metrology.active_unit < MASS_UNIT_COUNT
    requires ProjectRuntime(r, p.metrology.active_unit, p.metrology.UnitDisplay(p.metrology.active_unit))
         == Some(runtime)
    ensures EncodeV2(c, r, capacity).Payload? <==> capacity >= V2_PAYLOAD_SIZE && V1Encodable(p, runtime)
    ensures EncodeV2(c, r, capacity).Payload? ==>
              EncodeV2(c, r, capacity) == Payload(V1Bytes(p, runtime) + V2Bytes(c, r))
  {
    hide ProjectConfig, ProjectRuntime, V1Encodable, V1Bytes, V2Bytes;
  }

  // Storing what a restart restored reproduces the same bytes exactly when the
  // tare was kept, or there was none to lose.
  lemma ReencodesSame(c: DeviceConfig, r: RuntimeState, capacity: nat)
    requires EncodeV2(c, r, capacity).Payload?
    ensures ProjectConfig(c).Some? && ProjectConfig(c).value.metrology.active_unit < MASS_UNIT_COUNT
    ensures var (c2, r2) := AfterRestart(c, r);
      && EncodeV2(c2, r2, capacity).Payload?
      && (EncodeV2(c2, r2, capacity) == EncodeV2(c, r, capacity)
          <==> TareRetained(c2, r) || (!r.tare_active && r.current_tare_ug == 0))
  {
    hide EncodeV2, ProjectConfig, ProjectRuntime, RestoreTare, TareRetained, ConfigValid, LegacyV1Valid, V1Bytes,
      V2Bytes, SameCanonical;
    EncodesProjected(c, r, capacity);
    var p := ProjectConfig(c).value;
    ProjectionKeeps(c);
    ProjectConfigIdempotent(c);
    var display := p.metrology.UnitDisplay(p.metrology.active_unit);
    var runtime := ProjectRuntime(r, p.metrology.active_unit, display).value;
    RuntimeReprojected(p, r, display);
    EncodeV2Is(c, r, capacity, p, runtime);
    var r2 := AfterRestart(c, r).1;
    EncodeV2Is(p, r2, capacity, p, r2);
    RuntimeShowsInBytes(c, p, runtime, r2);
    SameV2Bytes(c, r, runtime);
  }

  // Of the runtime state schema 2 stores the tare only.
  lemma SameV2Bytes(c: DeviceConfig, r: RuntimeState, runtime: RuntimeState)
    requires runtime.current_tare_ug == r.current_tare_ug
    ensures V2Bytes(c, runtime) == V2Bytes(c, r)
  {
    hide Encode;
  }

  // What is encoded has a legacy form.
  lemma EncodesProjected(c: DeviceConfig, r: RuntimeState, capacity: nat)
    requires EncodeV2(c, r, capacity).Payload?
    ensures ProjectConfig(c).Some? && ProjectConfig(c).value.metrology.active_unit < MASS_UNIT_COUNT
    ensures var m := ProjectConfig(c).value.metrology;
            ProjectRuntime(r, m.active_unit, m.UnitDisplay(m.active_unit)).Some?
  {
    hide ProjectRuntime, V1Bytes, V2Bytes;
  }

  lemma RuntimeReprojected(p: DeviceConfig, r: RuntimeState, display: UnitDisplayConfig)
    requires ProjectRuntime(r, p.metrology.active_unit, display).Some?
    ensures var projected := ProjectRuntime(r, p.metrology.active_unit, display).value;
      var r2 := RestoreTare(p,
          RuntimeState(r.weight_view, projected.current_tare, r.current_tare_ug, r.tare_active, false, 0, false));
      var again := ProjectRuntime(r2, p.metrology.active_unit, display);
      && again == Some(r2) && r2.weight_view == r.weight_view
      && projected.weight_view == r.weight_view && projected.tare_active == r.tare_active
      && projected.current_tare_ug == r.current_tare_ug
      && ((r2.current_tare == projected.current_tare && r2.tare_active == r.tare_active
           && r2.current_tare_ug == r.current_tare_ug)
          <==> TareRetained(p, r) || (!r.tare_active && r.current_tare_ug == 0))
  {
    hide ProjectCount;
  }
}
