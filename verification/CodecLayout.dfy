// Where each field of a stored configuration is among the 344 payload bytes, as
// the encoder of persistent_codec.c writes them: field by field at fixed places,
// little-endian, flags as 0 or 1, reserved bytes as 0.
module CodecLayout {
  import opened FixedWidth
  import opened LittleEndian
  import opened UnitConverter
  import opened Configuration
  import opened PersistentCodec
  import opened LegacyProjection

  // The bytes at k are the number v.
  predicate NumberAt(b: Bytes, k: nat, width: nat, v: nat) { k + width <= |b| && Get(b[k..k + width]) == v }

  predicate FlagAt(b: Bytes, k: nat, v: bool) { NumberAt(b, k, 1, if v then 1 else 0) }

  predicate SignedAt(b: Bytes, k: nat, v: i32) { NumberAt(b, k, 4, v % 0x1_0000_0000) }

  predicate LongAt(b: Bytes, k: nat, v: i64) { NumberAt(b, k, 8, v % 0x1_0000_0000_0000_0000) }

  predicate ZerosAt(b: Bytes, k: nat, n: nat) { k + n <= |b| && forall i :: k <= i < k + n ==> b[i] == 0 }

  // ---- the sections, each from its own place on -------------------------------------------------

  predicate LegacyAt(b: Bytes, at: nat, m: LegacyMetrology) {
    && NumberAt(b, at, 4, m.capacity) && NumberAt(b, at + 4, 4, m.division)
    && NumberAt(b, at + 8, 1, m.decimal_places) && NumberAt(b, at + 9, 1, m.unit)
    && NumberAt(b, at + 10, 1, m.sample_mode) && NumberAt(b, at + 11, 1, m.cs1237_gain)
    && NumberAt(b, at + 12, 1, m.cs1237_data_rate) && NumberAt(b, at + 13, 1, m.filter_mode)
    && NumberAt(b, at + 14, 1, m.filter_strength) && NumberAt(b, at + 15, 4, m.zero_range)
    && NumberAt(b, at + 19, 4, m.overload_threshold) && FlagAt(b, at + 23, m.auto_zero_tracking_enable)
    && NumberAt(b, at + 24, 4, m.auto_zero_tracking_range)
  }

  predicate CalibrationAt(b: Bytes, at: nat, c: CalibrationConfig) {
    && SignedAt(b, at, c.raw_zero) && SignedAt(b, at + 4, c.raw_span) && NumberAt(b, at + 8, 4, c.span_weight)
    && SignedAt(b, at + 12, c.scale_numerator) && SignedAt(b, at + 16, c.scale_denominator)
    && NumberAt(b, at + 20, 4, c.calibration_sequence) && FlagAt(b, at + 24, c.calibration_valid)
  }

  predicate StabilityAt(b: Bytes, at: nat, s: StabilityConfig) {
    && NumberAt(b, at, 2, s.window_size) && NumberAt(b, at + 2, 4, s.enter_threshold)
    && NumberAt(b, at + 6, 4, s.exit_threshold) && NumberAt(b, at + 10, 4, s.stable_hold_ms)
  }

  predicate CommunicationAt(b: Bytes, at: nat, c: CommunicationConfig) {
    && NumberAt(b, at, 4, c.baud_rate) && NumberAt(b, at + 4, 1, c.parity) && NumberAt(b, at + 5, 1, c.stop_bits)
    && NumberAt(b, at + 6, 1, c.modbus_address) && NumberAt(b, at + 7, 1, c.protocol_mode)
    && NumberAt(b, at + 8, 1, c.output_policy) && NumberAt(b, at + 9, 4, c.output_period_ms)
    && NumberAt(b, at + 13, 4, c.zero_suppress_range)
  }

  predicate BluetoothAt(b: Bytes, at: nat, c: BluetoothConfig) {
    && NumberAt(b, at, 4, c.uart_baud_rate) && NumberAt(b, at + 4, 2, c.protocol_version)
    && FlagAt(b, at + 6, c.w02_configured) && ZerosAt(b, at + 7, 5)
  }

  predicate AlarmAt(b: Bytes, at: nat, a: AlarmConfig) {
    && SignedAt(b, at, a.lower_limit) && SignedAt(b, at + 4, a.upper_limit) && NumberAt(b, at + 8, 4, a.hysteresis)
    && NumberAt(b, at + 12, 1, a.weight_source) && FlagAt(b, at + 13, a.internal_buzzer_enable)
    && FlagAt(b, at + 14, a.external_buzzer_enable) && FlagAt(b, at + 15, a.qualified_beep_enable)
    && FlagAt(b, at + 16, a.limit_function_enable)
  }

  predicate DisplayAt(b: Bytes, at: nat, d: DisplayConfig) {
    && NumberAt(b, at, 1, d.brightness) && NumberAt(b, at + 1, 1, d.default_weight_view) && ZerosAt(b, at + 2, 6)
  }

  predicate BatteryAt(b: Bytes, at: nat, p: BatteryConfig) {
    && NumberAt(b, at, 4, p.divider_top_ohm) && NumberAt(b, at + 4, 4, p.divider_bottom_ohm)
    && SignedAt(b, at + 8, p.calibration_gain_ppm) && SignedAt(b, at + 12, p.calibration_offset_mv)
    && NumberAt(b, at + 16, 4, p.low_warning_mv) && NumberAt(b, at + 20, 4, p.critical_low_mv)
    && NumberAt(b, at + 24, 4, p.recovery_mv) && FlagAt(b, at + 28, p.low_voltage_alarm_enable)
  }

  predicate SystemAt(b: Bytes, at: nat, s: SystemConfig) {
    && FlagAt(b, at, s.tare_power_loss_retention) && FlagAt(b, at + 1, s.watchdog_enable)
    && FlagAt(b, at + 2, s.startup_auto_zero_enable) && ZerosAt(b, at + 3, 5)
  }

  predicate RuntimeAt(b: Bytes, at: nat, r: RuntimeState) {
    && NumberAt(b, at, 1, r.weight_view) && SignedAt(b, at + 1, r.current_tare) && FlagAt(b, at + 5, r.tare_active)
  }

  predicate MetrologyAt(b: Bytes, at: nat, m: MetrologyConfig) {
    && LongAt(b, at, m.capacity_ug) && LongAt(b, at + 8, m.verification_interval_e_ug)
    && LongAt(b, at + 16, m.zero_range_ug) && LongAt(b, at + 24, m.overload_threshold_ug)
    && LongAt(b, at + 32, m.auto_zero_tracking_range_ug) && NumberAt(b, at + 40, 2, m.initial_zero_range_permille)
    && NumberAt(b, at + 42, 2, m.semi_auto_zero_range_permille) && NumberAt(b, at + 44, 1, m.compliance_mode)
    && NumberAt(b, at + 45, 1, m.active_unit) && NumberAt(b, at + 46, 1, m.enabled_unit_mask)
  }

  predicate UnitDisplayAt(b: Bytes, at: nat, d: UnitDisplayConfig) {
    && FlagAt(b, at, d.enabled) && NumberAt(b, at + 1, 1, d.decimal_places)
    && NumberAt(b, at + 2, 4, d.division_digit)
  }

  predicate LoadCellAt(b: Bytes, at: nat, l: LoadCellMetadata) {
    && FlagAt(b, at, l.rated_capacity_known) && LongAt(b, at + 1, l.rated_capacity_ug)
    && FlagAt(b, at + 9, l.sensitivity_known) && NumberAt(b, at + 10, 4, l.sensitivity_uv_per_v)
    && FlagAt(b, at + 14, l.safe_load_known) && NumberAt(b, at + 15, 2, l.safe_load_permille)
  }

  predicate ProfileAt(b: Bytes, at: nat, p: WeighingProfileConfig) {
    && NumberAt(b, at, 1, p.sample_rate) && NumberAt(b, at + 1, 1, p.gain) && NumberAt(b, at + 2, 1, p.filter_mode)
    && NumberAt(b, at + 3, 1, p.filter_strength) && NumberAt(b, at + 4, 1, p.stability_window)
    && LongAt(b, at + 5, p.stability_enter_threshold_ug) && LongAt(b, at + 13, p.stability_exit_threshold_ug)
    && NumberAt(b, at + 21, 4, p.stability_hold_ms)
  }

  predicate SpanAt(b: Bytes, at: nat, c: DeviceConfig) {
    && NumberAt(b, at, 1, c.metrology.active_profile) && LongAt(b, at + 1, c.calibration.span_mass_ug)
  }

  predicate LinkAt(b: Bytes, at: nat, c: CommunicationConfig) {
    && NumberAt(b, at, 1, c.word_order) && NumberAt(b, at + 1, 2, c.response_delay_ms)
    && NumberAt(b, at + 3, 2, c.recommended_poll_interval_ms) && NumberAt(b, at + 5, 1, c.broadcast_write_policy)
    && FlagAt(b, at + 6, c.pending_apply)
  }

  predicate MassLimitAt(b: Bytes, at: nat, a: AlarmConfig, r: RuntimeState) {
    && LongAt(b, at, a.lower_limit_ug) && LongAt(b, at + 8, a.upper_limit_ug) && LongAt(b, at + 16, a.hysteresis_ug)
    && LongAt(b, at + 24, r.current_tare_ug)
  }

  // ---- a section lies where it was put -----------------------------------------------------------

  function Offset(fs: seq<Field>, k: nat): nat
    requires k <= |fs|
  {
    if k == 0 then 0 else Offset(fs, k - 1) + fs[k - 1].width
  }

  predicate Has(b: Bytes, at: nat, section: Bytes) { at + |section| <= |b| && b[at..at + |section|] == section }

  lemma {:induction false} FieldInSection(fs: seq<Field>, k: nat)
    requires k < |fs|
    ensures Offset(fs, k) + fs[k].width <= |Encode(fs)|
    ensures Encode(fs)[Offset(fs, k)..Offset(fs, k) + fs[k].width] == Put(fs[k].value, fs[k].width)
  {
    if k > 0 {
      FieldInSection(fs[1..], k - 1);
      OffsetBehind(fs, k);
      EncodeBehind(fs);
      hide Encode, Put, Has;
      Inside(Encode(fs), fs[0].width, Encode(fs[1..]), Offset(fs[1..], k - 1), fs[k].width);
    }
  }

  lemma EncodeBehind(fs: seq<Field>)
    requires fs != []
    ensures Has(Encode(fs), fs[0].width, Encode(fs[1..]))
  {
    assert Encode(fs)[fs[0].width..] == Encode(fs[1..]);
  }

  lemma {:induction false} OffsetBehind(fs: seq<Field>, k: nat)
    requires 0 < k <= |fs|
    ensures Offset(fs, k) == fs[0].width + Offset(fs[1..], k - 1)
  {
    if k > 1 { OffsetBehind(fs, k - 1); }
  }

  lemma NothingBefore(fs: seq<Field>)
    ensures Offset(fs, 0) == 0
  {}

  // Field k of a section lies at offset o, and the next one behind it.
  lemma Lies(b: Bytes, at: nat, fs: seq<Field>, k: nat, o: nat)
    requires Has(b, at, Encode(fs)) && k < |fs| && Fits(fs[k]) && Offset(fs, k) == o
    ensures NumberAt(b, at + o, fs[k].width, fs[k].value) && Offset(fs, k + 1) == o + fs[k].width
  {
    FieldInSection(fs, k);
    hide *;
    var f := fs[k];
    Returns(f);
    Inside(b, at, Encode(fs), o, f.width);
    Numbered(b, at + o, f.width, f.value);
  }

  lemma Returns(f: Field)
    requires Fits(f)
    ensures Get(Put(f.value, f.width)) == f.value
  {
    GetPut(f.value, f.width);
  }

  lemma Inside(b: Bytes, at: nat, section: Bytes, o: nat, w: nat)
    requires Has(b, at, section) && o + w <= |section|
    ensures at + o + w <= |b| && b[at + o..at + o + w] == section[o..o + w]
  {
    var x, y := b[at + o..at + o + w], section[o..o + w];
    forall i | 0 <= i < w ensures x[i] == y[i] { assert section[o + i] == b[at..at + |section|][o + i]; }
  }

  lemma Numbered(b: Bytes, k: nat, w: nat, v: nat)
    requires k + w <= |b| && Get(b[k..k + w]) == v
    ensures NumberAt(b, k, w, v)
  {
    hide Get;
  }

  lemma ZeroBytes(b: Bytes, at: nat, n: nat)
    requires forall k :: at <= k < at + n ==> NumberAt(b, k, 1, 0)
    ensures n > 0 ==> ZerosAt(b, at, n)
  {
    assert Put(0, 1) == [0];
    forall k | at <= k < at + n ensures k < |b| && b[k] == 0 {
      assert NumberAt(b, k, 1, 0);
      PutGet(b[k..k + 1]);
    }
    if n > 0 { assert NumberAt(b, at + n - 1, 1, 0); }
  }

  lemma LegacyLies(b: Bytes, at: nat, m: LegacyMetrology)
    requires Has(b, at, Encode(LegacyFields(m)))
    ensures LegacyAt(b, at, m)
  {
    LegacyLayout(m);
    hide Encode, Offset, Fits, Size, Has, NumberAt;
    var fs := LegacyFields(m);
    NothingBefore(fs);
    Lies(b, at, fs, 0, 0);
    Lies(b, at, fs, 1, 4);
    Lies(b, at, fs, 2, 8);
    Lies(b, at, fs, 3, 9);
    Lies(b, at, fs, 4, 10);
    Lies(b, at, fs, 5, 11);
    Lies(b, at, fs, 6, 12);
    Lies(b, at, fs, 7, 13);
    Lies(b, at, fs, 8, 14);
    Lies(b, at, fs, 9, 15);
    Lies(b, at, fs, 10, 19);
    Lies(b, at, fs, 11, 23);
    Lies(b, at, fs, 12, 24);
  }

  lemma CalibrationLies(b: Bytes, at: nat, c: CalibrationConfig)
    requires Has(b, at, Encode(CalibrationFields(c)))
    ensures CalibrationAt(b, at, c)
  {
    CalibrationLayout(c);
    hide Encode, Offset, Fits, Size, Has, NumberAt;
    var fs := CalibrationFields(c);
    NothingBefore(fs);
    Lies(b, at, fs, 0, 0);
    Lies(b, at, fs, 1, 4);
    Lies(b, at, fs, 2, 8);
    Lies(b, at, fs, 3, 12);
    Lies(b, at, fs, 4, 16);
    Lies(b, at, fs, 5, 20);
    Lies(b, at, fs, 6, 24);
  }

  lemma StabilityLies(b: Bytes, at: nat, s: StabilityConfig)
    requires Has(b, at, Encode(StabilityFields(s)))
    ensures StabilityAt(b, at, s)
  {
    StabilityLayout(s);
    hide Encode, Offset, Fits, Size, Has, NumberAt;
    var fs := StabilityFields(s);
    NothingBefore(fs);
    Lies(b, at, fs, 0, 0);
    Lies(b, at, fs, 1, 2);
    Lies(b, at, fs, 2, 6);
    Lies(b, at, fs, 3, 10);
  }

  lemma CommunicationLies(b: Bytes, at: nat, c: CommunicationConfig)
    requires Has(b, at, Encode(CommunicationFields(c)))
    ensures CommunicationAt(b, at, c)
  {
    CommunicationLayout(c);
    hide Encode, Offset, Fits, Size, Has, NumberAt;
    var fs := CommunicationFields(c);
    NothingBefore(fs);
    Lies(b, at, fs, 0, 0);
    Lies(b, at, fs, 1, 4);
    Lies(b, at, fs, 2, 5);
    Lies(b, at, fs, 3, 6);
    Lies(b, at, fs, 4, 7);
    Lies(b, at, fs, 5, 8);
    Lies(b, at, fs, 6, 9);
    Lies(b, at, fs, 7, 13);
  }

  lemma BluetoothLies(b: Bytes, at: nat, c: BluetoothConfig)
    requires Has(b, at, Encode(BluetoothFields(c)))
    ensures BluetoothAt(b, at, c)
  {
    BluetoothLayout(c);
    hide Encode, Offset, Fits, Size, Has, NumberAt;
    var fs := BluetoothFields(c);
    NothingBefore(fs);
    Lies(b, at, fs, 0, 0);
    Lies(b, at, fs, 1, 4);
    Lies(b, at, fs, 2, 6);
    Lies(b, at, fs, 3, 7);
    Lies(b, at, fs, 4, 8);
    Lies(b, at, fs, 5, 9);
    Lies(b, at, fs, 6, 10);
    Lies(b, at, fs, 7, 11);
    ZeroBytes(b, at + 7, 5);
  }

  lemma AlarmLies(b: Bytes, at: nat, a: AlarmConfig)
    requires Has(b, at, Encode(AlarmFields(a)))
    ensures AlarmAt(b, at, a)
  {
    AlarmLayout(a);
    hide Encode, Offset, Fits, Size, Has, NumberAt;
    var fs := AlarmFields(a);
    NothingBefore(fs);
    Lies(b, at, fs, 0, 0);
    Lies(b, at, fs, 1, 4);
    Lies(b, at, fs, 2, 8);
    Lies(b, at, fs, 3, 12);
    Lies(b, at, fs, 4, 13);
    Lies(b, at, fs, 5, 14);
    Lies(b, at, fs, 6, 15);
    Lies(b, at, fs, 7, 16);
  }

  lemma DisplayLies(b: Bytes, at: nat, d: DisplayConfig)
    requires Has(b, at, Encode(DisplayFields(d)))
    ensures DisplayAt(b, at, d)
  {
    DisplayLayout(d);
    hide Encode, Offset, Fits, Size, Has, NumberAt;
    var fs := DisplayFields(d);
    NothingBefore(fs);
    Lies(b, at, fs, 0, 0);
    Lies(b, at, fs, 1, 1);
    Lies(b, at, fs, 2, 2);
    Lies(b, at, fs, 3, 3);
    Lies(b, at, fs, 4, 4);
    Lies(b, at, fs, 5, 5);
    Lies(b, at, fs, 6, 6);
    Lies(b, at, fs, 7, 7);
    ZeroBytes(b, at + 2, 6);
  }

  lemma BatteryLies(b: Bytes, at: nat, p: BatteryConfig)
    requires Has(b, at, Encode(BatteryFields(p)))
    ensures BatteryAt(b, at, p)
  {
    BatteryLayout(p);
    hide Encode, Offset, Fits, Size, Has, NumberAt;
    var fs := BatteryFields(p);
    NothingBefore(fs);
    Lies(b, at, fs, 0, 0);
    Lies(b, at, fs, 1, 4);
    Lies(b, at, fs, 2, 8);
    Lies(b, at, fs, 3, 12);
    Lies(b, at, fs, 4, 16);
    Lies(b, at, fs, 5, 20);
    Lies(b, at, fs, 6, 24);
    Lies(b, at, fs, 7, 28);
  }

  lemma SystemLies(b: Bytes, at: nat, s: SystemConfig)
    requires Has(b, at, Encode(SystemFields(s)))
    ensures SystemAt(b, at, s)
  {
    SystemLayout(s);
    hide Encode, Offset, Fits, Size, Has, NumberAt;
    var fs := SystemFields(s);
    NothingBefore(fs);
    Lies(b, at, fs, 0, 0);
    Lies(b, at, fs, 1, 1);
    Lies(b, at, fs, 2, 2);
    Lies(b, at, fs, 3, 3);
    Lies(b, at, fs, 4, 4);
    Lies(b, at, fs, 5, 5);
    Lies(b, at, fs, 6, 6);
    Lies(b, at, fs, 7, 7);
    ZeroBytes(b, at + 3, 5);
  }

  lemma RuntimeLies(b: Bytes, at: nat, r: RuntimeState)
    requires Has(b, at, Encode(RuntimeFields(r)))
    ensures RuntimeAt(b, at, r)
  {
    RuntimeLayout(r);
    hide Encode, Offset, Fits, Size, Has, NumberAt;
    var fs := RuntimeFields(r);
    NothingBefore(fs);
    Lies(b, at, fs, 0, 0);
    Lies(b, at, fs, 1, 1);
    Lies(b, at, fs, 2, 5);
  }

  lemma MetrologyLies(b: Bytes, at: nat, m: MetrologyConfig)
    requires Has(b, at, Encode(MetrologyFields(m)))
    ensures MetrologyAt(b, at, m)
  {
    MetrologyLayout(m);
    hide Encode, Offset, Fits, Size, Has, NumberAt;
    var fs := MetrologyFields(m);
    NothingBefore(fs);
    Lies(b, at, fs, 0, 0);
    Lies(b, at, fs, 1, 8);
    Lies(b, at, fs, 2, 16);
    Lies(b, at, fs, 3, 24);
    Lies(b, at, fs, 4, 32);
    Lies(b, at, fs, 5, 40);
    Lies(b, at, fs, 6, 42);
    Lies(b, at, fs, 7, 44);
    Lies(b, at, fs, 8, 45);
    Lies(b, at, fs, 9, 46);
  }

  lemma UnitDisplayLies(b: Bytes, at: nat, d: UnitDisplayConfig)
    requires Has(b, at, Encode(UnitDisplayFields(d)))
    ensures UnitDisplayAt(b, at, d)
  {
    UnitDisplayLayout(d);
    hide Encode, Offset, Fits, Size, Has, NumberAt;
    var fs := UnitDisplayFields(d);
    NothingBefore(fs);
    Lies(b, at, fs, 0, 0);
    Lies(b, at, fs, 1, 1);
    Lies(b, at, fs, 2, 2);
  }

  lemma LoadCellLies(b: Bytes, at: nat, l: LoadCellMetadata)
    requires Has(b, at, Encode(LoadCellFields(l)))
    ensures LoadCellAt(b, at, l)
  {
    LoadCellLayout(l);
    hide Encode, Offset, Fits, Size, Has, NumberAt;
    var fs := LoadCellFields(l);
    NothingBefore(fs);
    Lies(b, at, fs, 0, 0);
    Lies(b, at, fs, 1, 1);
    Lies(b, at, fs, 2, 9);
    Lies(b, at, fs, 3, 10);
    Lies(b, at, fs, 4, 14);
    Lies(b, at, fs, 5, 15);
  }

  lemma ProfileLies(b: Bytes, at: nat, p: WeighingProfileConfig)
    requires Has(b, at, Encode(ProfileFields(p)))
    ensures ProfileAt(b, at, p)
  {
    ProfileLayout(p);
    hide Encode, Offset, Fits, Size, Has, NumberAt;
    var fs := ProfileFields(p);
    NothingBefore(fs);
    Lies(b, at, fs, 0, 0);
    Lies(b, at, fs, 1, 1);
    Lies(b, at, fs, 2, 2);
    Lies(b, at, fs, 3, 3);
    Lies(b, at, fs, 4, 4);
    Lies(b, at, fs, 5, 5);
    Lies(b, at, fs, 6, 13);
    Lies(b, at, fs, 7, 21);
  }

  lemma SpanLies(b: Bytes, at: nat, c: DeviceConfig)
    requires Has(b, at, Encode(SpanFields(c)))
    ensures SpanAt(b, at, c)
  {
    SpanLayout(c);
    hide Encode, Offset, Fits, Size, Has, NumberAt;
    var fs := SpanFields(c);
    NothingBefore(fs);
    Lies(b, at, fs, 0, 0);
    Lies(b, at, fs, 1, 1);
  }

  lemma LinkLies(b: Bytes, at: nat, c: CommunicationConfig)
    requires Has(b, at, Encode(LinkFields(c)))
    ensures LinkAt(b, at, c)
  {
    LinkLayout(c);
    hide Encode, Offset, Fits, Size, Has, NumberAt;
    var fs := LinkFields(c);
    NothingBefore(fs);
    Lies(b, at, fs, 0, 0);
    Lies(b, at, fs, 1, 1);
    Lies(b, at, fs, 2, 3);
    Lies(b, at, fs, 3, 5);
    Lies(b, at, fs, 4, 6);
  }

  lemma MassLimitLies(b: Bytes, at: nat, a: AlarmConfig, r: RuntimeState)
    requires Has(b, at, Encode(MassLimitFields(a, r)))
    ensures MassLimitAt(b, at, a, r)
  {
    MassLimitLayout(a, r);
    hide Encode, Offset, Fits, Size, Has, NumberAt;
    var fs := MassLimitFields(a, r);
    NothingBefore(fs);
    Lies(b, at, fs, 0, 0);
    Lies(b, at, fs, 1, 8);
    Lies(b, at, fs, 2, 16);
    Lies(b, at, fs, 3, 24);
  }

  // ---- the whole payload --------------------------------------------------------------------------

  predicate Schema1At(b: Bytes, p: DeviceConfig, runtime: RuntimeState) {
    && LegacyAt(b, 0, p.metrology.legacy) && CalibrationAt(b, 28, p.calibration) && StabilityAt(b, 53, p.stability)
    && CommunicationAt(b, 67, p.communication) && BluetoothAt(b, 84, p.bluetooth) && AlarmAt(b, 96, p.alarm)
    && DisplayAt(b, 113, p.display) && BatteryAt(b, 121, p.battery) && SystemAt(b, 150, p.system)
    && RuntimeAt(b, 158, runtime)
  }

  predicate Schema2At(b: Bytes, c: DeviceConfig, r: RuntimeState) {
    && MetrologyAt(b, 164, c.metrology) && UnitDisplayAt(b, 211, c.metrology.kg)
    && UnitDisplayAt(b, 217, c.metrology.g) && UnitDisplayAt(b, 223, c.metrology.lb)
    && LoadCellAt(b, 229, c.metrology.load_cell) && ProfileAt(b, 246, c.metrology.high_precision)
    && ProfileAt(b, 271, c.metrology.high_speed) && SpanAt(b, 296, c) && LinkAt(b, 305, c.communication)
    && MassLimitAt(b, 312, c.alarm, r)
  }

  lemma Sections1(p: DeviceConfig, runtime: RuntimeState)
    ensures var v := V1Bytes(p, runtime);
      && |v| == 164
      && Has(v, 0, Encode(LegacyFields(p.metrology.legacy))) && Has(v, 28, Encode(CalibrationFields(p.calibration)))
      && Has(v, 53, Encode(StabilityFields(p.stability))) && Has(v, 67, Encode(CommunicationFields(p.communication)))
      && Has(v, 84, Encode(BluetoothFields(p.bluetooth))) && Has(v, 96, Encode(AlarmFields(p.alarm)))
      && Has(v, 113, Encode(DisplayFields(p.display))) && Has(v, 121, Encode(BatteryFields(p.battery)))
      && Has(v, 150, Encode(SystemFields(p.system))) && Has(v, 158, Encode(RuntimeFields(runtime)))
  {
    LegacyLayout(p.metrology.legacy);
    CalibrationLayout(p.calibration);
    StabilityLayout(p.stability);
    CommunicationLayout(p.communication);
    BluetoothLayout(p.bluetooth);
    AlarmLayout(p.alarm);
    DisplayLayout(p.display);
    BatteryLayout(p.battery);
    SystemLayout(p.system);
    RuntimeLayout(runtime);
    hide Encode, Size, Fits, LegacyFields, CalibrationFields, StabilityFields, CommunicationFields, BluetoothFields,
      AlarmFields, DisplayFields, BatteryFields, SystemFields, RuntimeFields;
    SectionsInPlace(
      Encode(LegacyFields(p.metrology.legacy)), Encode(CalibrationFields(p.calibration)),
      Encode(StabilityFields(p.stability)), Encode(CommunicationFields(p.communication)),
      Encode(BluetoothFields(p.bluetooth)), Encode(AlarmFields(p.alarm)), Encode(DisplayFields(p.display)),
      Encode(BatteryFields(p.battery)), Encode(SystemFields(p.system)), Encode(RuntimeFields(runtime)),
      [0, 28, 53, 67, 84, 96, 113, 121, 150, 158, 164]);
  }

  lemma Sections2(c: DeviceConfig, r: RuntimeState)
    ensures var v := V2Bytes(c, r);
      && |v| == 180
      && Has(v, 0, Encode(MetrologyFields(c.metrology))) && Has(v, 47, Encode(UnitDisplayFields(c.metrology.kg)))
      && Has(v, 53, Encode(UnitDisplayFields(c.metrology.g))) && Has(v, 59, Encode(UnitDisplayFields(c.metrology.lb)))
      && Has(v, 65, Encode(LoadCellFields(c.metrology.load_cell)))
      && Has(v, 82, Encode(ProfileFields(c.metrology.high_precision)))
      && Has(v, 107, Encode(ProfileFields(c.metrology.high_speed))) && Has(v, 132, Encode(SpanFields(c)))
      && Has(v, 141, Encode(LinkFields(c.communication))) && Has(v, 148, Encode(MassLimitFields(c.alarm, r)))
  {
    MetrologyLayout(c.metrology);
    UnitDisplayLayout(c.metrology.kg);
    UnitDisplayLayout(c.metrology.g);
    UnitDisplayLayout(c.metrology.lb);
    LoadCellLayout(c.metrology.load_cell);
    ProfileLayout(c.metrology.high_precision);
    ProfileLayout(c.metrology.high_speed);
    SpanLayout(c);
    LinkLayout(c.communication);
    MassLimitLayout(c.alarm, r);
    hide Encode, Size, Fits, MetrologyFields, UnitDisplayFields, LoadCellFields, ProfileFields, SpanFields,
      LinkFields, MassLimitFields;
    SectionsInPlace(
      Encode(MetrologyFields(c.metrology)), Encode(UnitDisplayFields(c.metrology.kg)),
      Encode(UnitDisplayFields(c.metrology.g)), Encode(UnitDisplayFields(c.metrology.lb)),
      Encode(LoadCellFields(c.metrology.load_cell)), Encode(ProfileFields(c.metrology.high_precision)),
      Encode(ProfileFields(c.metrology.high_speed)), Encode(SpanFields(c)), Encode(LinkFields(c.communication)),
      Encode(MassLimitFields(c.alarm, r)),
      [0, 47, 53, 59, 65, 82, 107, 132, 141, 148, 180]);
  }

  lemma Behind(v: Bytes, w: Bytes, at: nat, section: Bytes)
    requires Has(w, at, section)
    ensures Has(v + w, |v| + at, section)
  {
    assert (v + w)[|v| + at..|v| + at + |section|] == w[at..at + |section|];
  }

  lemma Before(v: Bytes, w: Bytes, at: nat, section: Bytes)
    requires Has(v, at, section)
    ensures Has(v + w, at, section)
  {
    assert (v + w)[at..at + |section|] == v[at..at + |section|];
  }

  lemma Schema1Lies(p: DeviceConfig, runtime: RuntimeState, w: Bytes)
    ensures Schema1At(V1Bytes(p, runtime) + w, p, runtime)
  {
    Sections1(p, runtime);
    hide Encode, Has, V1Bytes, LegacyAt, CalibrationAt, StabilityAt, CommunicationAt, BluetoothAt, AlarmAt, DisplayAt,
      BatteryAt, SystemAt, RuntimeAt;
    var v := V1Bytes(p, runtime);
    var b := v + w;
    Before(v, w, 0, Encode(LegacyFields(p.metrology.legacy)));
    LegacyLies(b, 0, p.metrology.legacy);
    Before(v, w, 28, Encode(CalibrationFields(p.calibration)));
    CalibrationLies(b, 28, p.calibration);
    Before(v, w, 53, Encode(StabilityFields(p.stability)));
    StabilityLies(b, 53, p.stability);
    Before(v, w, 67, Encode(CommunicationFields(p.communication)));
    CommunicationLies(b, 67, p.communication);
    Before(v, w, 84, Encode(BluetoothFields(p.bluetooth)));
    BluetoothLies(b, 84, p.bluetooth);
    Before(v, w, 96, Encode(AlarmFields(p.alarm)));
    AlarmLies(b, 96, p.alarm);
    Before(v, w, 113, Encode(DisplayFields(p.display)));
    DisplayLies(b, 113, p.display);
    Before(v, w, 121, Encode(BatteryFields(p.battery)));
    BatteryLies(b, 121, p.battery);
    Before(v, w, 150, Encode(SystemFields(p.system)));
    SystemLies(b, 150, p.system);
    Before(v, w, 158, Encode(RuntimeFields(runtime)));
    RuntimeLies(b, 158, runtime);
  }

  lemma Schema2Lies(v: Bytes, c: DeviceConfig, r: RuntimeState)
    requires |v| == 164
    ensures Schema2At(v + V2Bytes(c, r), c, r)
  {
    Sections2(c, r);
    hide Encode, Has, V2Bytes, MetrologyAt, UnitDisplayAt, LoadCellAt, ProfileAt, SpanAt, LinkAt, MassLimitAt;
    var w := V2Bytes(c, r);
    var b := v + w;
    Behind(v, w, 0, Encode(MetrologyFields(c.metrology)));
    MetrologyLies(b, 164, c.metrology);
    Behind(v, w, 47, Encode(UnitDisplayFields(c.metrology.kg)));
    UnitDisplayLies(b, 211, c.metrology.kg);
    Behind(v, w, 53, Encode(UnitDisplayFields(c.metrology.g)));
    UnitDisplayLies(b, 217, c.metrology.g);
    Behind(v, w, 59, Encode(UnitDisplayFields(c.metrology.lb)));
    UnitDisplayLies(b, 223, c.metrology.lb);
    Behind(v, w, 65, Encode(LoadCellFields(c.metrology.load_cell)));
    LoadCellLies(b, 229, c.metrology.load_cell);
    Behind(v, w, 82, Encode(ProfileFields(c.metrology.high_precision)));
    ProfileLies(b, 246, c.metrology.high_precision);
    Behind(v, w, 107, Encode(ProfileFields(c.metrology.high_speed)));
    ProfileLies(b, 271, c.metrology.high_speed);
    Behind(v, w, 132, Encode(SpanFields(c)));
    SpanLies(b, 296, c);
    Behind(v, w, 141, Encode(LinkFields(c.communication)));
    LinkLies(b, 305, c.communication);
    Behind(v, w, 148, Encode(MassLimitFields(c.alarm, r)));
    MassLimitLies(b, 312, c.alarm, r);
  }

  // What the encoder accepts it stores at these places: the projected legacy
  // fields of schema 1 first, then the canonical ones.
  lemma EncodedLayout(c: DeviceConfig, r: RuntimeState, capacity: nat) returns (p: DeviceConfig, runtime: RuntimeState)
    requires EncodeV2(c, r, capacity).Payload?
    ensures ProjectConfig(c) == Some(p) && p.metrology.active_unit < MASS_UNIT_COUNT
    ensures var m := p.metrology; ProjectRuntime(r, m.active_unit, m.UnitDisplay(m.active_unit)) == Some(runtime)
    ensures var b := EncodeV2(c, r, capacity).bytes; |b| == 344 && Schema1At(b, p, runtime) && Schema2At(b, c, r)
  {
    hide ProjectRuntime, V1Bytes, V2Bytes, Schema1At, Schema2At;
    EncodesProjected(c, r, capacity);
    hide ProjectConfig;
    p := ProjectConfig(c).value;
    runtime := ProjectRuntime(r, p.metrology.active_unit, p.metrology.UnitDisplay(p.metrology.active_unit)).value;
    EncodeV2Is(c, r, capacity, p, runtime);
    Sections1(p, runtime);
    Sections2(c, r);
    Schema1Lies(p, runtime, V2Bytes(c, r));
    Schema2Lies(V1Bytes(p, runtime), c, r);
  }
}
