// The cursors of Services/config_store/persistent_codec.c: encoding and decoding
// as writes to and reads from a buffer, against PersistentCodec's byte strings.
module CodecCursor {
  import opened FixedWidth
  import opened LittleEndian
  import opened MassMath
  import opened UnitConverter
  import opened Configuration
  import opened LegacyProjection
  import opened PersistentCodec

  lemma {:induction false} EncodeAppend(a: seq<Field>, b: seq<Field>)
    ensures Encode(a + b) == Encode(a) + Encode(b)
  {
    if a == [] {
      assert a + b == b;
    } else {
      assert (a + b)[1..] == a[1..] + b;
      EncodeAppend(a[1..], b);
    }
  }

  lemma EncodeOne(f: Field)
    ensures Encode([f]) == Put(f.value, f.width)
  {
    assert [f][1..] == [];
  }

  // A wide number is written as its low part and then its high part.
  lemma PutPart1(v: nat, high: nat)
    ensures Put(v, 1 + high) == Put(v % 0x100, 1) + Put(v / 0x100, high)
  {
    assert Put(v % 0x100, 1) == [v % 0x100];
  }

  lemma PutPart2(v: nat, high: nat)
    ensures Put(v, 2 + high) == Put(v % 0x1_0000, 2) + Put(v / 0x1_0000, high)
  {
    hide Put;
    LowDigit(v, 0x100);
    PutPart1(v / 0x100, high);
    OneMoreDigit(v, v % 0x1_0000, v / 0x1_0000, 2, high);
  }

  lemma PutPart4(v: nat, high: nat)
    ensures Put(v, 4 + high) == Put(v % 0x1_0000_0000, 4) + Put(v / 0x1_0000_0000, high)
  {
    hide Put;
    LowDigit(v / 0x100, 0x1_0000);
    PutPart2(v / 0x100 / 0x100, high);
    OneMoreDigit(v / 0x100, v / 0x100 % 0x100_0000, v / 0x100 / 0x100_0000, 3, high);
    LowDigit(v, 0x100_0000);
    OneMoreDigit(v, v % 0x1_0000_0000, v / 0x1_0000_0000, 4, high);
  }

  lemma OneMoreDigit(v: nat, a: nat, b: nat, low: nat, high: nat)
    requires low > 0 && a % 0x100 == v % 0x100
    requires Put(v / 0x100, low - 1 + high) == Put(a / 0x100, low - 1) + Put(b, high)
    ensures Put(v, low + high) == Put(a, low) + Put(b, high)
  {
    hide Put;
    PutStep(v, low + high);
    PutStep(a, low);
    var digit, middle, rest := [v % 0x100], Put(a / 0x100, low - 1), Put(b, high);
    assert digit + (middle + rest) == (digit + middle) + rest;
  }

  lemma PutStep(v: nat, width: nat)
    requires width > 0
    ensures Put(v, width) == [v % 0x100] + Put(v / 0x100, width - 1)
  {}

  lemma LowDigit(v: nat, room: nat)
    requires room > 0
    ensures v % (0x100 * room) % 0x100 == v % 0x100
    ensures v % (0x100 * room) / 0x100 == v / 0x100 % room
    ensures v / (0x100 * room) == v / 0x100 / room
  {
    var q: int, b: int := v / 0x100, v % 0x100;
    var hq: int, hr: int := q / room, q % room;
    assert q == hq * room + hr;
    assert hq * (0x100 * room) == 0x100 * (hq * room);
    DivisionIs(v, 0x100 * room, hq, 0x100 * hr + b);
    DivisionIs(0x100 * hr + b, 0x100, hr, b);
  }

  // ---- writing ----------------------------------------------------------------------------------

  class CodecWriter {
    const data: array<u8>
    const capacity: nat
    var position: nat
    var failed: bool
    // Where the cursor started, what lay before it, and the fields written since.
    ghost const before: Bytes
    ghost var fields: seq<Field>

    // While there is room the bytes follow what was there; a write beyond the
    // capacity is remembered.
    ghost predicate Holds(written: Bytes)
      reads this, data
    {
      && position <= capacity <= data.Length
      && (failed <==> |before| + |written| > capacity)
      && (failed ==> position == capacity)
      && (!failed ==> data[..position] == before + written)
    }

    ghost predicate Valid()
      reads this, data
    {
      Holds(Encode(fields))
    }

    constructor (data: array<u8>, capacity: nat, position: nat)
      requires position <= capacity <= data.Length
      ensures Valid() && fields == [] && this.data == data && this.capacity == capacity && this.position == position
      ensures before == data[..position]
    {
      this.data, this.capacity, this.position, failed := data, capacity, position, false;
      before, fields := data[..position], [];
    }

    method PutByte(value: u8, ghost written: Bytes)
      requires Holds(written)
      modifies this`position, this`failed, data
      ensures Holds(written + [value])
    {
      if position >= capacity {
        failed := true;
        return;
      }
      data[position] := value;
      position := position + 1;
    }

    // Low byte, then high byte; and so for the wider ones.
    method PutWord(value: u16, ghost written: Bytes)
      requires Holds(written)
      modifies this`position, this`failed, data
      ensures Holds(written + Put(value, 2))
    {
      PutByte(value % 0x100, written);
      PutByte(value / 0x100, written + [value % 0x100]);
      PutTwo(value);
      assert (written + [value % 0x100]) + [value / 0x100] == written + Put(value, 2);
    }

    method PutDoubleWord(value: u32, ghost written: Bytes)
      requires Holds(written)
      modifies this`position, this`failed, data
      ensures Holds(written + Put(value, 4))
    {
      hide Put;
      PutWord(value % 0x1_0000, written);
      PutWord(value / 0x1_0000, written + Put(value % 0x1_0000, 2));
      PutPart2(value, 2);
      assert (written + Put(value % 0x1_0000, 2)) + Put(value / 0x1_0000, 2) == written + Put(value, 4);
    }

    method PutQuadWord(value: u64, ghost written: Bytes)
      requires Holds(written)
      modifies this`position, this`failed, data
      ensures Holds(written + Put(value, 8))
    {
      hide Put;
      PutDoubleWord(value % 0x1_0000_0000, written);
      PutDoubleWord(value / 0x1_0000_0000, written + Put(value % 0x1_0000_0000, 4));
      PutPart4(value, 4);
      assert (written + Put(value % 0x1_0000_0000, 4)) + Put(value / 0x1_0000_0000, 4) == written + Put(value, 8);
    }

    ghost method Enter(f: Field)
      requires Holds(Encode(fields) + Put(f.value, f.width))
      modifies this`fields
      ensures Valid() && fields == old(fields) + [f]
    {
      EncodeAppend(fields, [f]);
      EncodeOne(f);
      fields := fields + [f];
    }

    method PutU8(value: u8)
      requires Valid()
      modifies this`position, this`failed, this`fields, data
      ensures Valid() && fields == old(fields) + [U8(value)]
    {
      PutByte(value, Encode(fields));
      assert Put(value, 1) == [value];
      Enter(U8(value));
    }

    method PutU16(value: u16)
      requires Valid()
      modifies this`position, this`failed, this`fields, data
      ensures Valid() && fields == old(fields) + [U16(value)]
    {
      hide Put, Encode;
      PutWord(value, Encode(fields));
      Enter(U16(value));
    }

    method PutU32(value: u32)
      requires Valid()
      modifies this`position, this`failed, this`fields, data
      ensures Valid() && fields == old(fields) + [U32(value)]
    {
      hide Put, Encode;
      PutDoubleWord(value, Encode(fields));
      Enter(U32(value));
    }

    // (uint32_t)value and (uint64_t)value of signed numbers.
    method PutI32(value: i32)
      requires Valid()
      modifies this`position, this`failed, this`fields, data
      ensures Valid() && fields == old(fields) + [I32(value)]
    {
      hide Put, Encode;
      PutDoubleWord(value % 0x1_0000_0000, Encode(fields));
      Enter(I32(value));
    }

    method PutI64(value: i64)
      requires Valid()
      modifies this`position, this`failed, this`fields, data
      ensures Valid() && fields == old(fields) + [I64(value)]
    {
      hide Put, Encode;
      PutQuadWord(value % 0x1_0000_0000_0000_0000, Encode(fields));
      Enter(I64(value));
    }

    method PutBool(value: bool)
      requires Valid()
      modifies this`position, this`failed, this`fields, data
      ensures Valid() && fields == old(fields) + [Flag(value)]
    {
      PutByte(if value then 1 else 0, Encode(fields));
      assert Put(if value then 1 else 0, 1) == [if value then 1 else 0];
      Enter(Flag(value));
    }

    method PutReserved(count: nat)
      requires Valid()
      modifies this`position, this`failed, this`fields, data
      ensures Valid() && fields == old(fields) + seq(count, _ => RESERVED)
    {
      hide Encode, Holds, Valid;
      for index := 0 to count
        invariant Valid() && fields == old(fields) + seq(index, _ => RESERVED)
      {
        PutU8(0);
        assert seq(index + 1, _ => RESERVED) == seq(index, _ => RESERVED) + [RESERVED];
      }
    }

    // ---- the sections of schema 1 ------------------------------------------------------------

    method PutLegacy(m: LegacyMetrology)
      requires Valid()
      modifies this`position, this`failed, this`fields, data
      ensures Valid() && fields == old(fields) + LegacyFields(m)
    {
      hide Encode, Holds, Valid;
      PutLegacyInput(m);
      PutLegacyLimits(m);
      assert LegacyFields(m) == LegacyFields(m)[..7] + LegacyFields(m)[7..];
    }

    method PutLegacyInput(m: LegacyMetrology)
      requires Valid()
      modifies this`position, this`failed, this`fields, data
      ensures Valid() && fields == old(fields) + LegacyFields(m)[..7]
    {
      hide Encode, Holds, Valid;
      PutU32(m.capacity);
      PutU32(m.division);
      PutU8(m.decimal_places);
      PutU8(m.unit);
      PutU8(m.sample_mode);
      PutU8(m.cs1237_gain);
      PutU8(m.cs1237_data_rate);
    }

    method PutLegacyLimits(m: LegacyMetrology)
      requires Valid()
      modifies this`position, this`failed, this`fields, data
      ensures Valid() && fields == old(fields) + LegacyFields(m)[7..]
    {
      hide Encode, Holds, Valid;
      PutU8(m.filter_mode);
      PutU8(m.filter_strength);
      PutU32(m.zero_range);
      PutU32(m.overload_threshold);
      PutBool(m.auto_zero_tracking_enable);
      PutU32(m.auto_zero_tracking_range);
    }

    method PutCalibration(c: CalibrationConfig)
      requires Valid()
      modifies this`position, this`failed, this`fields, data
      ensures Valid() && fields == old(fields) + CalibrationFields(c)
    {
      hide Encode, Holds, Valid;
      PutI32(c.raw_zero);
      PutI32(c.raw_span);
      PutU32(c.span_weight);
      PutI32(c.scale_numerator);
      PutI32(c.scale_denominator);
      PutU32(c.calibration_sequence);
      PutBool(c.calibration_valid);
    }

    method PutStability(s: StabilityConfig)
      requires Valid()
      modifies this`position, this`failed, this`fields, data
      ensures Valid() && fields == old(fields) + StabilityFields(s)
    {
      hide Encode, Holds, Valid;
      PutU16(s.window_size);
      PutU32(s.enter_threshold);
      PutU32(s.exit_threshold);
      PutU32(s.stable_hold_ms);
    }

    method PutCommunication(c: CommunicationConfig)
      requires Valid()
      modifies this`position, this`failed, this`fields, data
      ensures Valid() && fields == old(fields) + CommunicationFields(c)
    {
      hide Encode, Holds, Valid;
      PutU32(c.baud_rate);
      PutU8(c.parity);
      PutU8(c.stop_bits);
      PutU8(c.modbus_address);
      PutU8(c.protocol_mode);
      PutU8(c.output_policy);
      PutU32(c.output_period_ms);
      PutU32(c.zero_suppress_range);
    }

    method PutBluetooth(b: BluetoothConfig)
      requires Valid()
      modifies this`position, this`failed, this`fields, data
      ensures Valid() && fields == old(fields) + BluetoothFields(b)
    {
      hide Encode, Holds, Valid;
      PutU32(b.uart_baud_rate);
      PutU16(b.protocol_version);
      PutBool(b.w02_configured);
      PutReserved(5);
    }

    method PutAlarm(a: AlarmConfig)
      requires Valid()
      modifies this`position, this`failed, this`fields, data
      ensures Valid() && fields == old(fields) + AlarmFields(a)
    {
      hide Encode, Holds, Valid;
      PutI32(a.lower_limit);
      PutI32(a.upper_limit);
      PutU32(a.hysteresis);
      PutU8(a.weight_source);
      PutBool(a.internal_buzzer_enable);
      PutBool(a.external_buzzer_enable);
      PutBool(a.qualified_beep_enable);
      PutBool(a.limit_function_enable);
    }

    method PutDisplay(d: DisplayConfig)
      requires Valid()
      modifies this`position, this`failed, this`fields, data
      ensures Valid() && fields == old(fields) + DisplayFields(d)
    {
      hide Encode, Holds, Valid;
      PutU8(d.brightness);
      PutU8(d.default_weight_view);
      PutReserved(6);
    }

    method PutBattery(b: BatteryConfig)
      requires Valid()
      modifies this`position, this`failed, this`fields, data
      ensures Valid() && fields == old(fields) + BatteryFields(b)
    {
      hide Encode, Holds, Valid;
      PutU32(b.divider_top_ohm);
      PutU32(b.divider_bottom_ohm);
      PutI32(b.calibration_gain_ppm);
      PutI32(b.calibration_offset_mv);
      PutU32(b.low_warning_mv);
      PutU32(b.critical_low_mv);
      PutU32(b.recovery_mv);
      PutBool(b.low_voltage_alarm_enable);
    }

    method PutSystem(s: SystemConfig)
      requires Valid()
      modifies this`position, this`failed, this`fields, data
      ensures Valid() && fields == old(fields) + SystemFields(s)
    {
      hide Encode, Holds, Valid;
      PutBool(s.tare_power_loss_retention);
      PutBool(s.watchdog_enable);
      PutBool(s.startup_auto_zero_enable);
      PutReserved(5);
    }

    method PutRuntime(r: RuntimeState)
      requires Valid()
      modifies this`position, this`failed, this`fields, data
      ensures Valid() && fields == old(fields) + RuntimeFields(r)
    {
      hide Encode, Holds, Valid;
      PutU8(r.weight_view);
      PutI32(r.current_tare);
      PutBool(r.tare_active);
    }

    // ---- and what schema 2 adds -----------------------------------------------------------------

    method PutMetrology(m: MetrologyConfig)
      requires Valid()
      modifies this`position, this`failed, this`fields, data
      ensures Valid() && fields == old(fields) + MetrologyFields(m)
    {
      hide Encode, Holds, Valid;
      PutI64(m.capacity_ug);
      PutI64(m.verification_interval_e_ug);
      PutI64(m.zero_range_ug);
      PutI64(m.overload_threshold_ug);
      PutI64(m.auto_zero_tracking_range_ug);
      PutU16(m.initial_zero_range_permille);
      PutU16(m.semi_auto_zero_range_permille);
      PutU8(m.compliance_mode);
      PutU8(m.active_unit);
      PutU8(m.enabled_unit_mask);
    }

    method PutUnitDisplay(d: UnitDisplayConfig)
      requires Valid()
      modifies this`position, this`failed, this`fields, data
      ensures Valid() && fields == old(fields) + UnitDisplayFields(d)
    {
      hide Encode, Holds, Valid;
      PutBool(d.enabled);
      PutU8(d.decimal_places);
      PutU32(d.division_digit);
    }

    method PutLoadCell(l: LoadCellMetadata)
      requires Valid()
      modifies this`position, this`failed, this`fields, data
      ensures Valid() && fields == old(fields) + LoadCellFields(l)
    {
      hide Encode, Holds, Valid;
      PutBool(l.rated_capacity_known);
      PutI64(l.rated_capacity_ug);
      PutBool(l.sensitivity_known);
      PutU32(l.sensitivity_uv_per_v);
      PutBool(l.safe_load_known);
      PutU16(l.safe_load_permille);
    }

    method PutProfile(p: WeighingProfileConfig)
      requires Valid()
      modifies this`position, this`failed, this`fields, data
      ensures Valid() && fields == old(fields) + ProfileFields(p)
    {
      hide Encode, Holds, Valid;
      PutU8(p.sample_rate);
      PutU8(p.gain);
      PutU8(p.filter_mode);
      PutU8(p.filter_strength);
      PutU8(p.stability_window);
      PutI64(p.stability_enter_threshold_ug);
      PutI64(p.stability_exit_threshold_ug);
      PutU32(p.stability_hold_ms);
    }

    method PutSpan(c: DeviceConfig)
      requires Valid()
      modifies this`position, this`failed, this`fields, data
      ensures Valid() && fields == old(fields) + SpanFields(c)
    {
      hide Encode, Holds, Valid;
      PutU8(c.metrology.active_profile);
      PutI64(c.calibration.span_mass_ug);
    }

    method PutLink(c: CommunicationConfig)
      requires Valid()
      modifies this`position, this`failed, this`fields, data
      ensures Valid() && fields == old(fields) + LinkFields(c)
    {
      hide Encode, Holds, Valid;
      PutU8(c.word_order);
      PutU16(c.response_delay_ms);
      PutU16(c.recommended_poll_interval_ms);
      PutU8(c.broadcast_write_policy);
      PutBool(c.pending_apply);
    }

    method PutMassLimit(a: AlarmConfig, r: RuntimeState)
      requires Valid()
      modifies this`position, this`failed, this`fields, data
      ensures Valid() && fields == old(fields) + MassLimitFields(a, r)
    {
      hide Encode, Holds, Valid;
      PutI64(a.lower_limit_ug);
      PutI64(a.upper_limit_ug);
      PutI64(a.hysteresis_ug);
      PutI64(r.current_tare_ug);
    }
  }

  // ---- encoding ---------------------------------------------------------------------------------

  function V1Fields(c: DeviceConfig, r: RuntimeState): seq<Field> {
    LegacyFields(c.metrology.legacy) + CalibrationFields(c.calibration) + StabilityFields(c.stability)
    + CommunicationFields(c.communication) + BluetoothFields(c.bluetooth) + AlarmFields(c.alarm)
    + DisplayFields(c.display)
    + BatteryFields(c.battery) + SystemFields(c.system) + RuntimeFields(r)
  }

  function V2Fields(c: DeviceConfig, r: RuntimeState): seq<Field> {
    MetrologyFields(c.metrology) + UnitDisplayFields(c.metrology.kg) + UnitDisplayFields(c.metrology.g)
    + UnitDisplayFields(c.metrology.lb) + LoadCellFields(c.metrology.load_cell)
    + ProfileFields(c.metrology.high_precision)
    + ProfileFields(c.metrology.high_speed) + SpanFields(c) + LinkFields(c.communication) + MassLimitFields(c.alarm, r)
  }

  lemma TenSections(a: seq<Field>, b: seq<Field>, c: seq<Field>, d: seq<Field>, e: seq<Field>, f: seq<Field>,
                    g: seq<Field>,
                    h: seq<Field>, i: seq<Field>, j: seq<Field>)
    ensures Encode(a + b + c + d + e + f + g + h + i + j)
         == Encode(a) + Encode(b) + Encode(c) + Encode(d) + Encode(e) + Encode(f) + Encode(g) + Encode(h) + Encode(i)
            + Encode(j)
  {
    hide Encode;
    EncodeAppend(a, b);
    EncodeAppend(a + b, c);
    EncodeAppend(a + b + c, d);
    EncodeAppend(a + b + c + d, e);
    EncodeAppend(a + b + c + d + e, f);
    EncodeAppend(a + b + c + d + e + f, g);
    EncodeAppend(a + b + c + d + e + f + g, h);
    EncodeAppend(a + b + c + d + e + f + g + h, i);
    EncodeAppend(a + b + c + d + e + f + g + h + i, j);
  }

  lemma V1FieldsEncode(c: DeviceConfig, r: RuntimeState)
    ensures Encode(V1Fields(c, r)) == V1Bytes(c, r) && |V1Bytes(c, r)| == V1_PAYLOAD_SIZE
  {
    hide Encode, ReadV1, LegacyFields, CalibrationFields, StabilityFields, CommunicationFields, BluetoothFields,
      AlarmFields,
      DisplayFields, BatteryFields, SystemFields, RuntimeFields;
    V1ReadsBack(c, r);
    TenSections(
      LegacyFields(c.metrology.legacy), CalibrationFields(c.calibration), StabilityFields(c.stability),
      CommunicationFields(c.communication), BluetoothFields(c.bluetooth), AlarmFields(c.alarm),
      DisplayFields(c.display),
      BatteryFields(c.battery), SystemFields(c.system), RuntimeFields(r));
  }

  lemma V2FieldsEncode(c: DeviceConfig, r: RuntimeState)
    ensures Encode(V2Fields(c, r)) == V2Bytes(c, r) && |V2Bytes(c, r)| == V2_PAYLOAD_SIZE - V1_PAYLOAD_SIZE
  {
    hide Encode, ReadV2, MetrologyFields, UnitDisplayFields, LoadCellFields, ProfileFields, SpanFields, LinkFields,
      MassLimitFields;
    V2ReadsBack(c, r, c, r);
    TenSections(
      MetrologyFields(c.metrology), UnitDisplayFields(c.metrology.kg), UnitDisplayFields(c.metrology.g),
      UnitDisplayFields(c.metrology.lb), LoadCellFields(c.metrology.load_cell),
      ProfileFields(c.metrology.high_precision),
      ProfileFields(c.metrology.high_speed), SpanFields(c), LinkFields(c.communication), MassLimitFields(c.alarm, r));
  }

  method PutV1(w: CodecWriter, c: DeviceConfig, r: RuntimeState)
    requires w.Valid() && w.fields == []
    modifies w, w.data
    ensures w.Valid() && w.fields == V1Fields(c, r)
  {
    hide *;
    w.PutLegacy(c.metrology.legacy);
    w.PutCalibration(c.calibration);
    w.PutStability(c.stability);
    w.PutCommunication(c.communication);
    w.PutBluetooth(c.bluetooth);
    w.PutAlarm(c.alarm);
    w.PutDisplay(c.display);
    w.PutBattery(c.battery);
    w.PutSystem(c.system);
    w.PutRuntime(r);
    V1FieldsAre(c, r);
  }

  // The three displays and both profiles are loops in the source.
  method PutV2(w: CodecWriter, c: DeviceConfig, r: RuntimeState)
    requires w.Valid() && w.fields == []
    modifies w, w.data
    ensures w.Valid() && w.fields == V2Fields(c, r)
  {
    hide *;
    w.PutMetrology(c.metrology);
    w.PutUnitDisplay(c.metrology.kg);
    w.PutUnitDisplay(c.metrology.g);
    w.PutUnitDisplay(c.metrology.lb);
    w.PutLoadCell(c.metrology.load_cell);
    w.PutProfile(c.metrology.high_precision);
    w.PutProfile(c.metrology.high_speed);
    w.PutSpan(c);
    w.PutLink(c.communication);
    w.PutMassLimit(c.alarm, r);
    V2FieldsAre(c, r);
  }

  lemma V1FieldsAre(c: DeviceConfig, r: RuntimeState)
    ensures [] + LegacyFields(c.metrology.legacy) + CalibrationFields(c.calibration) + StabilityFields(c.stability)
            + CommunicationFields(c.communication) + BluetoothFields(c.bluetooth) + AlarmFields(c.alarm)
            + DisplayFields(c.display) + BatteryFields(c.battery) + SystemFields(c.system) + RuntimeFields(r)
         == V1Fields(c, r)
  {
    assert [] + LegacyFields(c.metrology.legacy) == LegacyFields(c.metrology.legacy);
  }

  lemma V2FieldsAre(c: DeviceConfig, r: RuntimeState)
    ensures [] + MetrologyFields(c.metrology) + UnitDisplayFields(c.metrology.kg) + UnitDisplayFields(c.metrology.g)
            + UnitDisplayFields(c.metrology.lb) + LoadCellFields(c.metrology.load_cell)
            + ProfileFields(c.metrology.high_precision) + ProfileFields(c.metrology.high_speed) + SpanFields(c)
            + LinkFields(c.communication) + MassLimitFields(c.alarm, r)
         == V2Fields(c, r)
  {
    assert [] + MetrologyFields(c.metrology) == MetrologyFields(c.metrology);
  }

  // The payload in the buffer, or why there is none.
  ghost predicate Stored(buffer: Bytes, length: nat, failure: Option<CodecError>, encoded: Encoded) {
    match encoded
    case Payload(bytes) => failure == None && length == |bytes| <= |buffer| && buffer[..length] == bytes
    case EncodeError(error) => failure == Some(error) && length == 0
  }

  method EncodeV1Into(c: DeviceConfig, r: RuntimeState, buffer: array<u8>, capacity: nat)
    returns (failure: Option<CodecError>, length: nat)
    requires capacity <= buffer.Length
    modifies buffer
    ensures Stored(buffer[..], length, failure, EncodeV1(c, r, capacity))
  {
    hide Encode, V1Fields, V1Bytes, ConfigValid, LegacyV1Valid;
    if capacity < V1_PAYLOAD_SIZE { return Some(BufferTooSmall), 0; }
    if !ConfigValid(c) || !LegacyV1Valid(c.metrology.legacy, c.stability) || r.weight_view >= WEIGHT_VIEW_COUNT {
      return Some(ValidationFailed), 0;
    }
    var w := new CodecWriter(buffer, capacity, 0);
    EncodeNothing();
    PutV1(w, c, r);
    V1FieldsEncode(c, r);
    failure, length := Some(BufferTooSmall), 0;
    if !w.failed && w.position == V1_PAYLOAD_SIZE { failure, length := None, w.position; }
  }

  // A schema 1 record of the projected configuration, and the new fields behind it.
  method EncodeV2Into(c: DeviceConfig, r: RuntimeState, buffer: array<u8>, capacity: nat)
    returns (failure: Option<CodecError>, length: nat)
    requires capacity <= buffer.Length
    modifies buffer
    ensures Stored(buffer[..], length, failure, EncodeV2(c, r, capacity))
  {
    hide Encode, V2Fields, V2Bytes, EncodeV1, ProjectConfig, ProjectRuntime;
    if capacity < V2_PAYLOAD_SIZE { return Some(BufferTooSmall), 0; }
    var compatibility := ProjectConfig(c);
    if compatibility.None? { return Some(ValidationFailed), 0; }
    var p := compatibility.value;
    ProjectedUnit(c);
    var runtime := ProjectRuntime(r, p.metrology.active_unit, p.metrology.UnitDisplay(p.metrology.active_unit));
    if runtime.None? { return Some(ValidationFailed), 0; }
    failure, length := EncodeV1Into(p, runtime.value, buffer, capacity);
    if failure.Some? { return failure, 0; }
    V1Length(p, runtime.value, capacity);
    var w := new CodecWriter(buffer, capacity, length);
    EncodeNothing();
    PutV2(w, c, r);
    V2FieldsEncode(c, r);
    failure, length := Some(BufferTooSmall), 0;
    if !w.failed && w.position == V2_PAYLOAD_SIZE { failure, length := None, w.position; }
  }

  lemma EncodeNothing()
    ensures Encode([]) == []
  {}

  lemma V1Length(c: DeviceConfig, r: RuntimeState, capacity: nat)
    ensures EncodeV1(c, r, capacity).Payload? ==> |EncodeV1(c, r, capacity).bytes| == V1_PAYLOAD_SIZE
  {
    hide V1Bytes, V1Encodable;
    V1FieldsEncode(c, r);
  }

  // ---- reading ------------------------------------------------------------------------------------

  lemma {:induction false} SizeAppend(a: seq<nat>, b: seq<nat>)
    ensures Size(a + b) == Size(a) + Size(b)
  {
    if a == [] {
      assert a + b == b;
    } else {
      assert (a + b)[1..] == a[1..] + b;
      SizeAppend(a[1..], b);
    }
  }

  lemma {:induction false} ParseAppend(widths: seq<nat>, w: nat, b: Bytes, c: Bytes)
    requires |b| == Size(widths) && |c| == w
    ensures Size(widths + [w]) == Size(widths) + w
    ensures Parse(widths + [w], b + c) == Parse(widths, b) + [Get(c)]
  {
    if widths == [] {
      assert widths + [w] == [w] && b + c == c && c[..w] == c;
      assert Parse([w], c) == [Get(c)] + Parse([], c[w..]);
    } else {
      var v := widths[0];
      assert (widths + [w])[1..] == widths[1..] + [w];
      assert (b + c)[..v] == b[..v] && (b + c)[v..] == b[v..] + c;
      ParseAppend(widths[1..], w, b[v..], c);
    }
  }

  class CodecReader {
    const data: Bytes
    var position: nat
    var failed: bool
    // The fields read since `begun`, up to `reached`; a reserved byte that is
    // not zero ends its section, and the cursor stays behind.
    ghost var begun: nat
    ghost var reached: nat
    ghost var widths: seq<nat>
    ghost var seen: seq<nat>

    ghost predicate Valid()
      reads this
    {
      position <= |data| && !failed
    }

    ghost predicate Tracked()
      reads this
    {
      && Valid() && begun <= position <= reached <= |data| && reached - begun == Size(widths)
      && Parse(widths, data[begun..reached]) == seen
    }

    ghost predicate Tracking()
      reads this
    {
      Tracked() && position == reached
    }

    // Past the section, or behind its end when it is not valid.
    ghost predicate Advanced(from: nat, size: nat, ok: bool)
      reads this
    {
      Valid() && position <= from + size && (ok ==> position == from + size)
    }

    constructor (data: Bytes, position: nat)
      requires position <= |data|
      ensures Valid() && this.data == data && this.position == position
    {
      this.data, this.position, failed := data, position, false;
      begun, reached, widths, seen := position, position, [], [];
    }

    method Begin()
      requires Valid()
      modifies this`begun, this`reached, this`widths, this`seen
      ensures Tracking() && begun == position && widths == [] && seen == []
    {
      begun, reached, widths, seen := position, position, [], [];
    }

    // The next w bytes are entered as a field.
    ghost method Enter(w: nat)
      requires begun <= reached && reached + w <= |data| && reached - begun == Size(widths)
      requires Valid() && begun <= position <= reached + w && Parse(widths, data[begun..reached]) == seen
      modifies this`reached, this`widths, this`seen
      ensures Tracked() && reached == old(reached) + w && widths == old(widths) + [w]
      ensures seen == old(seen) + [Get(data[old(reached)..reached])]
    {
      hide Parse, Size, Get;
      ParseAppend(widths, w, data[begun..reached], data[reached..reached + w]);
      assert data[begun..reached] + data[reached..reached + w] == data[begun..reached + w];
      reached, widths, seen := reached + w, widths + [w], seen + [Get(data[reached..reached + w])];
    }

    // The next n bytes; behind the end of the data there are zeros.
    ghost function Ahead(from: nat, n: nat): (b: Bytes)
      requires from <= |data|
      ensures |b| == n
    {
      if from + n <= |data| then data[from..from + n] else data[from..] + seq(from + n - |data|, _ => 0)
    }

    // The cursor after n bytes, or at the end of the data and failed.
    ghost function Past(from: nat, n: nat): nat { if from + n <= |data| then from + n else |data| }

    lemma AheadSplits(from: nat, n: nat, m: nat)
      requires from <= |data|
      ensures Past(from, n) <= |data| && Past(Past(from, n), m) == Past(from, n + m)
      ensures Ahead(from, n) + Ahead(Past(from, n), m) == Ahead(from, n + m)
    {
      var whole, parts := Ahead(from, n + m), Ahead(from, n) + Ahead(Past(from, n), m);
      forall k | 0 <= k < n + m ensures whole[k] == parts[k] == if from + k < |data| then data[from + k] else 0 {}
    }

    method GetByte() returns (value: u8)
      requires position <= |data|
      modifies this`position, this`failed
      ensures position == Past(old(position), 1) && failed == (old(failed) || old(position) == |data|)
      ensures value == Ahead(old(position), 1)[0]
    {
      if position >= |data| {
        failed := true;
        return 0;
      }
      value := data[position];
      position := position + 1;
    }

    // Low byte, then high byte; and so for the wider ones.
    method GetWord() returns (value: u16)
      requires position <= |data|
      modifies this`position, this`failed
      ensures position == Past(old(position), 2) && failed == (old(failed) || old(position) + 2 > |data|)
      ensures value == Get(Ahead(old(position), 2))
    {
      hide Ahead;
      var low := GetByte();
      AheadSplits(old(position), 1, 1);
      var high := GetByte();
      GetTwo(Ahead(old(position), 2));
      var l: int, h: int := low, high;
      value := l + 0x100 * h;
    }

    method GetDoubleWord() returns (value: u32)
      requires position <= |data|
      modifies this`position, this`failed
      ensures position == Past(old(position), 4) && failed == (old(failed) || old(position) + 4 > |data|)
      ensures value == Get(Ahead(old(position), 4))
    {
      hide Get, Ahead;
      var low := GetWord();
      AheadSplits(old(position), 2, 2);
      GetHalves2(Ahead(old(position), 2), Ahead(position, 2));
      var high := GetWord();
      RoomValues();
      var l: int, h: int := low, high;
      value := l + 0x1_0000 * h;
    }

    method GetQuadWord() returns (value: u64)
      requires position <= |data|
      modifies this`position, this`failed
      ensures position == Past(old(position), 8) && failed == (old(failed) || old(position) + 8 > |data|)
      ensures value == Get(Ahead(old(position), 8))
    {
      hide Get, Ahead;
      var low := GetDoubleWord();
      AheadSplits(old(position), 4, 4);
      GetHalves4(Ahead(old(position), 4), Ahead(position, 4));
      var high := GetDoubleWord();
      RoomValues();
      var l: int, h: int := low, high;
      value := l + 0x1_0000_0000 * h;
    }

    // A flag byte is 0 or 1.
    method GetBool() returns (value: bool, ok: bool)
      requires position <= |data|
      modifies this`position, this`failed
      ensures position == Past(old(position), 1) && failed == (old(failed) || old(position) == |data|)
      ensures ok == (!failed && Ahead(old(position), 1)[0] <= 1) && (ok ==> value == (Ahead(old(position), 1)[0] == 1))
    {
      var encoded := GetByte();
      ok := !failed && encoded <= 1;
      value := encoded != 0;
    }

    // Reserved bytes are 0; the first that is not stops the cursor.
    method GetReserved(count: nat) returns (ok: bool)
      requires position <= |data|
      modifies this`position, this`failed
      ensures ok <==>
                && !old(failed) && old(position) + count <= |data|
                && forall k :: old(position) <= k < old(position) + count ==> data[k] == 0
      ensures !ok && failed ==> old(failed) || (position == |data| < old(position) + count)
      ensures old(position) <= position <= Past(old(position), count)
      ensures (ok ==> position == old(position) + count && !failed)
      ensures !ok && !failed ==>
                && old(position) < position && data[position - 1] != 0
                && forall k :: old(position) <= k < position - 1 ==> data[k] == 0
    {
      for index := 0 to count
        invariant position == Past(old(position), index) && failed == (old(failed) || old(position) + index > |data|)
        invariant forall k :: old(position) <= k < position ==> data[k] == 0
      {
        var value := GetByte();
        if value != 0 { return false; }
      }
      return !failed;
    }

    method GetU8() returns (value: u8)
      requires Tracking() && position < |data|
      modifies this`position, this`failed, this`reached, this`widths, this`seen
      ensures Tracking() && position == old(position) + 1
      ensures widths == old(widths) + [1] && seen == old(seen) + [value]
    {
      value := GetByte();
      GetOne(data[old(position)..position]);
      Enter(1);
    }

    method GetU16() returns (value: u16)
      requires Tracking() && position + 2 <= |data|
      modifies this`position, this`failed, this`reached, this`widths, this`seen
      ensures Tracking() && position == old(position) + 2
      ensures widths == old(widths) + [2] && seen == old(seen) + [value]
    {
      hide Get, Parse, Size;
      value := GetWord();
      Enter(2);
    }

    method GetU32() returns (value: u32)
      requires Tracking() && position + 4 <= |data|
      modifies this`position, this`failed, this`reached, this`widths, this`seen
      ensures Tracking() && position == old(position) + 4
      ensures widths == old(widths) + [4] && seen == old(seen) + [value]
    {
      hide Get, Parse, Size;
      value := GetDoubleWord();
      Enter(4);
    }

    method GetU64() returns (value: u64)
      requires Tracking() && position + 8 <= |data|
      modifies this`position, this`failed, this`reached, this`widths, this`seen
      ensures Tracking() && position == old(position) + 8
      ensures widths == old(widths) + [8] && seen == old(seen) + [value]
    {
      hide Get, Parse, Size;
      value := GetQuadWord();
      Enter(8);
    }

    method GetReservedFields(count: nat) returns (ok: bool)
      requires Tracking() && position + count <= |data|
      modifies this`position, this`failed, this`reached, this`widths, this`seen
      ensures Tracked() && reached == old(reached) + count && (ok ==> position == reached)
      ensures widths == old(widths) + seq(count, _ => 1) && |seen| == |old(seen)| + count && old(seen) <= seen
      ensures ok <==> forall k :: |old(seen)| <= k < |seen| ==> seen[k] == 0
    {
      hide Parse, Size, Get;
      ghost var index := 0;
      while index < count
        invariant 0 <= index <= count && Tracked() && reached == old(reached) + index
        invariant |seen| == |old(seen)| + index && old(seen) <= seen && widths == old(widths) + seq(index, _ => 1)
        invariant forall k :: |old(seen)| <= k < |seen| ==> seen[k] == data[position + (k - |old(seen)|)]
      {
        GetOne(data[reached..reached + 1]);
        Enter(1);
        index := index + 1;
      }
      assert forall j :: position <= j < position + count ==> data[j] == seen[|old(seen)| + (j - position)];
      ok := GetReserved(count);
    }

    method GetFlag() returns (value: bool, ok: bool)
      requires Tracking() && position < |data|
      modifies this`position, this`failed, this`reached, this`widths, this`seen
      ensures Tracking() && position == old(position) + 1 && widths == old(widths) + [1]
      ensures |seen| == |old(seen)| + 1 && seen == old(seen) + [seen[|old(seen)|]]
      ensures ok == (seen[|old(seen)|] <= 1) && (ok ==> value == (seen[|old(seen)|] != 0))
    {
      GetOne(data[position..position + 1]);
      Enter(1);
      value, ok := GetBool();
    }

    method GetLegacy() returns (value: LegacyMetrology, ok: bool)
      requires Valid() && position + 28 <= |data|
      modifies this
      ensures Advanced(old(position), 28, ok)
      ensures ok == LegacyOf(Parse(LEGACY_WIDTHS, data[old(position)..old(position) + 28])).valid
      ensures ok ==> value == LegacyOf(Parse(LEGACY_WIDTHS, data[old(position)..old(position) + 28])).value
    {
      hide Parse, Size;
      Begin();
      var capacity, division, decimal_places, unit, sample_mode, gain, data_rate := GetLegacyInput();
      var mode, strength, zero_range, overload, tracking, valid, range := GetLegacyLimits();
      assert widths == LEGACY_WIDTHS;
      value, ok := LegacyMetrology(capacity, division, decimal_places, unit, sample_mode, gain, data_rate, mode,
                                   strength,
                                   zero_range, overload, tracking, range), valid;
    }

    method GetLegacyInput()
      returns (capacity: u32, division: u32, decimal_places: u8, unit: u8, sample_mode: u8, gain: u8, data_rate: u8)
      requires Tracking() && position + 13 <= |data|
      modifies this`position, this`failed, this`reached, this`widths, this`seen
      ensures Tracking() && position == old(position) + 13 && widths == old(widths) + [4, 4, 1, 1, 1, 1, 1]
      ensures seen == old(seen) + [capacity, division, decimal_places, unit, sample_mode, gain, data_rate]
    {
      hide Parse, Size;
      capacity := GetU32();
      division := GetU32();
      decimal_places := GetU8();
      unit := GetU8();
      sample_mode := GetU8();
      gain := GetU8();
      data_rate := GetU8();
    }

    method GetLegacyLimits()
      returns (mode: u8, strength: u8, zero_range: u32, overload: u32, tracking: bool, valid: bool, range: u32)
      requires Tracking() && position + 15 <= |data|
      modifies this`position, this`failed, this`reached, this`widths, this`seen
      ensures Tracking() && position == old(position) + 15 && widths == old(widths) + [1, 1, 4, 4, 1, 4]
      ensures |seen| == |old(seen)| + 6
      ensures var f := seen[|old(seen)| + 4];
              && seen == old(seen) + [mode, strength, zero_range, overload, f, range]
              && valid == (f <= 1) && (valid ==> tracking == (f != 0))
    {
      hide Parse, Size;
      mode := GetU8();
      strength := GetU8();
      zero_range := GetU32();
      overload := GetU32();
      tracking, valid := GetFlag();
      range := GetU32();
    }

    method GetCalibration() returns (value: CalibrationConfig, ok: bool)
      requires Valid() && position + 25 <= |data|
      modifies this
      ensures Advanced(old(position), 25, ok)
      ensures ok == CalibrationOf(Parse(CALIBRATION_WIDTHS, data[old(position)..old(position) + 25])).valid
      ensures ok ==> value == CalibrationOf(Parse(CALIBRATION_WIDTHS, data[old(position)..old(position) + 25])).value
    {
      hide Parse, Size;
      Begin();
      var v0 := GetU32();
      var v1 := GetU32();
      var v2 := GetU32();
      var v3 := GetU32();
      var v4 := GetU32();
      var v5 := GetU32();
      var v6, ok6 := GetFlag();
      assert widths == CALIBRATION_WIDTHS;
      value, ok := CalibrationConfig(AsI32(v0), AsI32(v1), v2, AsI32(v3), AsI32(v4), v5, v6, 0), ok6;
    }

    method GetStability() returns (value: StabilityConfig, ok: bool)
      requires Valid() && position + 14 <= |data|
      modifies this
      ensures Advanced(old(position), 14, ok)
      ensures ok == StabilityOf(Parse(STABILITY_WIDTHS, data[old(position)..old(position) + 14])).valid
      ensures ok ==> value == StabilityOf(Parse(STABILITY_WIDTHS, data[old(position)..old(position) + 14])).value
    {
      hide Parse, Size;
      Begin();
      var v0 := GetU16();
      var v1 := GetU32();
      var v2 := GetU32();
      var v3 := GetU32();
      assert widths == STABILITY_WIDTHS;
      value, ok := StabilityConfig(v0, v1, v2, v3), true;
    }

    method GetCommunication() returns (value: CommunicationConfig, ok: bool)
      requires Valid() && position + 17 <= |data|
      modifies this
      ensures Advanced(old(position), 17, ok)
      ensures ok == CommunicationOf(Parse(COMMUNICATION_WIDTHS, data[old(position)..old(position) + 17])).valid
      ensures ok ==>
                value == CommunicationOf(Parse(COMMUNICATION_WIDTHS, data[old(position)..old(position) + 17])).value
    {
      hide Parse, Size;
      Begin();
      var v0 := GetU32();
      var v1 := GetU8();
      var v2 := GetU8();
      var v3 := GetU8();
      var v4 := GetU8();
      var v5 := GetU8();
      var v6 := GetU32();
      var v7 := GetU32();
      assert widths == COMMUNICATION_WIDTHS;
      value, ok := DEFAULT_CONFIG.communication.(baud_rate := v0, parity := v1, stop_bits := v2, modbus_address := v3,
          protocol_mode := v4, output_policy := v5, output_period_ms := v6, zero_suppress_range := v7), true;
    }

    method GetBluetooth() returns (value: BluetoothConfig, ok: bool)
      requires Valid() && position + 12 <= |data|
      modifies this
      ensures Advanced(old(position), 12, ok)
      ensures ok == BluetoothOf(Parse(BLUETOOTH_WIDTHS, data[old(position)..old(position) + 12])).valid
      ensures ok ==> value == BluetoothOf(Parse(BLUETOOTH_WIDTHS, data[old(position)..old(position) + 12])).value
    {
      hide Parse, Size;
      Begin();
      var v0 := GetU32();
      var v1 := GetU16();
      var v2, ok2 := GetFlag();
      var reserved := GetReservedFields(5);
      assert widths == BLUETOOTH_WIDTHS;
      value, ok := BluetoothConfig(v0, v1, v2), ok2 && reserved;
    }

    method GetAlarm() returns (value: AlarmConfig, ok: bool)
      requires Valid() && position + 17 <= |data|
      modifies this
      ensures Advanced(old(position), 17, ok)
      ensures ok == AlarmOf(Parse(ALARM_WIDTHS, data[old(position)..old(position) + 17])).valid
      ensures ok ==> value == AlarmOf(Parse(ALARM_WIDTHS, data[old(position)..old(position) + 17])).value
    {
      hide Parse, Size;
      Begin();
      var v0 := GetU32();
      var v1 := GetU32();
      var v2 := GetU32();
      var v3 := GetU8();
      var v4, ok4 := GetFlag();
      var v5, ok5 := GetFlag();
      var v6, ok6 := GetFlag();
      var v7, ok7 := GetFlag();
      assert widths == ALARM_WIDTHS;
      value, ok := AlarmConfig(AsI32(v0), AsI32(v1), v2, v3, v4, v5, v6, v7, 0, 0, 0), ok4 && ok5 && ok6 && ok7;
    }

    method GetDisplay() returns (value: DisplayConfig, ok: bool)
      requires Valid() && position + 8 <= |data|
      modifies this
      ensures Advanced(old(position), 8, ok)
      ensures ok == DisplayOf(Parse(DISPLAY_WIDTHS, data[old(position)..old(position) + 8])).valid
      ensures ok ==> value == DisplayOf(Parse(DISPLAY_WIDTHS, data[old(position)..old(position) + 8])).value
    {
      hide Parse, Size;
      Begin();
      var v0 := GetU8();
      var v1 := GetU8();
      var reserved := GetReservedFields(6);
      assert widths == DISPLAY_WIDTHS;
      value, ok := DisplayConfig(v0, v1), reserved;
    }

    method GetBattery() returns (value: BatteryConfig, ok: bool)
      requires Valid() && position + 29 <= |data|
      modifies this
      ensures Advanced(old(position), 29, ok)
      ensures ok == BatteryOf(Parse(BATTERY_WIDTHS, data[old(position)..old(position) + 29])).valid
      ensures ok ==> value == BatteryOf(Parse(BATTERY_WIDTHS, data[old(position)..old(position) + 29])).value
    {
      hide Parse, Size;
      Begin();
      var v0 := GetU32();
      var v1 := GetU32();
      var v2 := GetU32();
      var v3 := GetU32();
      var v4 := GetU32();
      var v5 := GetU32();
      var v6 := GetU32();
      var v7, ok7 := GetFlag();
      assert widths == BATTERY_WIDTHS;
      value, ok := BatteryConfig(v0, v1, AsI32(v2), AsI32(v3), v4, v5, v6, v7), ok7;
    }

    method GetSystem() returns (value: SystemConfig, ok: bool)
      requires Valid() && position + 8 <= |data|
      modifies this
      ensures Advanced(old(position), 8, ok)
      ensures ok == SystemOf(Parse(SYSTEM_WIDTHS, data[old(position)..old(position) + 8])).valid
      ensures ok ==> value == SystemOf(Parse(SYSTEM_WIDTHS, data[old(position)..old(position) + 8])).value
    {
      hide Parse, Size;
      Begin();
      var v0, ok0 := GetFlag();
      var v1, ok1 := GetFlag();
      var v2, ok2 := GetFlag();
      var reserved := GetReservedFields(5);
      assert widths == SYSTEM_WIDTHS;
      value, ok := SystemConfig(v0, v1, v2), ok0 && ok1 && ok2 && reserved;
    }

    method GetRuntime() returns (value: RuntimeState, ok: bool)
      requires Valid() && position + 6 <= |data|
      modifies this
      ensures Advanced(old(position), 6, ok)
      ensures ok == RuntimeOf(Parse(RUNTIME_WIDTHS, data[old(position)..old(position) + 6])).valid
      ensures ok ==> value == RuntimeOf(Parse(RUNTIME_WIDTHS, data[old(position)..old(position) + 6])).value
    {
      hide Parse, Size;
      Begin();
      var v0 := GetU8();
      var v1 := GetU32();
      var v2, ok2 := GetFlag();
      assert widths == RUNTIME_WIDTHS;
      value, ok := RuntimeState(v0, AsI32(v1), 0, v2, false, 0, false), ok2;
    }

    method GetMetrology(base: MetrologyConfig) returns (value: MetrologyConfig, ok: bool)
      requires Valid() && position + 47 <= |data|
      modifies this
      ensures Advanced(old(position), 47, ok)
      ensures ok == MetrologyOf(Parse(METROLOGY_WIDTHS, data[old(position)..old(position) + 47]), base).valid
      ensures ok ==> value == MetrologyOf(Parse(METROLOGY_WIDTHS, data[old(position)..old(position) + 47]), base).value
    {
      hide Parse, Size;
      Begin();
      var v0, v1, v2, v3, v4 := GetMasses();
      var v5 := GetU16();
      var v6 := GetU16();
      var v7 := GetU8();
      var v8 := GetU8();
      var v9 := GetU8();
      assert widths == METROLOGY_WIDTHS;
      value, ok := base.(
      capacity_ug := AsI64(v0), verification_interval_e_ug := AsI64(v1), zero_range_ug := AsI64(v2),
      overload_threshold_ug := AsI64(v3), auto_zero_tracking_range_ug := AsI64(v4), initial_zero_range_permille := v5,
      semi_auto_zero_range_permille := v6, compliance_mode := v7, active_unit := v8, enabled_unit_mask := v9), true;
    }

    method GetMasses() returns (v0: u64, v1: u64, v2: u64, v3: u64, v4: u64)
      requires Tracking() && position + 40 <= |data|
      modifies this`position, this`failed, this`reached, this`widths, this`seen
      ensures Tracking() && position == old(position) + 40 && widths == old(widths) + [8, 8, 8, 8, 8]
      ensures seen == old(seen) + [v0, v1, v2, v3, v4]
    {
      hide Parse, Size;
      v0 := GetU64();
      v1 := GetU64();
      v2 := GetU64();
      v3 := GetU64();
      v4 := GetU64();
    }

    method GetUnitDisplay() returns (value: UnitDisplayConfig, ok: bool)
      requires Valid() && position + 6 <= |data|
      modifies this
      ensures Advanced(old(position), 6, ok)
      ensures ok == UnitDisplayOf(Parse(UNIT_DISPLAY_WIDTHS, data[old(position)..old(position) + 6])).valid
      ensures ok ==> value == UnitDisplayOf(Parse(UNIT_DISPLAY_WIDTHS, data[old(position)..old(position) + 6])).value
    {
      hide Parse, Size;
      Begin();
      var v0, ok0 := GetFlag();
      var v1 := GetU8();
      var v2 := GetU32();
      assert widths == UNIT_DISPLAY_WIDTHS;
      value, ok := UnitDisplayConfig(v0, v1, AsU8(v2)), ok0;
    }

    method GetLoadCell() returns (value: LoadCellMetadata, ok: bool)
      requires Valid() && position + 17 <= |data|
      modifies this
      ensures Advanced(old(position), 17, ok)
      ensures ok == LoadCellOf(Parse(LOAD_CELL_WIDTHS, data[old(position)..old(position) + 17])).valid
      ensures ok ==> value == LoadCellOf(Parse(LOAD_CELL_WIDTHS, data[old(position)..old(position) + 17])).value
    {
      hide Parse, Size;
      Begin();
      var v0, ok0 := GetFlag();
      var v1 := GetU64();
      var v2, ok2 := GetFlag();
      var v3 := GetU32();
      var v4, ok4 := GetFlag();
      var v5 := GetU16();
      assert widths == LOAD_CELL_WIDTHS;
      value, ok := LoadCellMetadata(v0, AsI64(v1), v2, v3, v4, v5), ok0 && ok2 && ok4;
    }

    method GetProfile() returns (value: WeighingProfileConfig, ok: bool)
      requires Valid() && position + 25 <= |data|
      modifies this
      ensures Advanced(old(position), 25, ok)
      ensures ok == ProfileOf(Parse(PROFILE_WIDTHS, data[old(position)..old(position) + 25])).valid
      ensures ok ==> value == ProfileOf(Parse(PROFILE_WIDTHS, data[old(position)..old(position) + 25])).value
    {
      hide Parse, Size;
      Begin();
      var v0 := GetU8();
      var v1 := GetU8();
      var v2 := GetU8();
      var v3 := GetU8();
      var v4 := GetU8();
      var v5 := GetU64();
      var v6 := GetU64();
      var v7 := GetU32();
      assert widths == PROFILE_WIDTHS;
      value, ok := WeighingProfileConfig(v0, v1, v2, v3, v4, AsI64(v5), AsI64(v6), v7), true;
    }

    method GetSpan() returns (value: (u8, i64), ok: bool)
      requires Valid() && position + 9 <= |data|
      modifies this
      ensures Advanced(old(position), 9, ok)
      ensures ok == SpanOf(Parse(SPAN_WIDTHS, data[old(position)..old(position) + 9])).valid
      ensures ok ==> value == SpanOf(Parse(SPAN_WIDTHS, data[old(position)..old(position) + 9])).value
    {
      hide Parse, Size;
      Begin();
      var v0 := GetU8();
      var v1 := GetU64();
      assert widths == SPAN_WIDTHS;
      value, ok := (v0, AsI64(v1)), true;
    }

    method GetLink(base: CommunicationConfig) returns (value: CommunicationConfig, ok: bool)
      requires Valid() && position + 7 <= |data|
      modifies this
      ensures Advanced(old(position), 7, ok)
      ensures ok == LinkOf(Parse(LINK_WIDTHS, data[old(position)..old(position) + 7]), base).valid
      ensures ok ==> value == LinkOf(Parse(LINK_WIDTHS, data[old(position)..old(position) + 7]), base).value
    {
      hide Parse, Size;
      Begin();
      var v0 := GetU8();
      var v1 := GetU16();
      var v2 := GetU16();
      var v3 := GetU8();
      var v4, ok4 := GetFlag();
      assert widths == LINK_WIDTHS;
      value, ok := base.(word_order := v0, response_delay_ms := v1, recommended_poll_interval_ms := v2,
                         broadcast_write_policy := v3, pending_apply := v4), ok4;
    }

    method GetMassLimit() returns (value: (i64, i64, i64, i64), ok: bool)
      requires Valid() && position + 32 <= |data|
      modifies this
      ensures Advanced(old(position), 32, ok)
      ensures ok == MassLimitsOf(Parse(MASS_LIMIT_WIDTHS, data[old(position)..old(position) + 32])).valid
      ensures ok ==> value == MassLimitsOf(Parse(MASS_LIMIT_WIDTHS, data[old(position)..old(position) + 32])).value
    {
      hide Parse, Size;
      Begin();
      var v0 := GetU64();
      var v1 := GetU64();
      var v2 := GetU64();
      var v3 := GetU64();
      assert widths == MASS_LIMIT_WIDTHS;
      value, ok := (AsI64(v0), AsI64(v1), AsI64(v2), AsI64(v3)), true;
    }
  }

  // ---- decoding ---------------------------------------------------------------------------------------

  // The schema 1 sections over the default configuration.
  method GetV1(r: CodecReader) returns (c: DeviceConfig, runtime: RuntimeState, valid: bool)
    requires r.Valid() && r.position == 0 && |r.data| == V1_PAYLOAD_SIZE
    modifies r
    ensures r.Valid() && valid == ReadV1(r.data).2
    ensures valid ==> r.position == V1_PAYLOAD_SIZE && c == ReadV1(r.data).0 && runtime == ReadV1(r.data).1
  {
    hide Parse, LegacyOf, CalibrationOf, BluetoothOf, AlarmOf, DisplayOf, BatteryOf, SystemOf, RuntimeOf;
    c := DEFAULT_CONFIG;
    var legacy, v0 := r.GetLegacy();
    var calibration, v1 := r.GetCalibration();
    var stability, _ := r.GetStability();
    var communication, _ := r.GetCommunication();
    var bluetooth, v2 := r.GetBluetooth();
    var alarm, v3 := r.GetAlarm();
    var display, v4 := r.GetDisplay();
    var battery, v5 := r.GetBattery();
    var system, v6 := r.GetSystem();
    var state, v7 := r.GetRuntime();
    c := DeviceConfig(c.metrology.(legacy := legacy), calibration, stability, communication, bluetooth, alarm, display,
                      battery,
                      system);
    runtime, valid := state, v0 && v1 && v2 && v3 && v4 && v5 && v6 && v7;
  }

  // The schema 2 sections over a configuration with the schema 1 ones.
  method GetV2(r: CodecReader, base: DeviceConfig, state: RuntimeState)
    returns (c: DeviceConfig, runtime: RuntimeState, valid: bool)
    requires r.Valid() && r.position == V1_PAYLOAD_SIZE && |r.data| == V2_PAYLOAD_SIZE
    modifies r
    ensures r.Valid() && valid == ReadV2(r.data[V1_PAYLOAD_SIZE..], base, state).2
    ensures var read := ReadV2(r.data[V1_PAYLOAD_SIZE..], base, state);
            valid ==> r.position == V2_PAYLOAD_SIZE && c == read.0 && runtime == read.1
  {
    hide Parse, UnitDisplayOf, LoadCellOf, LinkOf;
    var metrology, _ := r.GetMetrology(base.metrology);
    var kg, v0 := r.GetUnitDisplay();
    var g, v1 := r.GetUnitDisplay();
    var lb, v2 := r.GetUnitDisplay();
    var load_cell, v3 := r.GetLoadCell();
    var high_precision, _ := r.GetProfile();
    var high_speed, _ := r.GetProfile();
    var span, _ := r.GetSpan();
    var link, v4 := r.GetLink(base.communication);
    var limits, _ := r.GetMassLimit();
    SectionSlices(r.data);
    c := base.(
    metrology := metrology.(kg := kg, g := g, lb := lb, load_cell := load_cell, high_precision := high_precision,
    high_speed := high_speed, active_profile := span.0),
    calibration := base.calibration.(span_mass_ug := span.1), communication := link,
    alarm := base.alarm.(lower_limit_ug := limits.0, upper_limit_ug := limits.1, hysteresis_ug := limits.2));
    runtime, valid := state.(current_tare_ug := limits.3), v0 && v1 && v2 && v3 && v4;
  }

  // Offsets behind the schema 1 part.
  lemma SectionSlices(data: Bytes)
    requires |data| == V2_PAYLOAD_SIZE
    ensures var b := data[V1_PAYLOAD_SIZE..];
            && b[0..47] == data[164..211] && b[47..53] == data[211..217] && b[53..59] == data[217..223]
            && b[59..65] == data[223..229] && b[65..82] == data[229..246] && b[82..107] == data[246..271]
            && b[107..132] == data[271..296] && b[132..141] == data[296..305] && b[141..148] == data[305..312]
            && b[148..180] == data[312..344]
  {}

  // What is read is what PersistentCodec.DecodeV2 says of the bytes.
  method DecodeV2From(buffer: Bytes) returns (decoded: Decoded)
    ensures decoded == DecodeV2(buffer)
  {
    hide ReadV1, ReadV2, ConfigValid, CommonValid, RestoreTare;
    if |buffer| != V2_PAYLOAD_SIZE {
      return DecodeError(if |buffer| < V2_PAYLOAD_SIZE then Truncated else InvalidValue);
    }
    var first := new CodecReader(buffer[..V1_PAYLOAD_SIZE], 0);
    var c1, r1, valid1 := GetV1(first);
    if !valid1 { return DecodeError(InvalidValue); }
    if !CommonValid(c1) || r1.weight_view >= WEIGHT_VIEW_COUNT { return DecodeError(ValidationFailed); }
    var second := new CodecReader(buffer, V1_PAYLOAD_SIZE);
    var c2, r2, valid2 := GetV2(second, c1, r1);
    r2 := RestoreTare(c2, r2);
    if !valid2 { return DecodeError(InvalidValue); }
    if !ConfigValid(c2) { return DecodeError(ValidationFailed); }
    return Restored(c2, r2);
  }

  method DecodeV1From(buffer: Bytes) returns (decoded: Decoded)
    ensures decoded == DecodeV1(buffer)
  {
    hide ReadV1, ConfigValid, CommonValid, LegacyV1Valid, Migrate;
    if |buffer| != V1_PAYLOAD_SIZE {
      return DecodeError(if |buffer| < V1_PAYLOAD_SIZE then Truncated else InvalidValue);
    }
    var reader := new CodecReader(buffer, 0);
    var c, r, valid := GetV1(reader);
    if !valid { return DecodeError(InvalidValue); }
    if !CommonValid(c) || r.weight_view >= WEIGHT_VIEW_COUNT { return DecodeError(ValidationFailed); }
    if !LegacyV1Valid(c.metrology.legacy, c.stability) { return DecodeError(ValidationFailed); }
    return Migrate(c, r);
  }

  // A stored configuration, written by one cursor and read by the other.
  method EncodeThenDecode(c: DeviceConfig, r: RuntimeState, buffer: array<u8>) returns (decoded: Decoded)
    requires buffer.Length >= V2_PAYLOAD_SIZE && EncodeV2(c, r, buffer.Length).Payload?
    modifies buffer
    ensures decoded == Restored(AfterRestart(c, r).0, AfterRestart(c, r).1)
  {
    hide EncodeV2, DecodeV2;
    var failure, length := EncodeV2Into(c, r, buffer, buffer.Length);
    RoundTrip(c, r, buffer.Length);
    decoded := DecodeV2From(buffer[..length]);
  }

  lemma GetOne(b: Bytes)
    requires |b| == 1
    ensures Get(b) == b[0]
  {
    assert Get(b[1..]) == 0;
  }

  lemma GetTwo(b: Bytes)
    requires |b| == 2
    ensures var low: int, high: int := b[0], b[1]; Get(b) == low + 0x100 * high
  {
    GetOne(b[1..]);
  }

  lemma GetHalves2(a: Bytes, b: Bytes)
    requires |a| == 2
    ensures Get(a + b) == Get(a) + 0x1_0000 * Get(b)
  {
    assert (a + b)[1..] == a[1..] + b && (a[1..] + b)[1..] == b;
    GetTwo(a);
  }

  lemma GetHalves4(a: Bytes, b: Bytes)
    requires |a| == 4
    ensures Get(a + b) == Get(a) + 0x1_0000_0000 * Get(b)
  {
    hide Get;
    GetHalves2(a[..2], a[2..] + b);
    GetHalves2(a[2..], b);
    GetHalves2(a[..2], a[2..]);
    assert a[..2] + (a[2..] + b) == a + b && a[..2] + a[2..] == a;
  }

  lemma PutTwo(v: u16)
    ensures Put(v, 2) == [v % 0x100, v / 0x100]
  {
    assert Put(v / 0x100, 1) == [v / 0x100 % 0x100];
  }
}
