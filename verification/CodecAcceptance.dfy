// What the decoders of persistent_codec.c accept: a payload that is restored is,
// byte for byte, the encoding of what was read from it.
module CodecAcceptance {
  import opened FixedWidth
  import opened LittleEndian
  import opened Configuration
  import opened PersistentCodec
  import opened CodecLayout

  lemma {:induction false} ParsedFits(widths: seq<nat>, b: Bytes, k: nat)
    requires |b| == Size(widths) && k < |widths|
    ensures Parse(widths, b)[k] < Room(widths[k])
  {
    hide Get, Room;
    ParseSplit(widths, b);
    if k > 0 { ParsedFits(widths[1..], b[widths[0]..], k - 1); }
  }

  // Bytes whose values are those of the fields are the fields' encoding.
  lemma EncodingIs(fs: seq<Field>, widths: seq<nat>, b: Bytes)
    requires |b| == Size(widths) && Widths(fs) == widths && Values(fs) == Parse(widths, b)
    requires forall f :: f in fs ==> Fits(f)
    ensures Encode(fs) == b
  {
    hide Encode, Parse, Fits, Size;
    Written(fs, widths);
    ParseInjective(widths, Encode(fs), b);
  }

  // A number of each width is the value of the field of its type.
  lemma Unsigned(v: nat)
    ensures v < 0x100 ==> U8(AsU8(v)).value == v
    ensures v < 0x1_0000 ==> U16(AsU16(v)).value == v
    ensures v < 0x1_0000_0000 ==> U32(AsU32(v)).value == v
    ensures v <= 1 ==> Flag(v != 0).value == v
  {}

  lemma Signed(v: nat)
    ensures v < 0x1_0000_0000 ==> I32(AsI32(v)).value == v
    ensures v < 0x1_0000_0000_0000_0000 ==> I64(AsI64(v)).value == v
  {}

  lemma FitsByWidth(widths: seq<nat>, b: Bytes)
    requires |b| == Size(widths)
    ensures forall k :: 0 <= k < |widths| ==> Parse(widths, b)[k] < Room(widths[k])
  {
    forall k | 0 <= k < |widths| ensures Parse(widths, b)[k] < Room(widths[k]) { ParsedFits(widths, b, k); }
  }

  // ---- section by section ------------------------------------------------------------------

  lemma LegacyValues(v: seq<nat>)
    requires |v| == 13 && forall k :: 0 <= k < 13 ==> v[k] < Room(LEGACY_WIDTHS[k])
    requires LegacyOf(v).valid
    ensures Values(LegacyFields(LegacyOf(v).value)) == v
  {
    RoomValues();
    hide Room;
    forall k | 0 <= k < 13 ensures Values(LegacyFields(LegacyOf(v).value))[k] == v[k] {
      Unsigned(v[k]);
      Signed(v[k]);
    }
  }

  lemma LegacyAccepted(b: Bytes)
    requires |b| == 28 && LegacyOf(Parse(LEGACY_WIDTHS, b)).valid
    ensures Encode(LegacyFields(LegacyOf(Parse(LEGACY_WIDTHS, b)).value)) == b
  {
    LegacyLayout(LegacyOf(Parse(LEGACY_WIDTHS, b)).value);
    RoomValues();
    hide Get, Room, Parse, Encode, Fits, Size;
    FitsByWidth(LEGACY_WIDTHS, b);
    LegacyValues(Parse(LEGACY_WIDTHS, b));
    EncodingIs(LegacyFields(LegacyOf(Parse(LEGACY_WIDTHS, b)).value), LEGACY_WIDTHS, b);
  }

  lemma CalibrationValues(v: seq<nat>)
    requires |v| == 7 && forall k :: 0 <= k < 7 ==> v[k] < Room(CALIBRATION_WIDTHS[k])
    requires CalibrationOf(v).valid
    ensures Values(CalibrationFields(CalibrationOf(v).value)) == v
  {
    RoomValues();
    hide Room;
    forall k | 0 <= k < 7 ensures Values(CalibrationFields(CalibrationOf(v).value))[k] == v[k] {
      Unsigned(v[k]);
      Signed(v[k]);
    }
  }

  lemma CalibrationAccepted(b: Bytes)
    requires |b| == 25 && CalibrationOf(Parse(CALIBRATION_WIDTHS, b)).valid
    ensures Encode(CalibrationFields(CalibrationOf(Parse(CALIBRATION_WIDTHS, b)).value)) == b
  {
    CalibrationLayout(CalibrationOf(Parse(CALIBRATION_WIDTHS, b)).value);
    RoomValues();
    hide Get, Room, Parse, Encode, Fits, Size;
    FitsByWidth(CALIBRATION_WIDTHS, b);
    CalibrationValues(Parse(CALIBRATION_WIDTHS, b));
    EncodingIs(CalibrationFields(CalibrationOf(Parse(CALIBRATION_WIDTHS, b)).value), CALIBRATION_WIDTHS, b);
  }

  lemma StabilityValues(v: seq<nat>)
    requires |v| == 4 && forall k :: 0 <= k < 4 ==> v[k] < Room(STABILITY_WIDTHS[k])
    requires StabilityOf(v).valid
    ensures Values(StabilityFields(StabilityOf(v).value)) == v
  {
    RoomValues();
    hide Room;
    forall k | 0 <= k < 4 ensures Values(StabilityFields(StabilityOf(v).value))[k] == v[k] {
      Unsigned(v[k]);
      Signed(v[k]);
    }
  }

  lemma StabilityAccepted(b: Bytes)
    requires |b| == 14 && StabilityOf(Parse(STABILITY_WIDTHS, b)).valid
    ensures Encode(StabilityFields(StabilityOf(Parse(STABILITY_WIDTHS, b)).value)) == b
  {
    StabilityLayout(StabilityOf(Parse(STABILITY_WIDTHS, b)).value);
    RoomValues();
    hide Get, Room, Parse, Encode, Fits, Size;
    FitsByWidth(STABILITY_WIDTHS, b);
    StabilityValues(Parse(STABILITY_WIDTHS, b));
    EncodingIs(StabilityFields(StabilityOf(Parse(STABILITY_WIDTHS, b)).value), STABILITY_WIDTHS, b);
  }

  lemma CommunicationValues(v: seq<nat>)
    requires |v| == 8 && forall k :: 0 <= k < 8 ==> v[k] < Room(COMMUNICATION_WIDTHS[k])
    requires CommunicationOf(v).valid
    ensures Values(CommunicationFields(CommunicationOf(v).value)) == v
  {
    RoomValues();
    hide Room;
    forall k | 0 <= k < 8 ensures Values(CommunicationFields(CommunicationOf(v).value))[k] == v[k] {
      Unsigned(v[k]);
      Signed(v[k]);
    }
  }

  lemma CommunicationAccepted(b: Bytes)
    requires |b| == 17 && CommunicationOf(Parse(COMMUNICATION_WIDTHS, b)).valid
    ensures Encode(CommunicationFields(CommunicationOf(Parse(COMMUNICATION_WIDTHS, b)).value)) == b
  {
    CommunicationLayout(CommunicationOf(Parse(COMMUNICATION_WIDTHS, b)).value);
    RoomValues();
    hide Get, Room, Parse, Encode, Fits, Size;
    FitsByWidth(COMMUNICATION_WIDTHS, b);
    CommunicationValues(Parse(COMMUNICATION_WIDTHS, b));
    EncodingIs(CommunicationFields(CommunicationOf(Parse(COMMUNICATION_WIDTHS, b)).value), COMMUNICATION_WIDTHS, b);
  }

  lemma BluetoothValues(v: seq<nat>)
    requires |v| == 8 && forall k :: 0 <= k < 8 ==> v[k] < Room(BLUETOOTH_WIDTHS[k])
    requires BluetoothOf(v).valid
    ensures Values(BluetoothFields(BluetoothOf(v).value)) == v
  {
    RoomValues();
    hide Room;
    forall k | 0 <= k < 8 ensures Values(BluetoothFields(BluetoothOf(v).value))[k] == v[k] {
      Unsigned(v[k]);
      Signed(v[k]);
    }
  }

  lemma BluetoothAccepted(b: Bytes)
    requires |b| == 12 && BluetoothOf(Parse(BLUETOOTH_WIDTHS, b)).valid
    ensures Encode(BluetoothFields(BluetoothOf(Parse(BLUETOOTH_WIDTHS, b)).value)) == b
  {
    BluetoothLayout(BluetoothOf(Parse(BLUETOOTH_WIDTHS, b)).value);
    RoomValues();
    hide Get, Room, Parse, Encode, Fits, Size;
    FitsByWidth(BLUETOOTH_WIDTHS, b);
    BluetoothValues(Parse(BLUETOOTH_WIDTHS, b));
    EncodingIs(BluetoothFields(BluetoothOf(Parse(BLUETOOTH_WIDTHS, b)).value), BLUETOOTH_WIDTHS, b);
  }

  lemma AlarmValues(v: seq<nat>)
    requires |v| == 8 && forall k :: 0 <= k < 8 ==> v[k] < Room(ALARM_WIDTHS[k])
    requires AlarmOf(v).valid
    ensures Values(AlarmFields(AlarmOf(v).value)) == v
  {
    RoomValues();
    hide Room;
    forall k | 0 <= k < 8 ensures Values(AlarmFields(AlarmOf(v).value))[k] == v[k] {
      Unsigned(v[k]);
      Signed(v[k]);
    }
  }

  lemma AlarmAccepted(b: Bytes)
    requires |b| == 17 && AlarmOf(Parse(ALARM_WIDTHS, b)).valid
    ensures Encode(AlarmFields(AlarmOf(Parse(ALARM_WIDTHS, b)).value)) == b
  {
    AlarmLayout(AlarmOf(Parse(ALARM_WIDTHS, b)).value);
    RoomValues();
    hide Get, Room, Parse, Encode, Fits, Size;
    FitsByWidth(ALARM_WIDTHS, b);
    AlarmValues(Parse(ALARM_WIDTHS, b));
    EncodingIs(AlarmFields(AlarmOf(Parse(ALARM_WIDTHS, b)).value), ALARM_WIDTHS, b);
  }

  lemma DisplayValues(v: seq<nat>)
    requires |v| == 8 && forall k :: 0 <= k < 8 ==> v[k] < Room(DISPLAY_WIDTHS[k])
    requires DisplayOf(v).valid
    ensures Values(DisplayFields(DisplayOf(v).value)) == v
  {
    RoomValues();
    hide Room;
    forall k | 0 <= k < 8 ensures Values(DisplayFields(DisplayOf(v).value))[k] == v[k] {
      Unsigned(v[k]);
      Signed(v[k]);
    }
  }

  lemma DisplayAccepted(b: Bytes)
    requires |b| == 8 && DisplayOf(Parse(DISPLAY_WIDTHS, b)).valid
    ensures Encode(DisplayFields(DisplayOf(Parse(DISPLAY_WIDTHS, b)).value)) == b
  {
    DisplayLayout(DisplayOf(Parse(DISPLAY_WIDTHS, b)).value);
    RoomValues();
    hide Get, Room, Parse, Encode, Fits, Size;
    FitsByWidth(DISPLAY_WIDTHS, b);
    DisplayValues(Parse(DISPLAY_WIDTHS, b));
    EncodingIs(DisplayFields(DisplayOf(Parse(DISPLAY_WIDTHS, b)).value), DISPLAY_WIDTHS, b);
  }

  lemma BatteryValues(v: seq<nat>)
    requires |v| == 8 && forall k :: 0 <= k < 8 ==> v[k] < Room(BATTERY_WIDTHS[k])
    requires BatteryOf(v).valid
    ensures Values(BatteryFields(BatteryOf(v).value)) == v
  {
    RoomValues();
    hide Room;
    forall k | 0 <= k < 8 ensures Values(BatteryFields(BatteryOf(v).value))[k] == v[k] {
      Unsigned(v[k]);
      Signed(v[k]);
    }
  }

  lemma BatteryAccepted(b: Bytes)
    requires |b| == 29 && BatteryOf(Parse(BATTERY_WIDTHS, b)).valid
    ensures Encode(BatteryFields(BatteryOf(Parse(BATTERY_WIDTHS, b)).value)) == b
  {
    BatteryLayout(BatteryOf(Parse(BATTERY_WIDTHS, b)).value);
    RoomValues();
    hide Get, Room, Parse, Encode, Fits, Size;
    FitsByWidth(BATTERY_WIDTHS, b);
    BatteryValues(Parse(BATTERY_WIDTHS, b));
    EncodingIs(BatteryFields(BatteryOf(Parse(BATTERY_WIDTHS, b)).value), BATTERY_WIDTHS, b);
  }

  lemma SystemValues(v: seq<nat>)
    requires |v| == 8 && forall k :: 0 <= k < 8 ==> v[k] < Room(SYSTEM_WIDTHS[k])
    requires SystemOf(v).valid
    ensures Values(SystemFields(SystemOf(v).value)) == v
  {
    RoomValues();
    hide Room;
    forall k | 0 <= k < 8 ensures Values(SystemFields(SystemOf(v).value))[k] == v[k] {
      Unsigned(v[k]);
      Signed(v[k]);
    }
  }

  lemma SystemAccepted(b: Bytes)
    requires |b| == 8 && SystemOf(Parse(SYSTEM_WIDTHS, b)).valid
    ensures Encode(SystemFields(SystemOf(Parse(SYSTEM_WIDTHS, b)).value)) == b
  {
    SystemLayout(SystemOf(Parse(SYSTEM_WIDTHS, b)).value);
    RoomValues();
    hide Get, Room, Parse, Encode, Fits, Size;
    FitsByWidth(SYSTEM_WIDTHS, b);
    SystemValues(Parse(SYSTEM_WIDTHS, b));
    EncodingIs(SystemFields(SystemOf(Parse(SYSTEM_WIDTHS, b)).value), SYSTEM_WIDTHS, b);
  }

  lemma RuntimeValues(v: seq<nat>)
    requires |v| == 3 && forall k :: 0 <= k < 3 ==> v[k] < Room(RUNTIME_WIDTHS[k])
    requires RuntimeOf(v).valid
    ensures Values(RuntimeFields(RuntimeOf(v).value)) == v
  {
    RoomValues();
    hide Room;
    forall k | 0 <= k < 3 ensures Values(RuntimeFields(RuntimeOf(v).value))[k] == v[k] {
      Unsigned(v[k]);
      Signed(v[k]);
    }
  }

  lemma RuntimeAccepted(b: Bytes)
    requires |b| == 6 && RuntimeOf(Parse(RUNTIME_WIDTHS, b)).valid
    ensures Encode(RuntimeFields(RuntimeOf(Parse(RUNTIME_WIDTHS, b)).value)) == b
  {
    RuntimeLayout(RuntimeOf(Parse(RUNTIME_WIDTHS, b)).value);
    RoomValues();
    hide Get, Room, Parse, Encode, Fits, Size;
    FitsByWidth(RUNTIME_WIDTHS, b);
    RuntimeValues(Parse(RUNTIME_WIDTHS, b));
    EncodingIs(RuntimeFields(RuntimeOf(Parse(RUNTIME_WIDTHS, b)).value), RUNTIME_WIDTHS, b);
  }

  lemma MetrologyValues(v: seq<nat>, base: MetrologyConfig)
    requires |v| == 10 && forall k :: 0 <= k < 10 ==> v[k] < Room(METROLOGY_WIDTHS[k])
    requires MetrologyOf(v, base).valid
    ensures Values(MetrologyFields(MetrologyOf(v, base).value)) == v
  {
    RoomValues();
    hide Room;
    forall k | 0 <= k < 10 ensures Values(MetrologyFields(MetrologyOf(v, base).value))[k] == v[k] {
      Unsigned(v[k]);
      Signed(v[k]);
    }
  }

  lemma MetrologyAccepted(b: Bytes, base: MetrologyConfig)
    requires |b| == 47 && MetrologyOf(Parse(METROLOGY_WIDTHS, b), base).valid
    ensures Encode(MetrologyFields(MetrologyOf(Parse(METROLOGY_WIDTHS, b), base).value)) == b
  {
    MetrologyLayout(MetrologyOf(Parse(METROLOGY_WIDTHS, b), base).value);
    RoomValues();
    hide Get, Room, Parse, Encode, Fits, Size;
    FitsByWidth(METROLOGY_WIDTHS, b);
    MetrologyValues(Parse(METROLOGY_WIDTHS, b), base);
    EncodingIs(MetrologyFields(MetrologyOf(Parse(METROLOGY_WIDTHS, b), base).value), METROLOGY_WIDTHS, b);
  }

  lemma UnitDisplayValues(v: seq<nat>)
    requires |v| == 3 && forall k :: 0 <= k < 3 ==> v[k] < Room(UNIT_DISPLAY_WIDTHS[k])
    requires UnitDisplayOf(v).valid
    requires v[2] < 0x100
    ensures Values(UnitDisplayFields(UnitDisplayOf(v).value)) == v
  {
    RoomValues();
    hide Room;
    forall k | 0 <= k < 3 ensures Values(UnitDisplayFields(UnitDisplayOf(v).value))[k] == v[k] {
      Unsigned(v[k]);
      Signed(v[k]);
    }
  }

  lemma UnitDisplayAccepted(b: Bytes)
    requires |b| == 6 && UnitDisplayOf(Parse(UNIT_DISPLAY_WIDTHS, b)).valid
    requires Parse(UNIT_DISPLAY_WIDTHS, b)[2] < 0x100
    ensures Encode(UnitDisplayFields(UnitDisplayOf(Parse(UNIT_DISPLAY_WIDTHS, b)).value)) == b
  {
    UnitDisplayLayout(UnitDisplayOf(Parse(UNIT_DISPLAY_WIDTHS, b)).value);
    RoomValues();
    hide Get, Room, Parse, Encode, Fits, Size;
    FitsByWidth(UNIT_DISPLAY_WIDTHS, b);
    UnitDisplayValues(Parse(UNIT_DISPLAY_WIDTHS, b));
    EncodingIs(UnitDisplayFields(UnitDisplayOf(Parse(UNIT_DISPLAY_WIDTHS, b)).value), UNIT_DISPLAY_WIDTHS, b);
  }

  lemma LoadCellValues(v: seq<nat>)
    requires |v| == 6 && forall k :: 0 <= k < 6 ==> v[k] < Room(LOAD_CELL_WIDTHS[k])
    requires LoadCellOf(v).valid
    ensures Values(LoadCellFields(LoadCellOf(v).value)) == v
  {
    RoomValues();
    hide Room;
    forall k | 0 <= k < 6 ensures Values(LoadCellFields(LoadCellOf(v).value))[k] == v[k] {
      Unsigned(v[k]);
      Signed(v[k]);
    }
  }

  lemma LoadCellAccepted(b: Bytes)
    requires |b| == 17 && LoadCellOf(Parse(LOAD_CELL_WIDTHS, b)).valid
    ensures Encode(LoadCellFields(LoadCellOf(Parse(LOAD_CELL_WIDTHS, b)).value)) == b
  {
    LoadCellLayout(LoadCellOf(Parse(LOAD_CELL_WIDTHS, b)).value);
    RoomValues();
    hide Get, Room, Parse, Encode, Fits, Size;
    FitsByWidth(LOAD_CELL_WIDTHS, b);
    LoadCellValues(Parse(LOAD_CELL_WIDTHS, b));
    EncodingIs(LoadCellFields(LoadCellOf(Parse(LOAD_CELL_WIDTHS, b)).value), LOAD_CELL_WIDTHS, b);
  }

  lemma ProfileValues(v: seq<nat>)
    requires |v| == 8 && forall k :: 0 <= k < 8 ==> v[k] < Room(PROFILE_WIDTHS[k])
    requires ProfileOf(v).valid
    ensures Values(ProfileFields(ProfileOf(v).value)) == v
  {
    RoomValues();
    hide Room;
    forall k | 0 <= k < 8 ensures Values(ProfileFields(ProfileOf(v).value))[k] == v[k] {
      Unsigned(v[k]);
      Signed(v[k]);
    }
  }

  lemma ProfileAccepted(b: Bytes)
    requires |b| == 25 && ProfileOf(Parse(PROFILE_WIDTHS, b)).valid
    ensures Encode(ProfileFields(ProfileOf(Parse(PROFILE_WIDTHS, b)).value)) == b
  {
    ProfileLayout(ProfileOf(Parse(PROFILE_WIDTHS, b)).value);
    RoomValues();
    hide Get, Room, Parse, Encode, Fits, Size;
    FitsByWidth(PROFILE_WIDTHS, b);
    ProfileValues(Parse(PROFILE_WIDTHS, b));
    EncodingIs(ProfileFields(ProfileOf(Parse(PROFILE_WIDTHS, b)).value), PROFILE_WIDTHS, b);
  }

  lemma SpanValues(v: seq<nat>, c: DeviceConfig)
    requires |v| == 2 && forall k :: 0 <= k < 2 ==> v[k] < Room(SPAN_WIDTHS[k])
    requires SpanOf(v).value == (c.metrology.active_profile, c.calibration.span_mass_ug)
    ensures Values(SpanFields(c)) == v
  {
    RoomValues();
    hide Room;
    forall k | 0 <= k < 2 ensures Values(SpanFields(c))[k] == v[k] {
      Unsigned(v[k]);
      Signed(v[k]);
    }
  }

  lemma SpanAccepted(b: Bytes, c: DeviceConfig)
    requires |b| == 9 && SpanOf(Parse(SPAN_WIDTHS, b)).value == (c.metrology.active_profile, c.calibration.span_mass_ug)
    ensures Encode(SpanFields(c)) == b
  {
    SpanLayout(c);
    RoomValues();
    hide Get, Room, Parse, Encode, Fits, Size;
    FitsByWidth(SPAN_WIDTHS, b);
    SpanValues(Parse(SPAN_WIDTHS, b), c);
    EncodingIs(SpanFields(c), SPAN_WIDTHS, b);
  }

  lemma LinkValues(v: seq<nat>, base: CommunicationConfig)
    requires |v| == 5 && forall k :: 0 <= k < 5 ==> v[k] < Room(LINK_WIDTHS[k])
    requires LinkOf(v, base).valid
    ensures Values(LinkFields(LinkOf(v, base).value)) == v
  {
    RoomValues();
    hide Room;
    forall k | 0 <= k < 5 ensures Values(LinkFields(LinkOf(v, base).value))[k] == v[k] {
      Unsigned(v[k]);
      Signed(v[k]);
    }
  }

  lemma LinkAccepted(b: Bytes, base: CommunicationConfig)
    requires |b| == 7 && LinkOf(Parse(LINK_WIDTHS, b), base).valid
    ensures Encode(LinkFields(LinkOf(Parse(LINK_WIDTHS, b), base).value)) == b
  {
    LinkLayout(LinkOf(Parse(LINK_WIDTHS, b), base).value);
    RoomValues();
    hide Get, Room, Parse, Encode, Fits, Size;
    FitsByWidth(LINK_WIDTHS, b);
    LinkValues(Parse(LINK_WIDTHS, b), base);
    EncodingIs(LinkFields(LinkOf(Parse(LINK_WIDTHS, b), base).value), LINK_WIDTHS, b);
  }

  lemma MassLimitValues(v: seq<nat>, a: AlarmConfig, r: RuntimeState)
    requires |v| == 4 && forall k :: 0 <= k < 4 ==> v[k] < Room(MASS_LIMIT_WIDTHS[k])
    requires MassLimitsOf(v).value == (a.lower_limit_ug, a.upper_limit_ug, a.hysteresis_ug, r.current_tare_ug)
    ensures Values(MassLimitFields(a, r)) == v
  {
    RoomValues();
    hide Room;
    forall k | 0 <= k < 4 ensures Values(MassLimitFields(a, r))[k] == v[k] {
      Unsigned(v[k]);
      Signed(v[k]);
    }
  }

  lemma MassLimitAccepted(b: Bytes, a: AlarmConfig, r: RuntimeState)
    requires |b| == 32 && MassLimitsOf(Parse(MASS_LIMIT_WIDTHS, b)).value
                          == (a.lower_limit_ug, a.upper_limit_ug, a.hysteresis_ug, r.current_tare_ug)
    ensures Encode(MassLimitFields(a, r)) == b
  {
    MassLimitLayout(a, r);
    RoomValues();
    hide Get, Room, Parse, Encode, Fits, Size;
    FitsByWidth(MASS_LIMIT_WIDTHS, b);
    MassLimitValues(Parse(MASS_LIMIT_WIDTHS, b), a, r);
    EncodingIs(MassLimitFields(a, r), MASS_LIMIT_WIDTHS, b);
  }

  // ---- the whole payload -------------------------------------------------------------------

  lemma Sections164(b: Bytes)
    requires |b| == 164
    ensures b == b[0..28] + b[28..53] + b[53..67] + b[67..84] + b[84..96]
              + b[96..113] + b[113..121] + b[121..150] + b[150..158] + b[158..164]
  {
    assert b[..96] == b[0..28] + b[28..53] + b[53..67] + b[67..84] + b[84..96];
    assert b[96..] == b[96..113] + b[113..121] + b[121..150] + b[150..158] + b[158..164];
  }

  lemma Sections180(b: Bytes)
    requires |b| == 180
    ensures b == b[0..47] + b[47..53] + b[53..59] + b[59..65] + b[65..82]
              + b[82..107] + b[107..132] + b[132..141] + b[141..148] + b[148..180]
  {
    assert b[..82] == b[0..47] + b[47..53] + b[53..59] + b[59..65] + b[65..82];
    assert b[82..] == b[82..107] + b[107..132] + b[132..141] + b[141..148] + b[148..180];
  }

  // What schema 1 reads without complaint is the encoding of what it read.
  lemma ReadThenWritten1(b: Bytes)
    requires |b| == V1_PAYLOAD_SIZE && ReadV1(b).2
    ensures V1Bytes(ReadV1(b).0, ReadV1(b).1) == b
  {
    hide Encode, Parse, LegacyFields, CalibrationFields, StabilityFields, CommunicationFields, BluetoothFields,
      AlarmFields, DisplayFields, BatteryFields, SystemFields, RuntimeFields, LegacyOf, CalibrationOf,
      BluetoothOf, AlarmOf, DisplayOf, BatteryOf, SystemOf, RuntimeOf;
    LegacyAccepted(b[0..28]);
    CalibrationAccepted(b[28..53]);
    StabilityAccepted(b[53..67]);
    CommunicationAccepted(b[67..84]);
    BluetoothAccepted(b[84..96]);
    AlarmAccepted(b[96..113]);
    DisplayAccepted(b[113..121]);
    BatteryAccepted(b[121..150]);
    SystemAccepted(b[150..158]);
    RuntimeAccepted(b[158..164]);
    Sections164(b);
  }

  // The unit displays, whose division digits are cut to one byte.
  lemma UnitsAccepted(b: Bytes, c: DeviceConfig, r: RuntimeState)
    requires |b| == V2_PAYLOAD_SIZE - V1_PAYLOAD_SIZE && ReadV2(b, c, r).2
    requires Get(b[49..53]) < 0x100 && Get(b[55..59]) < 0x100 && Get(b[61..65]) < 0x100
    ensures var m := ReadV2(b, c, r).0.metrology;
      && Encode(UnitDisplayFields(m.kg)) == b[47..53] && Encode(UnitDisplayFields(m.g)) == b[53..59]
      && Encode(UnitDisplayFields(m.lb)) == b[59..65]
  {
    hide Encode, Parse, Get, UnitDisplayFields, MetrologyOf, UnitDisplayOf, LoadCellOf, ProfileOf, LinkOf, SpanOf,
      MassLimitsOf;
    DigitOf(b, 47);
    DigitOf(b, 53);
    DigitOf(b, 59);
    UnitDisplayAccepted(b[47..53]);
    UnitDisplayAccepted(b[53..59]);
    UnitDisplayAccepted(b[59..65]);
  }

  lemma OthersAccepted(b: Bytes, c: DeviceConfig, r: RuntimeState)
    requires |b| == V2_PAYLOAD_SIZE - V1_PAYLOAD_SIZE && ReadV2(b, c, r).2
    ensures var (d, s, _) := ReadV2(b, c, r);
      && Encode(MetrologyFields(d.metrology)) == b[0..47] && Encode(LoadCellFields(d.metrology.load_cell)) == b[65..82]
      && Encode(ProfileFields(d.metrology.high_precision)) == b[82..107]
      && Encode(ProfileFields(d.metrology.high_speed)) == b[107..132] && Encode(SpanFields(d)) == b[132..141]
      && Encode(LinkFields(d.communication)) == b[141..148] && Encode(MassLimitFields(d.alarm, s)) == b[148..180]
  {
    var (d, s, _) := ReadV2(b, c, r);
    hide Encode, Parse, MetrologyFields, LoadCellFields, ProfileFields, SpanFields, LinkFields, MassLimitFields,
      MetrologyOf, UnitDisplayOf, LoadCellOf, ProfileOf, LinkOf, SpanOf, MassLimitsOf;
    MetrologyKept(b[0..47], c.metrology, d.metrology);
    LoadCellAccepted(b[65..82]);
    ProfileAccepted(b[82..107]);
    ProfileAccepted(b[107..132]);
    SpanAccepted(b[132..141], d);
    LinkKept(b[141..148], c.communication, d.communication);
    MassLimitAccepted(b[148..180], d.alarm, s);
  }

  // The same for schema 2.
  lemma ReadThenWritten2(b: Bytes, c: DeviceConfig, r: RuntimeState)
    requires |b| == V2_PAYLOAD_SIZE - V1_PAYLOAD_SIZE && ReadV2(b, c, r).2
    requires Get(b[49..53]) < 0x100 && Get(b[55..59]) < 0x100 && Get(b[61..65]) < 0x100
    ensures V2Bytes(ReadV2(b, c, r).0, ReadV2(b, c, r).1) == b
  {
    UnitsAccepted(b, c, r);
    OthersAccepted(b, c, r);
    hide Encode, Get, MetrologyFields, UnitDisplayFields, LoadCellFields, ProfileFields, SpanFields, LinkFields,
      MassLimitFields, ReadV2;
    Sections180(b);
  }

  lemma DigitOf(b: Bytes, at: nat)
    requires at + 6 <= |b|
    ensures Parse(UNIT_DISPLAY_WIDTHS, b[at..at + 6])[2] == Get(b[at + 2..at + 6])
  {
    UnitParsed(b[at..at + 6]);
    assert b[at..at + 6][2..6] == b[at + 2..at + 6];
  }

  // The other sections of the metrology leave its numbers alone.
  lemma MetrologyKept(b: Bytes, base: MetrologyConfig, m: MetrologyConfig)
    requires |b| == 47
    requires var v := MetrologyOf(Parse(METROLOGY_WIDTHS, b), base).value;
             m == v.(kg := m.kg, g := m.g, lb := m.lb, load_cell := m.load_cell, high_precision := m.high_precision,
                     high_speed := m.high_speed, active_profile := m.active_profile)
    ensures Encode(MetrologyFields(m)) == b
  {
    MetrologyAccepted(b, base);
    hide Encode, Parse, MetrologyOf;
  }

  lemma LinkKept(b: Bytes, base: CommunicationConfig, c: CommunicationConfig)
    requires |b| == 7 && LinkOf(Parse(LINK_WIDTHS, b), base) == Section(c, true)
    ensures Encode(LinkFields(c)) == b
  {
    LinkAccepted(b, base);
  }

  // ---- accepted records ----------------------------------------------------------------------

  // The division digits, little-endian in four bytes each, are below 256.
  predicate DigitsFit(b: Bytes)
    requires |b| == V2_PAYLOAD_SIZE
  {
    Get(b[213..217]) < 0x100 && Get(b[219..223]) < 0x100 && Get(b[225..229]) < 0x100
  }

  // A payload that is restored has every field where the layout puts it, flags of
  // 0 or 1 and reserved bytes of 0, and it is the encoding of what was restored
  // but for the tare, which the retention rule may have cleared.
  lemma RestoredLayout(b: Bytes) returns (r: RuntimeState)
    requires DecodeV2(b).Restored?
    ensures |b| == V2_PAYLOAD_SIZE && DecodeV2(b).runtime == RestoreTare(DecodeV2(b).config, r)
    ensures Schema1At(b, DecodeV2(b).config, r)
    ensures DigitsFit(b) ==>
              && Schema2At(b, DecodeV2(b).config, r)
              && b == V1Bytes(DecodeV2(b).config, r) + V2Bytes(DecodeV2(b).config, r)
  {
    hide ReadV1, ReadV2, Get, RestoreTare, ConfigValid, CommonValid, Schema1At, Schema2At, V1Bytes, V2Bytes;
    var v, w := b[..V1_PAYLOAD_SIZE], b[V1_PAYLOAD_SIZE..];
    assert b == v + w;
    var (c1, r1, _) := ReadV1(v);
    var (c2, r2, _) := ReadV2(w, c1, r1);
    r := r2;
    ReadThenWritten1(v);
    Schema1Kept(w, c1, r1);
    Schema1Lies(c2, r2, w);
    if DigitsFit(b) {
      DigitPlaces(b);
      ReadThenWritten2(w, c1, r1);
      Schema2Lies(v, c2, r2);
    }
  }

  lemma DigitPlaces(b: Bytes)
    requires |b| == V2_PAYLOAD_SIZE
    ensures var w := b[V1_PAYLOAD_SIZE..];
            w[49..53] == b[213..217] && w[55..59] == b[219..223] && w[61..65] == b[225..229]
  {}

  // Reading schema 2 on top keeps every field of schema 1.
  lemma Schema1Kept(w: Bytes, c: DeviceConfig, r: RuntimeState)
    requires |w| == V2_PAYLOAD_SIZE - V1_PAYLOAD_SIZE
    ensures V1Bytes(ReadV2(w, c, r).0, ReadV2(w, c, r).1) == V1Bytes(c, r)
  {
    hide Get, Parse, Encode;
  }

  // Schema 1 likewise; the restored configuration is the migrated one.
  lemma RestoredLayout1(b: Bytes) returns (c: DeviceConfig, r: RuntimeState)
    requires DecodeV1(b).Restored?
    ensures |b| == V1_PAYLOAD_SIZE && DecodeV1(b) == Migrate(c, r) && Schema1At(b, c, r)
  {
    hide ReadV1, CommonValid, LegacyV1Valid, Migrate, Schema1At, V1Bytes;
    c, r := ReadV1(b).0, ReadV1(b).1;
    ReadThenWritten1(b);
    Schema1Lies(c, r, []);
    assert b + [] == b;
  }

  // With a tare that was kept, no other bytes restore the same.
  lemma RestoredOnce(a: Bytes, b: Bytes)
    requires DecodeV2(a).Restored? && DecodeV2(b) == DecodeV2(a) && DecodeV2(a).runtime.tare_active
    requires |a| == |b| == V2_PAYLOAD_SIZE && DigitsFit(a) && DigitsFit(b)
    ensures a == b
  {
    hide DecodeV2, V1Bytes, V2Bytes, Schema1At, Schema2At, DigitsFit, TareRetained;
    var stored_a := RestoredLayout(a);
    var stored_b := RestoredLayout(b);
  }

  // The upper bytes of a division digit are not looked at.
  lemma HighDigitIgnored(b: Bytes, at: nat, v: u8)
    requires |b| == V2_PAYLOAD_SIZE && (214 <= at < 217 || 220 <= at < 223 || 226 <= at < 229)
    ensures DecodeV2(b[at := v]) == DecodeV2(b)
  {
    hide ReadV1, ReadV2, ConfigValid, CommonValid, RestoreTare;
    var (c, r, _) := ReadV1(b[..V1_PAYLOAD_SIZE]);
    BehindKept(b, V1_PAYLOAD_SIZE, at, v);
    HighDigitUnread(b[V1_PAYLOAD_SIZE..], at - V1_PAYLOAD_SIZE, v, c, r);
  }

  lemma BehindKept(b: Bytes, n: nat, at: nat, v: u8)
    requires n <= at < |b|
    ensures b[at := v][..n] == b[..n] && b[at := v][n..] == b[n..][at - n := v]
  {}

  lemma HighDigitUnread(w: Bytes, at: nat, v: u8, c: DeviceConfig, r: RuntimeState)
    requires |w| == V2_PAYLOAD_SIZE - V1_PAYLOAD_SIZE && (50 <= at < 53 || 56 <= at < 59 || 62 <= at < 65)
    ensures ReadV2(w[at := v], c, r) == ReadV2(w, c, r)
  {
    hide Parse, MetrologyOf, UnitDisplayOf, LoadCellOf, ProfileOf, SpanOf, LinkOf, MassLimitsOf;
    UnitUnread(w, 47, at, v);
    UnitUnread(w, 53, at, v);
    UnitUnread(w, 59, at, v);
    SliceKept(w, 0, 47, at, v);
    SliceKept(w, 65, 82, at, v);
    SliceKept(w, 82, 107, at, v);
    SliceKept(w, 107, 132, at, v);
    SliceKept(w, 132, 141, at, v);
    SliceKept(w, 141, 148, at, v);
    SliceKept(w, 148, 180, at, v);
  }

  lemma SliceKept(w: Bytes, from: nat, to: nat, at: nat, v: u8)
    requires from <= to <= |w| && at < |w| && !(from <= at < to)
    ensures w[at := v][from..to] == w[from..to]
  {}

  lemma UnitUnread(w: Bytes, from: nat, at: nat, v: u8)
    requires from + 6 <= |w| && at < |w| && !(from <= at < from + 3)
    ensures UnitDisplayOf(Parse(UNIT_DISPLAY_WIDTHS, w[at := v][from..from + 6]))
         == UnitDisplayOf(Parse(UNIT_DISPLAY_WIDTHS, w[from..from + 6]))
  {
    var s, t := w[from..from + 6], w[at := v][from..from + 6];
    UnitParsed(s);
    UnitParsed(t);
    assert t[..1] == s[..1] && t[1..2] == s[1..2];
    LowByte(s[2..6]);
    LowByte(t[2..6]);
    hide Parse, Get;
  }

  lemma UnitParsed(s: Bytes)
    requires |s| == 6
    ensures Parse(UNIT_DISPLAY_WIDTHS, s) == [Get(s[..1]), Get(s[1..2]), Get(s[2..6])]
  {
    hide Get;
    assert UNIT_DISPLAY_WIDTHS[1..] == [1, 4] && [1, 4][1..] == [4] && [4][1..] == [];
    assert s[1..][..1] == s[1..2] && s[1..][1..] == s[2..6] && s[2..6][..4] == s[2..6];
    assert Parse([4], s[2..6]) == [Get(s[2..6])];
    assert Parse([1, 4], s[1..]) == [Get(s[1..2]), Get(s[2..6])];
  }

  lemma LowByte(b: Bytes)
    requires b != []
    ensures Get(b) % 0x100 == b[0]
  {}
}
