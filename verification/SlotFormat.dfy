// Services/config_store/persistent_schema.h and the reading half of
// config_store.c: what makes 2048 bytes of flash a stored record, and which of
// two records a restart picks.
module SlotFormat {
  import opened FixedWidth
  import opened LittleEndian
  import opened ByteBits
  import PersistentCodec
  import opened Configuration

  const PAGE_SIZE: nat := 1024
  const SLOT_SIZE: nat := 2048
  const HEADER_SIZE: nat := 32
  const CRC_OFFSET: nat := 20
  const COMMIT_OFFSET: nat := 2044
  const RECORD_BODY_SIZE: nat := 376

  const MAGIC: u32 := 0x41333343
  const FORMAT_VERSION: u16 := 1
  const COMMIT_MARKER: u32 := 0x434F4D54
  const COMMIT_LOW_HALFWORD: u16 := 0x4D54
  const COMMIT_HIGH_HALFWORD: u16 := 0x434F

  datatype SlotRecord = SlotRecord(schema: u16, sequence: u32, flags: u32, payload: Bytes)

  datatype SlotRead =
    | Valid(record: SlotRecord) | Empty | Corrupt | Unsupported | ValidationError | IoError

  function PayloadSize(schema: u16): nat {
    if schema == PersistentCodec.SCHEMA_V1 then PersistentCodec.V1_PAYLOAD_SIZE else PersistentCodec.V2_PAYLOAD_SIZE
  }

  // The number at a place of the slot.
  function At(s: Bytes, from: nat, width: nat): nat
    requires from + width <= |s|
  {
    Get(s[from..from + width])
  }

  predicate HeaderFixed(s: Bytes)
    requires |s| == SLOT_SIZE
  {
    && At(s, 0, 4) == MAGIC && At(s, 4, 2) == FORMAT_VERSION && At(s, 8, 2) == HEADER_SIZE
    && At(s, 24, 4) == 0 && At(s, 28, 4) == 0
  }

  predicate SchemaKnown(s: Bytes)
    requires |s| == SLOT_SIZE
  {
    At(s, 6, 2) == PersistentCodec.SCHEMA_V1 || At(s, 6, 2) == PersistentCodec.SCHEMA_V2
  }

  predicate LengthAndSequenceFit(s: Bytes)
    requires |s| == SLOT_SIZE
  {
    && (At(s, 6, 2) == PersistentCodec.SCHEMA_V1 ==> At(s, 10, 2) == PersistentCodec.V1_PAYLOAD_SIZE)
    && (At(s, 6, 2) == PersistentCodec.SCHEMA_V2 ==> At(s, 10, 2) == PersistentCodec.V2_PAYLOAD_SIZE)
    && HEADER_SIZE + At(s, 10, 2) <= COMMIT_OFFSET
    && At(s, 12, 4) != 0xFFFF_FFFF
  }

  // The bytes under the checksum: header without its CRC field, then payload.
  function Covered(s: Bytes, length: nat): Bytes
    requires |s| == SLOT_SIZE && HEADER_SIZE + length <= SLOT_SIZE
  {
    s[..20] + s[24..HEADER_SIZE + length]
  }

  function RecordAt(s: Bytes): SlotRecord
    requires |s| == SLOT_SIZE && HEADER_SIZE + At(s, 10, 2) <= SLOT_SIZE
  {
    SlotRecord(AsU16(At(s, 6, 2)), AsU32(At(s, 12, 4)), AsU32(At(s, 16, 4)), s[HEADER_SIZE..HEADER_SIZE + At(s, 10, 2)])
  }

  function ReadSlot(s: Bytes): SlotRead
    requires |s| == SLOT_SIZE
  {
    if At(s, COMMIT_OFFSET, 4) != COMMIT_MARKER then Empty
    else if !HeaderFixed(s) then Corrupt
    else if !SchemaKnown(s) then Unsupported
    else if !LengthAndSequenceFit(s) then Corrupt
    else if Crc32Bytes(Covered(s, At(s, 10, 2))) != s[20..24] then Corrupt
    else if PersistentCodec.Decode(At(s, 6, 2), RecordAt(s).payload).DecodeError? then ValidationError
    else Valid(RecordAt(s))
  }

  // ---- the written record ---------------------------------------------------------------

  // A record Request may write.
  predicate Writable(r: SlotRecord) {
    && r.schema == PersistentCodec.SCHEMA_V2 && |r.payload| == PersistentCodec.V2_PAYLOAD_SIZE
    && r.sequence != 0xFFFF_FFFF
    && PersistentCodec.Decode(PersistentCodec.SCHEMA_V2, r.payload).Restored?
  }

  // Header bytes before and after the CRC field.
  function HeaderHead(r: SlotRecord): (b: Bytes)
    ensures |b| == 20
  {
    Put(MAGIC, 4) + Put(FORMAT_VERSION, 2) + Put(r.schema, 2) + Put(HEADER_SIZE, 2) + Put(|r.payload|, 2)
    + Put(r.sequence, 4) + Put(r.flags, 4)
  }

  function HeaderTail(): (b: Bytes)
    ensures |b| == 8
  {
    Put(0, 4) + Put(0, 4)
  }

  function Body(r: SlotRecord): (b: Bytes)
    ensures |b| == HEADER_SIZE + |r.payload|
  {
    HeaderHead(r) + Crc32Bytes(HeaderHead(r) + HeaderTail() + r.payload) + HeaderTail() + r.payload
  }

  const COMMIT_BYTES: Bytes := [0x54, 0x4D, 0x4F, 0x43]

  lemma HeadFields(r: SlotRecord)
    ensures var h := HeaderHead(r);
      && h[0..4] == Put(MAGIC, 4) && h[4..6] == Put(FORMAT_VERSION, 2) && h[6..8] == Put(r.schema, 2)
      && h[8..10] == Put(HEADER_SIZE, 2) && h[10..12] == Put(|r.payload|, 2)
      && h[12..16] == Put(r.sequence, 4) && h[16..20] == Put(r.flags, 4)
    ensures HeaderTail()[0..4] == Put(0, 4) && HeaderTail()[4..8] == Put(0, 4)
  {
    hide Put;
  }

  lemma BodyParts(s: Bytes, r: SlotRecord)
    requires |s| == SLOT_SIZE && |r.payload| == PersistentCodec.V2_PAYLOAD_SIZE && s[..RECORD_BODY_SIZE] == Body(r)
    ensures s[..20] == HeaderHead(r) && s[24..32] == HeaderTail() && s[32..RECORD_BODY_SIZE] == r.payload
    ensures s[20..24] == Crc32Bytes(HeaderHead(r) + HeaderTail() + r.payload)
    ensures s[24..RECORD_BODY_SIZE] == HeaderTail() + r.payload
  {
    hide Crc32Bytes, HeaderHead, HeaderTail;
    var b := s[..RECORD_BODY_SIZE];
    assert b[..20] == HeaderHead(r) && b[24..32] == HeaderTail() && b[32..] == r.payload;
    assert b[20..24] == Crc32Bytes(HeaderHead(r) + HeaderTail() + r.payload);
  }

  lemma SubSlice(s: Bytes, from: nat, to: nat, i: nat, j: nat)
    requires from <= to <= |s| && i <= j <= to - from
    ensures s[from..to][i..j] == s[from + i..from + j]
  {
    var x, y := s[from..to][i..j], s[from + i..from + j];
    assert forall k :: 0 <= k < j - i ==> x[k] == y[k];
  }

  lemma HeaderReadsBack(s: Bytes, r: SlotRecord)
    requires |s| == SLOT_SIZE && s[..20] == HeaderHead(r) && s[24..32] == HeaderTail() && |r.payload| < 0x1_0000
    ensures At(s, 0, 4) == MAGIC && At(s, 4, 2) == FORMAT_VERSION && At(s, 6, 2) == r.schema
    ensures At(s, 8, 2) == HEADER_SIZE && At(s, 10, 2) == |r.payload|
    ensures At(s, 12, 4) == r.sequence && At(s, 16, 4) == r.flags && At(s, 24, 4) == 0 && At(s, 28, 4) == 0
  {
    RoomValues();
    HeadFields(r);
    hide Get, Put, Room, HeaderHead, HeaderTail, At;
    assert s[0..20] == s[..20];
    FieldAt(s, 0, 20, 0, MAGIC, 4);
    FieldAt(s, 0, 20, 4, FORMAT_VERSION, 2);
    FieldAt(s, 0, 20, 6, r.schema, 2);
    FieldAt(s, 0, 20, 8, HEADER_SIZE, 2);
    FieldAt(s, 0, 20, 10, |r.payload|, 2);
    FieldAt(s, 0, 20, 12, r.sequence, 4);
    FieldAt(s, 0, 20, 16, r.flags, 4);
    FieldAt(s, 24, 32, 0, 0, 4);
    FieldAt(s, 24, 32, 4, 0, 4);
  }

  lemma FieldAt(s: Bytes, from: nat, to: nat, i: nat, v: nat, width: nat)
    requires from <= to <= |s| && i + width <= to - from
    requires s[from..to][i..i + width] == Put(v, width) && v < Room(width)
    ensures At(s, from + i, width) == v
  {
    SubSlice(s, from, to, i, i + width);
    GetPut(v, width);
  }

  lemma RecordReadsBack(s: Bytes, r: SlotRecord)
    requires |s| == SLOT_SIZE && Writable(r) && s[..RECORD_BODY_SIZE] == Body(r)
    ensures HeaderFixed(s) && SchemaKnown(s) && LengthAndSequenceFit(s) && RecordAt(s) == r && At(s, 6, 2) == r.schema
    ensures Crc32Bytes(Covered(s, At(s, 10, 2))) == s[20..24]
  {
    BodyParts(s, r);
    HeaderReadsBack(s, r);
    CoveredReadsBack(s, r);
    hide *;
    FieldsReadBack(s, r);
  }

  lemma FieldsReadBack(s: Bytes, r: SlotRecord)
    requires |s| == SLOT_SIZE && Writable(r)
    requires At(s, 0, 4) == MAGIC && At(s, 4, 2) == FORMAT_VERSION && At(s, 6, 2) == r.schema
    requires At(s, 8, 2) == HEADER_SIZE && At(s, 10, 2) == |r.payload|
    requires At(s, 12, 4) == r.sequence && At(s, 16, 4) == r.flags && At(s, 24, 4) == 0 && At(s, 28, 4) == 0
    requires s[32..RECORD_BODY_SIZE] == r.payload
    ensures HeaderFixed(s) && SchemaKnown(s) && LengthAndSequenceFit(s) && RecordAt(s) == r
  {
    hide At, PersistentCodec.Decode;
  }

  lemma CoveredReadsBack(s: Bytes, r: SlotRecord)
    requires |s| == SLOT_SIZE && |r.payload| == PersistentCodec.V2_PAYLOAD_SIZE && s[..20] == HeaderHead(r)
    requires s[24..RECORD_BODY_SIZE] == HeaderTail() + r.payload
    requires s[20..24] == Crc32Bytes(HeaderHead(r) + HeaderTail() + r.payload)
    ensures Crc32Bytes(Covered(s, |r.payload|)) == s[20..24]
  {
    hide Crc32Bytes, HeaderHead, HeaderTail;
    assert Covered(s, |r.payload|) == HeaderHead(r) + HeaderTail() + r.payload;
  }

  // A slot that begins with a record's body and ends with the commit marker
  // reads as that record.
  lemma WrittenReadsBack(s: Bytes, r: SlotRecord)
    requires |s| == SLOT_SIZE && Writable(r)
    requires s[..RECORD_BODY_SIZE] == Body(r) && s[COMMIT_OFFSET..] == COMMIT_BYTES
    ensures ReadSlot(s) == Valid(r)
  {
    RecordReadsBack(s, r);
    MarkerRead(s);
    hide Crc32Bytes, PersistentCodec.Decode, Body, At, HeaderFixed, SchemaKnown, LengthAndSequenceFit, Covered,
      RecordAt;
  }

  lemma MarkerRead(s: Bytes)
    requires |s| == SLOT_SIZE
    ensures At(s, COMMIT_OFFSET, 4) == COMMIT_MARKER <==> s[COMMIT_OFFSET..] == COMMIT_BYTES
  {
    var m := s[COMMIT_OFFSET..COMMIT_OFFSET + 4];
    assert m == s[COMMIT_OFFSET..];
    PutGet(m);
    assert Get(COMMIT_BYTES) == COMMIT_MARKER && Put(COMMIT_MARKER, 4) == COMMIT_BYTES;
  }

  // ---- validity in raw bytes ----------------------------------------------------------------

  lemma NumberIs(b: Bytes, v: nat)
    requires v < Room(|b|)
    ensures Get(b) == v <==> b == Put(v, |b|)
  {
    PutGet(b);
    GetPut(v, |b|);
  }

  lemma Literals()
    ensures Put(MAGIC, 4) == [0x43, 0x33, 0x33, 0x41] && Put(FORMAT_VERSION, 2) == [1, 0]
    ensures Put(HEADER_SIZE, 2) == [32, 0] && Put(0, 4) == [0, 0, 0, 0] && Put(2, 2) == [2, 0]
    ensures Put(164, 2) == [164, 0] && Put(344, 2) == [0x58, 1]
  {}

  lemma ErasedLiteral()
    ensures Put(0xFFFF_FFFF, 4) == [0xFF, 0xFF, 0xFF, 0xFF]
  {}

  predicate HeaderBytes(s: Bytes)
    requires |s| == SLOT_SIZE
  {
    && s[0..4] == [0x43, 0x33, 0x33, 0x41] && s[4..6] == [1, 0] && s[8..10] == [32, 0]
    && s[24..28] == [0, 0, 0, 0] && s[28..32] == [0, 0, 0, 0]
  }

  predicate SchemaBytes(s: Bytes)
    requires |s| == SLOT_SIZE
  {
    (s[6..8] == [1, 0] && s[10..12] == [164, 0]) || (s[6..8] == [2, 0] && s[10..12] == [0x58, 1])
  }

  lemma HeaderInBytes(s: Bytes)
    requires |s| == SLOT_SIZE
    ensures HeaderFixed(s) <==> HeaderBytes(s)
  {
    RoomValues();
    Literals();
    hide Get, Put, Room;
    NumberIs(s[0..4], MAGIC);
    NumberIs(s[4..6], FORMAT_VERSION);
    NumberIs(s[8..10], HEADER_SIZE);
    NumberIs(s[24..28], 0);
    NumberIs(s[28..32], 0);
  }

  lemma SchemaInBytes(s: Bytes)
    requires |s| == SLOT_SIZE
    ensures SchemaKnown(s) && LengthAndSequenceFit(s) <==> SchemaBytes(s) && s[12..16] != [0xFF, 0xFF, 0xFF, 0xFF]
    ensures SchemaBytes(s) ==> At(s, 6, 2) == s[6] && At(s, 10, 2) == if s[6] == 1 then 164 else 344
  {
    RoomValues();
    Literals();
    ErasedLiteral();
    hide Get, Put, Room;
    NumberIs(s[6..8], 1);
    NumberIs(s[6..8], 2);
    NumberIs(s[10..12], 164);
    NumberIs(s[10..12], 344);
    NumberIs(s[12..16], 0xFFFF_FFFF);
    assert s[6] == s[6..8][0];
  }

  // A slot is valid when, and only when, its raw bytes carry the marker, a header
  // with every fixed field, the payload's own length, a number that is not the
  // erased one and the checksum, and the payload decodes.
  lemma ValidSlot(s: Bytes)
    requires |s| == SLOT_SIZE
    ensures var length := if s[6] == 1 then 164 else 344;
            ReadSlot(s).Valid? <==>
            && s[2044..] == [0x54, 0x4D, 0x4F, 0x43] && HeaderBytes(s) && SchemaBytes(s)
            && s[12..16] != [0xFF, 0xFF, 0xFF, 0xFF] && Crc32Bytes(s[..20] + s[24..32 + length]) == s[20..24]
            && PersistentCodec.Decode(s[6], s[32..32 + length]).Restored?
    ensures ReadSlot(s).Valid? ==>
              PersistentCodec.Decode(ReadSlot(s).record.schema, ReadSlot(s).record.payload).Restored?
  {
    MarkerRead(s);
    HeaderInBytes(s);
    SchemaInBytes(s);
    ValidByParts(s);
    hide *;
  }

  // Why a slot is not valid: the first of marker, fixed header fields and schema
  // that is wrong names the reason, and a payload that does not decode comes last.
  lemma NotValidBecause(s: Bytes)
    requires |s| == SLOT_SIZE
    ensures ReadSlot(s).Empty? <==> s[2044..] != [0x54, 0x4D, 0x4F, 0x43]
    ensures ReadSlot(s).Unsupported? <==>
            s[2044..] == [0x54, 0x4D, 0x4F, 0x43] && HeaderBytes(s) && s[6..8] != [1, 0] && s[6..8] != [2, 0]
    ensures var length := if s[6] == 1 then 164 else 344;
            ReadSlot(s).ValidationError? <==>
            && s[2044..] == [0x54, 0x4D, 0x4F, 0x43] && HeaderBytes(s) && SchemaBytes(s)
            && s[12..16] != [0xFF, 0xFF, 0xFF, 0xFF] && Crc32Bytes(s[..20] + s[24..32 + length]) == s[20..24]
            && PersistentCodec.Decode(s[6], s[32..32 + length]).DecodeError?
    ensures !ReadSlot(s).IoError?
  {
    MarkerRead(s);
    HeaderInBytes(s);
    SchemaInBytes(s);
    KnownInBytes(s);
    hide HeaderBytes, SchemaBytes;
    StatusByParts(s);
    hide *;
  }

  lemma KnownInBytes(s: Bytes)
    requires |s| == SLOT_SIZE
    ensures SchemaKnown(s) <==> s[6..8] == [1, 0] || s[6..8] == [2, 0]
  {
    RoomValues();
    Literals();
    hide Get, Put, Room;
    NumberIs(s[6..8], 1);
    NumberIs(s[6..8], 2);
  }

  lemma StatusByParts(s: Bytes)
    requires |s| == SLOT_SIZE
    ensures SchemaKnown(s) && LengthAndSequenceFit(s) ==> HEADER_SIZE + At(s, 10, 2) <= COMMIT_OFFSET
    ensures ReadSlot(s).Empty? <==> At(s, COMMIT_OFFSET, 4) != COMMIT_MARKER
    ensures ReadSlot(s).Unsupported? <==>
            At(s, COMMIT_OFFSET, 4) == COMMIT_MARKER && HeaderFixed(s) && !SchemaKnown(s)
    ensures ReadSlot(s).ValidationError? <==>
            && At(s, COMMIT_OFFSET, 4) == COMMIT_MARKER && HeaderFixed(s) && SchemaKnown(s) && LengthAndSequenceFit(s)
            && Crc32Bytes(s[..20] + s[24..32 + At(s, 10, 2)]) == s[20..24]
            && PersistentCodec.Decode(At(s, 6, 2), s[32..32 + At(s, 10, 2)]).DecodeError?
    ensures !ReadSlot(s).IoError?
  {
    hide Get, Crc32Bytes, PersistentCodec.Decode, HeaderFixed, At;
  }

  // Valid in the terms of the header's fields.
  lemma ValidByParts(s: Bytes)
    requires |s| == SLOT_SIZE
    ensures SchemaKnown(s) && LengthAndSequenceFit(s) ==> HEADER_SIZE + At(s, 10, 2) <= COMMIT_OFFSET
    ensures ReadSlot(s).Valid? <==>
            && At(s, COMMIT_OFFSET, 4) == COMMIT_MARKER && HeaderFixed(s) && SchemaKnown(s) && LengthAndSequenceFit(s)
            && Crc32Bytes(s[..20] + s[24..32 + At(s, 10, 2)]) == s[20..24]
            && PersistentCodec.Decode(At(s, 6, 2), s[32..32 + At(s, 10, 2)]).Restored?
    ensures ReadSlot(s).Valid? ==>
              PersistentCodec.Decode(ReadSlot(s).record.schema, ReadSlot(s).record.payload).Restored?
  {
    hide Get, Crc32Bytes, PersistentCodec.Decode, HeaderFixed;
    SchemaFits(s);
    hide At;
  }

  lemma SchemaFits(s: Bytes)
    requires |s| == SLOT_SIZE
    ensures SchemaKnown(s) ==> AsU16(At(s, 6, 2)) == At(s, 6, 2)
  {
    hide Get;
  }

  // ---- altered records ------------------------------------------------------------------

  // The bytes a valid slot is made of: header, payload and commit marker.
  predicate InRecord(s: Bytes, index: nat)
    requires |s| == SLOT_SIZE && ReadSlot(s).Valid?
  {
    index < HEADER_SIZE + |ReadSlot(s).record.payload| || COMMIT_OFFSET <= index < SLOT_SIZE
  }

  // What Valid promises, without the decoder.
  lemma ValidParts(s: Bytes)
    requires |s| == SLOT_SIZE && ReadSlot(s).Valid?
    ensures s[COMMIT_OFFSET..] == COMMIT_BYTES && SchemaKnown(s) && LengthAndSequenceFit(s)
    ensures At(s, 10, 2) == PayloadSize(At(s, 6, 2)) == |ReadSlot(s).record.payload|
    ensures Crc32Bytes(Covered(s, At(s, 10, 2))) == s[20..24]
  {
    MarkerRead(s);
    hide Crc32Bytes, PersistentCodec.Decode, Get;
  }

  lemma AtUnchanged(s: Bytes, index: nat, altered: u8, from: nat, width: nat)
    requires index < |s| && from + width <= |s| && !(from <= index < from + width)
    ensures At(s[index := altered], from, width) == At(s, from, width)
  {
    assert s[index := altered][from..from + width] == s[from..from + width];
  }

  // Any single altered byte of a valid record makes the slot invalid.
  lemma AlteredByteRejected(s: Bytes, index: nat, altered: u8)
    requires |s| == SLOT_SIZE && ReadSlot(s).Valid? && InRecord(s, index) && altered != s[index]
    ensures !ReadSlot(s[index := altered]).Valid?
  {
    ValidParts(s);
    hide ReadSlot, Crc32Bytes, At, SchemaKnown;
    var t := s[index := altered];
    if ReadSlot(t).Valid? {
      ValidParts(t);
      hide LengthAndSequenceFit;
      if index < COMMIT_OFFSET {
        AlteredLength(s, index, altered);
        AlteredChecksum(s, index, altered, At(s, 10, 2));
      }
    }
  }

  // Two valid slots one byte apart agree on the payload length.
  lemma AlteredLength(s: Bytes, index: nat, altered: u8)
    requires |s| == SLOT_SIZE && index < COMMIT_OFFSET
    requires At(s, 10, 2) == PayloadSize(At(s, 6, 2))
    requires At(s[index := altered], 10, 2) == PayloadSize(At(s[index := altered], 6, 2))
    ensures At(s[index := altered], 10, 2) == At(s, 10, 2)
  {
    hide At;
    if 10 <= index < 12 { AtUnchanged(s, index, altered, 6, 2); } else { AtUnchanged(s, index, altered, 10, 2); }
  }

  lemma AlteredChecksum(s: Bytes, index: nat, altered: u8, length: nat)
    requires |s| == SLOT_SIZE && HEADER_SIZE + length <= COMMIT_OFFSET && index < HEADER_SIZE + length
    requires altered != s[index] && Crc32Bytes(Covered(s, length)) == s[20..24]
    ensures Crc32Bytes(Covered(s[index := altered], length)) != s[index := altered][20..24]
  {
    hide Crc32Bytes;
    var t := s[index := altered];
    if 20 <= index < 24 {
      assert Covered(t, length) == Covered(s, length);
      assert t[20..24][index - 20] != s[20..24][index - 20];
    } else {
      var place := if index < 20 then index else index - 4;
      assert Covered(t, length) == Covered(s, length)[place := altered];
      assert t[20..24] == s[20..24];
      Crc32OneByte(Covered(s, length), place, altered);
    }
  }

  // Bytes between the record and its marker do not matter.
  lemma SpareByteIgnored(s: Bytes, index: nat, altered: u8)
    requires |s| == SLOT_SIZE && index < SLOT_SIZE && ReadSlot(s).Valid? && !InRecord(s, index)
    ensures ReadSlot(s[index := altered]) == ReadSlot(s)
  {
    ValidParts(s);
    hide *;
    SpareKeeps(s, index, altered, At(s, 10, 2));
    SameParts(s, s[index := altered], At(s, 10, 2));
  }

  lemma SpareKeeps(s: Bytes, index: nat, altered: u8, length: nat)
    requires |s| == SLOT_SIZE && HEADER_SIZE + length <= index < COMMIT_OFFSET
    ensures var t := s[index := altered];
      && t[..HEADER_SIZE + length] == s[..HEADER_SIZE + length] && t[COMMIT_OFFSET..] == s[COMMIT_OFFSET..]
  {}

  lemma SamePlace(s: Bytes, t: Bytes, end: nat, from: nat, to: nat)
    requires |s| == |t| == SLOT_SIZE && from <= to <= end <= SLOT_SIZE && t[..end] == s[..end]
    ensures t[from..to] == s[from..to]
  {
    SubSlice(s, 0, end, from, to);
    SubSlice(t, 0, end, from, to);
  }

  // The record and its marker are all that is read.
  lemma SameParts(s: Bytes, t: Bytes, length: nat)
    requires |s| == |t| == SLOT_SIZE && At(s, 10, 2) == length && HEADER_SIZE + length <= COMMIT_OFFSET
    requires t[..HEADER_SIZE + length] == s[..HEADER_SIZE + length] && t[COMMIT_OFFSET..] == s[COMMIT_OFFSET..]
    ensures ReadSlot(t) == ReadSlot(s)
  {
    hide At, Get, Crc32Bytes, PersistentCodec.Decode, Covered, ReadSlot, AsU16, AsU32;
    SameNumbers(s, t, HEADER_SIZE + length);
    SamePlace(s, t, HEADER_SIZE + length, 20, 24);
    SamePlace(s, t, HEADER_SIZE + length, HEADER_SIZE, HEADER_SIZE + length);
    SameCovered(s, t, length);
    assert HeaderFixed(t) == HeaderFixed(s) && SchemaKnown(t) == SchemaKnown(s);
    assert LengthAndSequenceFit(t) == LengthAndSequenceFit(s) && RecordAt(t) == RecordAt(s);
    SameReading(s, t);
  }

  lemma SameReading(s: Bytes, t: Bytes)
    requires |s| == |t| == SLOT_SIZE && HEADER_SIZE + At(s, 10, 2) <= COMMIT_OFFSET
    requires At(t, COMMIT_OFFSET, 4) == At(s, COMMIT_OFFSET, 4) && At(t, 10, 2) == At(s, 10, 2)
    requires HeaderFixed(t) == HeaderFixed(s) && SchemaKnown(t) == SchemaKnown(s) && At(t, 6, 2) == At(s, 6, 2)
    requires LengthAndSequenceFit(t) == LengthAndSequenceFit(s) && RecordAt(t) == RecordAt(s)
    requires Covered(t, At(s, 10, 2)) == Covered(s, At(s, 10, 2)) && t[20..24] == s[20..24]
    ensures ReadSlot(t) == ReadSlot(s)
  {
    hide At, Get, HeaderFixed, SchemaKnown, LengthAndSequenceFit, RecordAt, Covered, Crc32Bytes, PersistentCodec.Decode;
  }

  lemma SameNumbers(s: Bytes, t: Bytes, end: nat)
    requires |s| == |t| == SLOT_SIZE && HEADER_SIZE <= end <= SLOT_SIZE
    requires t[..end] == s[..end] && t[COMMIT_OFFSET..] == s[COMMIT_OFFSET..]
    ensures forall from: nat, width: nat | from + width <= HEADER_SIZE :: At(t, from, width) == At(s, from, width)
    ensures At(t, COMMIT_OFFSET, 4) == At(s, COMMIT_OFFSET, 4)
  {
    hide Get;
    forall from: nat, width: nat | from + width <= HEADER_SIZE ensures At(t, from, width) == At(s, from, width) {
      SamePlace(s, t, end, from, from + width);
    }
    assert s[COMMIT_OFFSET..COMMIT_OFFSET + 4] == s[COMMIT_OFFSET..];
    assert t[COMMIT_OFFSET..COMMIT_OFFSET + 4] == t[COMMIT_OFFSET..];
  }

  lemma SameCovered(s: Bytes, t: Bytes, length: nat)
    requires |s| == |t| == SLOT_SIZE && HEADER_SIZE + length <= SLOT_SIZE
    requires t[..HEADER_SIZE + length] == s[..HEADER_SIZE + length]
    ensures Covered(t, length) == Covered(s, length)
  {
    SamePlace(s, t, HEADER_SIZE + length, 0, 20);
    SamePlace(s, t, HEADER_SIZE + length, 24, HEADER_SIZE + length);
  }

  lemma BurstParts(s: Bytes, index: nat, burst: Bytes, length: nat)
    requires |s| == SLOT_SIZE && |burst| == 4
    requires HEADER_SIZE <= index && index + 4 <= HEADER_SIZE + length <= COMMIT_OFFSET
    ensures var t := s[..index] + burst + s[index + 4..];
      && |t| == SLOT_SIZE && t[10..12] == s[10..12] && t[20..24] == s[20..24]
      && Covered(s, length) == (s[..20] + s[24..index]) + s[index..index + 4] + s[index + 4..HEADER_SIZE + length]
      && Covered(t, length) == (s[..20] + s[24..index]) + burst + s[index + 4..HEADER_SIZE + length]
  {
    var t, end := s[..index] + burst + s[index + 4..], HEADER_SIZE + length;
    BurstInside(s, index, burst, end);
    assert s[24..end] == s[24..index] + s[index..index + 4] + s[index + 4..end];
    assert t[..20] == s[..20] && t[20..24] == s[20..24] && t[10..12] == s[10..12];
  }

  lemma BurstInside(s: Bytes, index: nat, burst: Bytes, end: nat)
    requires 24 <= index && |burst| == 4 && index + 4 <= end <= |s|
    ensures (s[..index] + burst + s[index + 4..])[24..end] == s[24..index] + burst + s[index + 4..end]
  {}

  lemma BurstChecksum(s: Bytes, index: nat, burst: Bytes, length: nat)
    requires |s| == SLOT_SIZE && |burst| == 4
    requires HEADER_SIZE <= index && index + 4 <= HEADER_SIZE + length <= COMMIT_OFFSET
    requires burst != s[index..index + 4]
    ensures var t := s[..index] + burst + s[index + 4..];
      && |t| == SLOT_SIZE && At(t, 10, 2) == At(s, 10, 2) && t[20..24] == s[20..24]
      && Crc32Bytes(Covered(t, length)) != Crc32Bytes(Covered(s, length))
  {
    hide Crc32Bytes, Covered, Get;
    BurstParts(s, index, burst, length);
    Crc32Burst(s[..20] + s[24..index], s[index..index + 4], burst, s[index + 4..HEADER_SIZE + length]);
  }

  // A burst of up to four payload bytes is noticed as well.
  lemma PayloadBurstRejected(s: Bytes, index: nat, burst: Bytes)
    requires |s| == SLOT_SIZE && ReadSlot(s).Valid? && |burst| == 4
    requires HEADER_SIZE <= index && index + 4 <= HEADER_SIZE + |ReadSlot(s).record.payload|
    requires burst != s[index..index + 4]
    ensures !ReadSlot(s[..index] + burst + s[index + 4..]).Valid?
  {
    ValidParts(s);
    hide ReadSlot, Crc32Bytes, SchemaKnown, Covered, At;
    var t := s[..index] + burst + s[index + 4..];
    BurstChecksum(s, index, burst, At(s, 10, 2));
    if ReadSlot(t).Valid? { ValidParts(t); }
  }
}
