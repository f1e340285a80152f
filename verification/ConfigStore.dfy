// Services/config_store/config_store.c: saving a configuration one Process step
// at a time so that losing power at any moment leaves the old record or the
// requested one.
module ConfigStore {
  import opened FixedWidth
  import opened LittleEndian
  import opened ByteBits
  import opened Configuration
  import opened SlotFormat
  import opened SlotChoice
  import opened FlashDevice
  import PersistentCodec
  import Crc32

  const HALFWORDS_PER_PROCESS: nat := 16
  const VERIFY_CHUNK_SIZE: nat := 64
  const FACTORY_DEFAULT_FLAG: u32 := 1

  datatype StoreState =
    | Idle | Prepare | ErasePage0 | ErasePage1 | ProgramBody | VerifyBody | ProgramCommit | VerifyFinal | Complete
    | Error

  datatype Operation = NoOperation | Save | FactoryReset

  datatype OperationResult =
    | NoResult | InProgress | Success | NoChange | Invalid | IoFailure | VerifyFailure | PowerUnsafe
    | CommittedLockError

  // ---- the invariant of the two slots --------------------------------------------------------

  function TargetOf(active: Option<SlotId>): SlotId {
    if active == Some(SlotA) then SlotB else SlotA
  }

  // `committed` is the record the store works with.  `attempted` is a record whose
  // commit was tried without the store learning that it succeeded.  No third
  // record can win a restart.
  ghost predicate Consistent(m: Image, active: Option<SlotId>, committed: Option<SlotRecord>,
                             attempted: Option<SlotRecord>) {
    match active
    case None =>
      && committed.None? && !ReadSlot(m.b).Valid?
      && (ReadSlot(m.a).Valid? ==> attempted == Some(ReadSlot(m.a).record))
    case Some(slot) =>
      && committed.Some? && ReadSlot(SlotOf(m, slot)) == Valid(committed.value)
      && var other := ReadSlot(SlotOf(m, Other(slot)));
      && (other.Valid? && Overrides(slot, committed.value, other.record) ==> attempted == Some(other.record))
  }

  // A restart from a consistent image finds one of the two.
  lemma ConsistentRecovers(m: Image, active: Option<SlotId>, committed: Option<SlotRecord>,
                           attempted: Option<SlotRecord>)
    requires Consistent(m, active, committed, attempted)
    ensures Recovered(m) == committed || (attempted.Some? && Recovered(m) == attempted)
  {
    hide ReadSlot;
    match active
    case None => RecoveredFromA(m);
    case Some(slot) => RecoveredFrom(m, slot);
  }

  // A commit that landed although it was reported as failed does win.
  lemma UnreportedCommitWins(m: Image, slot: SlotId, committed: SlotRecord, attempted: SlotRecord)
    requires Consistent(m, Some(slot), Some(committed), Some(attempted))
    requires ReadSlot(SlotOf(m, Other(slot))) == Valid(attempted)
    requires committed.sequence != 0xFFFF_FFFF && attempted.sequence == NextSequence(committed.sequence)
    ensures Recovered(m) == Some(attempted)
  {
    hide ReadSlot;
    RecoveredFrom(m, slot);
    NextOverrides(slot, committed, attempted);
  }

  // The other slot holds a different record, which a restart prefers to the one in force.
  ghost predicate Shadowed(m: Image, slot: SlotId, committed: SlotRecord) {
    var other := ReadSlot(SlotOf(m, Other(slot)));
    other.Valid? && other.record != committed && Overrides(slot, committed, other.record)
  }

  // A save of the payload in force is answered with NoChange without a look at the
  // other slot: what is in force survives a restart unless it is shadowed, and
  // only the attempted record can shadow it.
  lemma NoChangeLasts(m: Image, slot: SlotId, committed: SlotRecord, attempted: Option<SlotRecord>)
    requires Consistent(m, Some(slot), Some(committed), attempted)
    ensures Recovered(m) == Some(committed) <==> !Shadowed(m, slot, committed)
    ensures Shadowed(m, slot, committed) ==> attempted.Some? && Recovered(m) == attempted
  {
    hide ReadSlot;
    RecoveredFrom(m, slot);
  }

  // It does happen: slot A holds the record in force, slot B the next one, whose
  // commit landed unreported.  Saving A's payload again changes nothing, and the
  // restart finds B.
  lemma NoChangeLost(m: Image, a: SlotRecord, b: SlotRecord, s: StoreView)
    requires Writable(a) && m.a[..RECORD_BODY_SIZE] == Body(a) && m.a[COMMIT_OFFSET..] == COMMIT_BYTES
    requires Writable(b) && m.b[..RECORD_BODY_SIZE] == Body(b) && m.b[COMMIT_OFFSET..] == COMMIT_BYTES
    requires b.sequence == NextSequence(a.sequence) && s.known == Some(a) && s.tried == Some(b)
    ensures Consistent(m, Some(SlotA), Some(a), Some(b))
    ensures Begun(s, Save, 0, a.payload).result == NoChange && Recovered(m) == Some(b) != Some(a)
  {
    hide ReadSlot, Body, PersistentCodec.Decode;
    WrittenReadsBack(m.a, a);
    WrittenReadsBack(m.b, b);
    NextOverrides(SlotA, a, b);
    UnreportedCommitWins(m, SlotA, a, b);
  }

  // Writing to the target slot keeps the invariant as long as what it reads as
  // is no record, the record it was before, or the attempted one.
  lemma TargetWritten(m: Image, n: Image, active: Option<SlotId>, committed: Option<SlotRecord>,
                      before: Option<SlotRecord>, after: Option<SlotRecord>)
    requires Consistent(m, active, committed, before)
    requires var target := TargetOf(active);
      && SlotOf(n, Other(target)) == SlotOf(m, Other(target))
      && var read := ReadSlot(SlotOf(n, target));
      && (read.Valid? ==> after == Some(read.record) || (read == ReadSlot(SlotOf(m, target)) && after == before))
    ensures Consistent(n, active, committed, after)
  {
    hide ReadSlot;
  }

  // The record just verified in the target slot becomes the committed one.
  lemma TargetCommitted(m: Image, active: Option<SlotId>, committed: Option<SlotRecord>, attempted: Option<SlotRecord>,
                        next: SlotRecord)
    requires Consistent(m, active, committed, attempted)
    requires ReadSlot(SlotOf(m, TargetOf(active))) == Valid(next)
    requires committed.Some? ==>
              committed.value.sequence != 0xFFFF_FFFF && next.sequence == NextSequence(committed.value.sequence)
    ensures Consistent(m, Some(TargetOf(active)), Some(next), None)
  {
    hide ReadSlot;
    if committed.Some? { NextOverrides(active.value, committed.value, next); }
  }

  // ---- the protocol, seen from outside -------------------------------------------------------

  // What a caller of the store can rely on: the phase of the operation, how many
  // Process calls it has left, the last result, the record in force, a record
  // whose commit was tried without an answer, and the record being written.
  datatype StoreView = StoreView(
    phase: StoreState, rank: nat, result: OperationResult, known: Option<SlotRecord>, tried: Option<SlotRecord>,
    requested: SlotRecord)

  predicate Underway(phase: StoreState) { phase != Idle && phase != Complete && phase != Error }

  // The phases behind the power check.
  predicate Writes(phase: StoreState) {
    phase == ErasePage0 || phase == ErasePage1 || phase == ProgramBody || phase == VerifyBody || phase == ProgramCommit
  }

  // After Init, and Load that found a record or none.
  function Started(found: Option<SlotRecord>): StoreView {
    StoreView(Idle, 0, NoResult, found, None, SlotRecord(0, 0, 0, []))
  }

  // A request: refused, unencodable, nothing to change, or a record to write.
  ghost predicate RequestMoves(s: StoreView, config: DeviceConfig, runtime: RuntimeState, revision: u32,
                               operation: Operation, flags: u32, t: StoreView) {
    if s.phase != Idle || revision == 0xFFFF_FFFF then t == s
    else
      var encoded := PersistentCodec.EncodeV2(config, runtime, PersistentCodec.V2_PAYLOAD_SIZE);
      t == if encoded.EncodeError? then s.(phase := Error, result := Invalid)
           else Begun(s, operation, flags, encoded.bytes)
  }

  function Begun(s: StoreView, operation: Operation, flags: u32, payload: Bytes): StoreView {
    if operation == Save && s.known.Some? && s.known.value.payload == payload then
      s.(phase := Complete, result := NoChange)
    else
      s.(phase := Prepare, rank := 18, result := InProgress,
         requested := SlotRecord(PersistentCodec.SCHEMA_V2, NextFor(s.known), flags, payload))
  }

  // The operation is over without the record being in force.
  ghost predicate Breaks(s: StoreView, t: StoreView) {
    && t == s.(phase := Error, rank := 0, result := t.result, tried := t.tried)
    && (t.result == IoFailure || t.result == VerifyFailure || t.result == PowerUnsafe)
  }

  // One Process call.  The record in force changes in the last phase only, and a
  // record is tried in the phase before it only.
  ghost predicate ProcessMoves(s: StoreView, t: StoreView) {
    if !Underway(s.phase) then t == s
    else
      t.rank < s.rank && match s.phase
        case Prepare => t == s.(phase := ErasePage0, rank := t.rank)
        case ErasePage0 =>
          t == s.(phase := ErasePage1, rank := t.rank, tried := None) || (Breaks(s, t) && t.tried == s.tried)
        case ErasePage1 =>
          t == s.(phase := ProgramBody, rank := t.rank, tried := None) || (Breaks(s, t) && t.tried == s.tried)
        case ProgramBody =>
          || t == s.(phase := ProgramBody, rank := t.rank) || t == s.(phase := VerifyBody, rank := t.rank)
          || (Breaks(s, t) && t.tried == s.tried)
        case VerifyBody => t == s.(phase := ProgramCommit, rank := t.rank) || (Breaks(s, t) && t.tried == s.tried)
        case ProgramCommit =>
          || t == s.(phase := VerifyFinal, rank := t.rank, tried := Some(s.requested))
          || (Breaks(s, t) && (t.tried == s.tried || t.tried == Some(s.requested)))
        case VerifyFinal =>
          || (Breaks(s, t) && t.tried == s.tried)
          || (t == s.(phase := Complete, rank := 0, result := t.result, known := Some(s.requested), tried := None)
              && (t.result == Success || t.result == CommittedLockError))
        case _ => false
  }

  ghost predicate CancelMoves(s: StoreView, t: StoreView) {
    t == if s.phase == Prepare then s.(phase := Idle, rank := 0, result := NoResult) else s
  }

  ghost predicate AcknowledgeMoves(s: StoreView, t: StoreView) {
    t == if s.phase == Complete || s.phase == Error then s.(phase := Idle, result := NoResult) else s
  }

  class Store {
    const device: Device
    var state: StoreState
    var operation: Operation
    var result: OperationResult
    var body: Bytes
    var program_offset: nat
    var record_sequence: u32
    var source_revision: u32
    var target: SlotId
    var commit_lock_error: bool
    var active_slot: Option<SlotId>
    var active_sequence: u32
    var active_payload: Bytes
    var active_payload_valid: bool
    ghost var committed: Option<SlotRecord>
    ghost var attempted: Option<SlotRecord>
    ghost var requested: SlotRecord

    predicate Busy()
      reads this`state
    {
      Underway(state)
    }

    ghost function View(): StoreView
      reads this`state, this`program_offset, this`result, this`committed, this`attempted, this`requested
    {
      StoreView(state, Rank(), result, committed, attempted, requested)
    }

    // The target slot is being rewritten.
    predicate Writing()
      reads this`state
    {
      Busy() && state != Prepare && state != ErasePage0
    }

    ghost function TargetBytes(): (s: Bytes)
      reads this`target, device`image
      ensures |s| == SLOT_SIZE
    {
      SlotOf(device.image, target)
    }

    // The working copies of the active record.
    ghost predicate ActiveKnown()
      reads this`active_slot, this`active_sequence, this`active_payload, this`active_payload_valid, this`committed
    {
      if active_slot.None? then !active_payload_valid && committed.None?
      else
        && committed.Some? && active_sequence == committed.value.sequence != 0xFFFF_FFFF
        && active_payload_valid && active_payload == committed.value.payload
    }

    // The record being written.
    ghost predicate RequestKnown()
      reads this`requested, this`body, this`record_sequence, this`target, this`active_slot, this`active_sequence
    {
      && Writable(requested) && body == Body(requested) && record_sequence == requested.sequence
      && target == TargetOf(active_slot)
      && requested.sequence == (if active_slot.None? then 1 else NextSequence(active_sequence))
    }

    // What the finished steps have made of the target slot.
    ghost predicate StepReached()
      reads this`state, this`body, this`program_offset, this`target, this`attempted, this`requested, device`image
    {
      match state
      case ErasePage1 => AllErased(TargetBytes()[..PAGE_SIZE]) && attempted.None?
      case ProgramBody =>
        && |body| == RECORD_BODY_SIZE && program_offset <= RECORD_BODY_SIZE && program_offset % 2 == 0
        && attempted.None?
        && TargetBytes()[..program_offset] == body[..program_offset] && AllErased(TargetBytes()[program_offset..])
      case VerifyBody => BodyWritten()
      case ProgramCommit => BodyWritten()
      case VerifyFinal =>
        && TargetBytes()[..RECORD_BODY_SIZE] == body && TargetBytes()[COMMIT_OFFSET..] == COMMIT_BYTES
        && attempted == Some(requested)
      case _ => true
    }

    ghost predicate BodyWritten()
      reads this`body, this`target, this`attempted, device`image
    {
      && attempted.None? && |body| == RECORD_BODY_SIZE
      && TargetBytes()[..RECORD_BODY_SIZE] == body && AllErased(TargetBytes()[RECORD_BODY_SIZE..])
    }

    ghost predicate Valid()
      reads this, device`image, device`lock_result
    {
      && Consistent(device.image, active_slot, committed, attempted)
      && ActiveKnown()
      && (Busy() ==> RequestKnown())
      && (Writing() ==> StepReached())
      && (state == Prepare || state == ErasePage0 || state == ErasePage1 ==> program_offset == 0)
      && LockNoticed()
    }

    // Whether the flash was left unlocked behind the last commit halfword.
    ghost predicate LockNoticed()
      reads this`state, this`commit_lock_error, device`lock_result
    {
      && (Busy() && state != VerifyFinal ==> !commit_lock_error)
      && (state == VerifyFinal ==> commit_lock_error == (device.lock_result == LockError))
    }

    // Process calls until the operation is over.
    ghost function Rank(): (calls: nat)
      reads this`state, this`program_offset
      ensures calls <= 18
    {
      match state
      case Prepare => 18
      case ErasePage0 => 17
      case ErasePage1 => 16
      case ProgramBody =>
        if program_offset < RECORD_BODY_SIZE then 3 + (RECORD_BODY_SIZE - program_offset + 31) / 32 else 4
      case VerifyBody => 3
      case ProgramCommit => 2
      case VerifyFinal => 1
      case _ => 0
    }

    constructor Init(device: Device)
      ensures this.device == device && fresh(this)
      ensures View() == Started(None) && active_slot.None? && !active_payload_valid
    {
      this.device := device;
      state, operation, result := Idle, NoOperation, NoResult;
      body, program_offset, record_sequence, source_revision := [], 0, 0, 0;
      target, commit_lock_error := SlotA, false;
      active_slot, active_sequence, active_payload, active_payload_valid := None, 0, [], false;
      committed, attempted := None, None;
      requested := SlotRecord(0, 0, 0, []);
    }

    // ---- reading a slot ----------------------------------------------------------------------

    method ReadStoredSlot(slot: SlotId) returns (read: SlotRead)
      modifies device`received, device`troubles, device`failed_reads
      ensures device.failed_reads == old(device.failed_reads) + if read == IoError then 1 else 0
      ensures read == IoError || read == ReadSlot(SlotOf(device.image, slot))
      ensures var s := SlotOf(device.image, slot);
              read.Valid? ==>
                && |read.record.payload| <= COMMIT_OFFSET - HEADER_SIZE
                && device.received ==
                   old(device.received) + s[COMMIT_OFFSET..] + s[..HEADER_SIZE + |read.record.payload|]
                && PersistentCodec.Decode(read.record.schema, read.record.payload).Restored?
      ensures device.troubles == old(device.troubles) + if read == IoError then 1 else 0
    {
      hide ReadSlot, PersistentCodec.Decode, Get, At, HeaderFixed, SchemaKnown, LengthAndSequenceFit, Covered,
        Crc32Bytes, RecordAt, SlotOf;
      ghost var s := SlotOf(device.image, slot);
      var io, commit := device.Read(slot, COMMIT_OFFSET, 4);
      if io != FlashOk { return IoError; }
      Verdict(s);
      if Get(commit) != COMMIT_MARKER { return Empty; }
      var header: Bytes;
      io, header := device.Read(slot, 0, HEADER_SIZE);
      if io != FlashOk { return IoError; }
      HeaderInHand(s, header);
      if Get(header[0..4]) != MAGIC || Get(header[4..6]) != FORMAT_VERSION || Get(header[8..10]) != HEADER_SIZE
         || Get(header[24..28]) != 0 || Get(header[28..32]) != 0 {
        return Corrupt;
      }
      var schema, length, sequence := Get(header[6..8]), Get(header[10..12]), Get(header[12..16]);
      if schema != PersistentCodec.SCHEMA_V1 && schema != PersistentCodec.SCHEMA_V2 {
        return Unsupported;
      }
      if (schema == PersistentCodec.SCHEMA_V1 && length != PersistentCodec.V1_PAYLOAD_SIZE)
         || (schema == PersistentCodec.SCHEMA_V2 && length != PersistentCodec.V2_PAYLOAD_SIZE)
         || HEADER_SIZE + length > COMMIT_OFFSET || sequence == 0xFFFF_FFFF {
        return Corrupt;
      }
      read := ReadRecord(slot, header);
      if read.Valid? { ReadInOrder(old(device.received), s, |read.record.payload|); }
    }

    // The rest of a slot whose marker and header are in order.
    method ReadRecord(slot: SlotId, header: Bytes) returns (read: SlotRead)
      requires var s := SlotOf(device.image, slot);
        && header == s[..HEADER_SIZE] && At(s, COMMIT_OFFSET, 4) == COMMIT_MARKER
        && HeaderFixed(s) && SchemaKnown(s) && LengthAndSequenceFit(s)
      modifies device`received, device`troubles, device`failed_reads
      ensures device.failed_reads == old(device.failed_reads) + if read == IoError then 1 else 0
      ensures device.troubles == old(device.troubles) + if read == IoError then 1 else 0
      ensures read == IoError || read == ReadSlot(SlotOf(device.image, slot))
      ensures read.Valid? ==>
        && var end := HEADER_SIZE + |read.record.payload|;
        && end <= COMMIT_OFFSET && read.record.payload == SlotOf(device.image, slot)[HEADER_SIZE..end]
        && device.received == old(device.received) + read.record.payload
        && PersistentCodec.Decode(read.record.schema, read.record.payload).Restored?
    {
      hide Crc32.Folded, BitsOf, StoredWord, PersistentCodec.Decode, Get, Crc32.Xor, ReadSlot, HeaderFixed, SchemaKnown,
        LengthAndSequenceFit, Covered, SlotOf;
      ghost var s := SlotOf(device.image, slot);
      HeaderInHand(s, header);
      Verdict(s);
      var schema, length := Get(header[6..8]), Get(header[10..12]);
      var payload, crc;
      var io: FlashResult;
      io, payload, crc := ReadPayload(slot, header, length);
      if io != FlashOk { return IoError; }
      if StoredWord(Crc32.Xor(crc, Crc32.CRC32_FINAL_XOR)) != header[20..24] { return Corrupt; }
      if PersistentCodec.Decode(schema, payload).DecodeError? { return ValidationError; }
      return SlotRead.Valid(SlotRecord(AsU16(schema), AsU32(Get(header[12..16])), AsU32(Get(header[16..20])), payload));
    }

    lemma ReadInOrder(before: Bytes, s: Bytes, length: nat)
      requires |s| == SLOT_SIZE && HEADER_SIZE + length <= COMMIT_OFFSET
      ensures before + s[COMMIT_OFFSET..COMMIT_OFFSET + 4] + s[0..HEADER_SIZE] + s[HEADER_SIZE..HEADER_SIZE + length]
           == before + s[COMMIT_OFFSET..] + s[..HEADER_SIZE + length]
    {
      assert s[COMMIT_OFFSET..COMMIT_OFFSET + 4] == s[COMMIT_OFFSET..];
      assert s[0..HEADER_SIZE] + s[HEADER_SIZE..HEADER_SIZE + length] == s[..HEADER_SIZE + length];
    }

    // The payload in chunks, and the checksum state over header and payload.
    method ReadPayload(slot: SlotId, header: Bytes, length: nat) returns (io: FlashResult, payload: Bytes, crc: bv32)
      requires HEADER_SIZE + length <= COMMIT_OFFSET && header == SlotOf(device.image, slot)[..HEADER_SIZE]
      modifies device`received, device`troubles, device`failed_reads
      ensures device.troubles == old(device.troubles) + if io == FlashOk then 0 else 1
      ensures device.failed_reads == old(device.failed_reads) + if io == FlashOk then 0 else 1
      ensures io == FlashOk ==>
        && payload == SlotOf(device.image, slot)[HEADER_SIZE..HEADER_SIZE + length]
        && device.received == old(device.received) + payload
        && crc == Crc32.Folded(Crc32.CRC32_INITIAL_STATE, BitsOf(Covered(SlotOf(device.image, slot), length)))
    {
      hide Crc32.Folded, BitsOf, ReadSlot, Covered, SlotOf;
      ghost var s := SlotOf(device.image, slot);
      crc := Crc32.Update(Crc32.CRC32_INITIAL_STATE, BitsOf(header[..CRC_OFFSET]));
      crc := Crc32.Update(crc, BitsOf(header[CRC_OFFSET + 4..]));
      FoldedBytes(header[..CRC_OFFSET], header[CRC_OFFSET + 4..]);
      CoveredGrows(s, header, 0, 0);
      payload := [];
      io := FlashOk;
      var offset := 0;
      while offset < length
        invariant 0 <= offset <= length
        invariant payload == s[HEADER_SIZE..HEADER_SIZE + offset]
        invariant device.received == old(device.received) + payload
        invariant device.troubles == old(device.troubles) && device.failed_reads == old(device.failed_reads)
        invariant crc == Crc32.Folded(Crc32.CRC32_INITIAL_STATE, BitsOf(Covered(s, offset)))
      {
        var chunk := if length - offset > VERIFY_CHUNK_SIZE then VERIFY_CHUNK_SIZE else length - offset;
        var data;
        io, data := device.Read(slot, HEADER_SIZE + offset, chunk);
        if io != FlashOk { return; }
        crc := Crc32.Update(crc, BitsOf(data));
        FoldedBytes(Covered(s, offset), data);
        CoveredGrows(s, header, offset, chunk);
        ChunkJoins(old(device.received), s, HEADER_SIZE, HEADER_SIZE + offset, HEADER_SIZE + offset + chunk);
        payload := payload + data;
        offset := offset + chunk;
      }
      io := FlashOk;
    }

    lemma ChunkJoins(before: Bytes, s: Bytes, from: nat, middle: nat, to: nat)
      requires from <= middle <= to <= |s|
      ensures s[from..middle] + s[middle..to] == s[from..to]
      ensures before + s[from..middle] + s[middle..to] == before + s[from..to]
    {
      assert s[from..middle] + s[middle..to] == s[from..to];
    }

    // ---- restart -------------------------------------------------------------------------------

    // Called once after Init.  A slot that cannot be read counts as not valid, so
    // only a restart whose reads succeed is sure to find the record it should.
    method Load() returns (loaded: LoadResult, config: Option<PersistentCodec.Decoded>, a: SlotRead, b: SlotRead)
      requires state == Idle && active_slot.None? && committed.None? && !active_payload_valid
      modifies this`active_slot, this`active_sequence, this`active_payload, this`active_payload_valid
      modifies this`committed, this`attempted, device`received, device`troubles, device`failed_reads
      ensures device.troubles >= old(device.troubles) && device.failed_reads >= old(device.failed_reads)
      ensures a == IoError || b == IoError ==> device.troubles > old(device.troubles)
      ensures a == IoError || b == IoError <==> device.failed_reads > old(device.failed_reads)
      ensures loaded == Choose(a, b).result && active_slot == Choose(a, b).selected
      ensures a == IoError || a == ReadSlot(device.image.a)
      ensures b == IoError || b == ReadSlot(device.image.b)
      ensures loaded != LoadIoError ==> Valid()
      ensures a != IoError && b != IoError ==>
                loaded != LoadIoError && committed == Recovered(device.image) && attempted.None?
      ensures committed.Some? ==>
                config == Some(PersistentCodec.Decode(committed.value.schema, committed.value.payload))
      // What it hands out has decoded.
      ensures config.Some? ==> config.value.Restored?
      ensures committed.None? <==> active_slot.None?
      ensures active_slot.Some? ==>
                var read := if active_slot.value == SlotA then a else b; read.Valid? && committed == Some(read.record)
      ensures committed.None? ==> config.None?
    {
      hide ReadSlot, PersistentCodec.Decode, Recovered, RequestKnown, StepReached;
      a := ReadStoredSlot(SlotA);
      b := ReadStoredSlot(SlotB);
      var choice := Choose(a, b);
      loaded, config := choice.result, None;
      attempted := None;
      RecoveredFromA(device.image);
      if choice.selected.None? {
        return;
      }
      var slot := choice.selected.value;
      var selected := if slot == SlotA then a.record else b.record;
      config := Some(PersistentCodec.Decode(selected.schema, selected.payload));
      Activate(slot, selected);
      RecoveredFrom(device.image, slot);
    }

    // The selected record is the active one.
    method Activate(slot: SlotId, selected: SlotRecord)
      requires state == Idle && ReadSlot(SlotOf(device.image, slot)) == SlotRead.Valid(selected)
      modifies this`active_slot, this`active_sequence, this`active_payload, this`active_payload_valid
      modifies this`committed, this`attempted
      ensures Valid() && active_slot == Some(slot) && committed == Some(selected)
      ensures var other := ReadSlot(SlotOf(device.image, Other(slot)));
        attempted == if other.Valid? && Overrides(slot, selected, other.record) then Some(other.record) else None
    {
      hide ReadSlot, RequestKnown, StepReached;
      ValidSequence(SlotOf(device.image, slot));
      active_slot, active_sequence := Some(slot), selected.sequence;
      active_payload, active_payload_valid := selected.payload, true;
      committed, attempted := Some(selected), None;
      ghost var other := ReadSlot(SlotOf(device.image, Other(slot)));
      if other.Valid? && Overrides(slot, selected, other.record) {
        attempted := Some(other.record);
      }
    }

    // ---- requests --------------------------------------------------------------------------------

    // The active slot already holds these very payload bytes.
    ghost predicate Stored(payload: Bytes)
      requires Valid()
      reads this, device`image, device`lock_result
    {
      && active_slot.Some? && HEADER_SIZE + |committed.value.payload| <= SLOT_SIZE
      && SlotOf(device.image, active_slot.value)[HEADER_SIZE..HEADER_SIZE + |committed.value.payload|] == payload
    }

    method Request(config: DeviceConfig, runtime: RuntimeState, revision: u32, requested_operation: Operation,
                   flags: u32)
      returns (accepted: bool)
      requires Valid()
      modifies this
      ensures Valid() && active_slot == old(active_slot)
      ensures RequestMoves(old(View()), config, runtime, revision, requested_operation, flags, View())
      ensures old(state) != Idle || revision == 0xFFFF_FFFF ==>
        !accepted && state == old(state) && result == old(result) && requested == old(requested)
      ensures old(state) == Idle && revision != 0xFFFF_FFFF ==>
        var encoded := PersistentCodec.EncodeV2(config, runtime, PersistentCodec.V2_PAYLOAD_SIZE);
        && (accepted <==> encoded.Payload?)
        && (!accepted ==> state == Error && result == Invalid)
        && (accepted ==> operation == requested_operation && source_revision == revision)
        && (accepted && requested_operation == Save && old(Stored(encoded.bytes)) ==>
              state == Complete && result == NoChange)
        && (accepted && !(requested_operation == Save && old(Stored(encoded.bytes))) ==>
              && state == Prepare && result == InProgress
              && requested == SlotRecord(PersistentCodec.SCHEMA_V2, NextFor(committed), flags, encoded.bytes)
              && (if committed.None? then requested.sequence == 1
                  else IsSequenceNewer(requested.sequence, committed.value.sequence)))
    {
      hide ReadSlot, Consistent, PersistentCodec.Decode, PersistentCodec.DecodeV2, PersistentCodec.EncodeV2,
        PersistentCodec.AfterRestart, Body, Valid, Begun;
      if state != Idle || revision == 0xFFFF_FFFF {
        return false;
      }
      var encoded := PersistentCodec.EncodeV2(config, runtime, PersistentCodec.V2_PAYLOAD_SIZE);
      if encoded.EncodeError? {
        Fail(Invalid);
        return false;
      }
      PersistentCodec.RoundTrip(config, runtime, PersistentCodec.V2_PAYLOAD_SIZE);
      DecodesAsV2(encoded.bytes);
      StoredMeansActive(encoded.bytes);
      NextIsNewer();
      hide Stored;
      SaveOrSkip(encoded.bytes, revision, requested_operation, flags);
      accepted := true;
    }

    method Fail(failure: OperationResult)
      requires Valid()
      modifies this`state, this`result
      ensures Valid() && state == Error && result == failure
    {
      hide ReadSlot, Consistent, StepReached, RequestKnown;
      result, state := failure, Error;
    }

    // A save of what is already there ends at once.
    method SaveOrSkip(payload: Bytes, revision: u32, requested_operation: Operation, flags: u32)
      requires Valid() && state == Idle
      requires |payload| == PersistentCodec.V2_PAYLOAD_SIZE
      requires PersistentCodec.Decode(PersistentCodec.SCHEMA_V2, payload).Restored?
      modifies this`state, this`operation, this`result, this`source_revision, this`record_sequence, this`body
      modifies this`requested,
        this`program_offset, this`target, this`commit_lock_error
      ensures Valid() && operation == requested_operation && source_revision == revision
      ensures var same := requested_operation == Save && active_payload_valid && payload == active_payload;
        && (same ==> state == Complete && result == NoChange)
        && (!same ==> state == Prepare && result == InProgress)
        && (!same ==> requested == SlotRecord(PersistentCodec.SCHEMA_V2, NextFor(committed), flags, payload))
      ensures View() == Begun(old(View()), requested_operation, flags, payload)
    {
      hide ReadSlot, Consistent, PersistentCodec.Decode, Body, StepReached, RequestKnown;
      assert active_payload_valid && payload == active_payload <==>
             committed.Some? && committed.value.payload == payload;
      hide ActiveKnown;
      source_revision, operation := revision, requested_operation;
      if operation == Save && active_payload_valid && payload == active_payload {
        result, state := NoChange, Complete;
      } else {
        StartRecord(payload, flags);
      }
    }

    // Header, payload and bookkeeping of a record that will be written.
    method StartRecord(payload: Bytes, flags: u32)
      requires ActiveKnown() && |payload| == PersistentCodec.V2_PAYLOAD_SIZE
      requires PersistentCodec.Decode(PersistentCodec.SCHEMA_V2, payload).Restored?
      modifies this`state, this`result, this`record_sequence, this`body, this`requested, this`program_offset
      modifies this`target,
        this`commit_lock_error
      ensures state == Prepare && result == InProgress && program_offset == 0 && RequestKnown() && !commit_lock_error
      ensures requested == SlotRecord(PersistentCodec.SCHEMA_V2, NextFor(committed), flags, payload)
    {
      hide PersistentCodec.Decode, Body, RequestKnown, ActiveKnown, Writable, NextSequence, NextFor, TargetOf;
      StepsFromActive();
      record_sequence := if active_slot.None? then 1 else NextSequence(active_sequence);
      SequenceInRange(active_sequence);
      body := BuildBody(record_sequence, flags, payload);
      requested := SlotRecord(PersistentCodec.SCHEMA_V2, record_sequence, flags, payload);
      program_offset, target, commit_lock_error := 0, TargetOf(active_slot), false;
      result, state := InProgress, Prepare;
      RecordReady(payload, flags);
    }

    lemma StepsFromActive()
      requires ActiveKnown()
      ensures NextFor(committed) == if active_slot.None? then 1 else NextSequence(active_sequence)
    {}

    lemma RecordReady(payload: Bytes, flags: u32)
      requires |payload| == PersistentCodec.V2_PAYLOAD_SIZE && record_sequence != 0xFFFF_FFFF
      requires PersistentCodec.Decode(PersistentCodec.SCHEMA_V2, payload).Restored?
      requires requested == SlotRecord(PersistentCodec.SCHEMA_V2, record_sequence, flags, payload)
      requires body == Body(requested) && target == TargetOf(active_slot)
      requires record_sequence == (if active_slot.None? then 1 else NextSequence(active_sequence))
      ensures RequestKnown()
    {}

    lemma NextIsNewer()
      requires Valid()
      ensures if committed.None? then NextFor(committed) == 1
              else IsSequenceNewer(NextFor(committed), committed.value.sequence)
    {
      hide ReadSlot, Consistent, RequestKnown, StepReached;
      if committed.Some? { NextOverrides(SlotA, committed.value, committed.value.(sequence := NextFor(committed))); }
    }

    // Comparing with the working copy is comparing with the flash.
    lemma StoredMeansActive(payload: Bytes)
      requires Valid()
      ensures Stored(payload) <==> active_payload_valid && payload == active_payload
    {
      if active_slot.Some? { ValidPayload(SlotOf(device.image, active_slot.value)); }
      hide ReadSlot;
    }

    // The header around a payload, field by field, with its checksum.
    static method BuildBody(sequence: u32, flags: u32, payload: Bytes) returns (built: Bytes)
      requires |payload| == PersistentCodec.V2_PAYLOAD_SIZE
      ensures built == Body(SlotRecord(PersistentCodec.SCHEMA_V2, sequence, flags, payload))
    {
      var head := Put(MAGIC, 4) + Put(FORMAT_VERSION, 2) + Put(PersistentCodec.SCHEMA_V2, 2) + Put(HEADER_SIZE, 2)
                  + Put(|payload|, 2) + Put(sequence, 4) + Put(flags, 4);
      var tail := Put(0, 4) + Put(0, 4);
      var crc := Crc32.Update(Crc32.CRC32_INITIAL_STATE, BitsOf(head));
      crc := Crc32.Update(crc, BitsOf(tail));
      FoldedBytes(head, tail);
      crc := Crc32.Update(crc, BitsOf(payload));
      FoldedBytes(head + tail, payload);
      built := head + StoredWord(Crc32.Xor(crc, Crc32.CRC32_FINAL_XOR)) + tail + payload;
    }

    // ---- one Process call -----------------------------------------------------------------------

    // Power may be judged unsafe at any time.
    method PowerSafe() returns (safe: bool)
      requires Valid()
      modifies this`state, this`result, device`troubles, device`care
      ensures Valid() && device.troubles == old(device.troubles) + if safe then 0 else 1
      ensures device.care == old(device.care).(guarded := safe, checks := old(device.care.checks) + 1)
      ensures safe ==> state == old(state) && result == old(result)
      ensures !safe ==> state == Error && result == PowerUnsafe
    {
      safe := device.PowerCheck();
      if !safe { Fail(PowerUnsafe); }
    }

    // An erase step: the page is erased, or the operation has failed.
    method EraseStep(page: nat, next: StoreState)
      requires Valid() && page < 2 && state == (if page == 0 then ErasePage0 else ErasePage1)
      requires next == (if page == 0 then ErasePage1 else ProgramBody) && device.care.guarded
      modifies this`state, this`result, this`attempted
      modifies device`image, device`powered, device`operation_result, device`lock_result, device`troubles, device`care
      ensures Valid() && (state == next || (state == Error && result == IoFailure))
      ensures state == next ==> attempted.None? && result == old(result) && device.care.blank == Some((target, page))
      ensures device.care.unguarded == old(device.care.unguarded)
      ensures device.care.checks == old(device.care.checks)
      ensures state == Error ==> attempted == old(attempted) && device.troubles > old(device.troubles)
      ensures state != Error ==> device.troubles == old(device.troubles)
      ensures SlotOf(device.image, Other(target)) == old(SlotOf(device.image, Other(target)))
    {
      hide ReadSlot, Consistent, PersistentCodec.Decode, Body, AllErased, TornErase;
      var erased := EraseChecked(page);
      if !erased {
        state, result := Error, IoFailure;
      } else {
        ErasedBegins(page);
        attempted := None;
        state := next;
      }
    }

    // Erases a page of the target and reads it back.
    method EraseChecked(page: nat) returns (erased: bool)
      requires page < 2 && target == TargetOf(active_slot)
      requires Consistent(device.image, active_slot, committed, attempted)
      requires page == 1 ==> AllErased(TargetBytes()[..PAGE_SIZE])
      requires device.care.guarded
      modifies device`image, device`powered, device`operation_result, device`lock_result, device`troubles, device`care
      ensures Consistent(device.image, active_slot, committed, attempted)
      ensures SlotOf(device.image, Other(target)) == old(SlotOf(device.image, Other(target)))
      ensures if erased then device.troubles == old(device.troubles) else device.troubles > old(device.troubles)
      ensures erased ==> AllErased(TargetBytes()[page * PAGE_SIZE..(page + 1) * PAGE_SIZE])
      ensures erased && page == 1 ==> AllErased(TargetBytes()[..PAGE_SIZE])
      ensures device.care.unguarded == old(device.care.unguarded)
      ensures device.care.checks == old(device.care.checks)
      ensures erased ==> device.care.blank == Some((target, page))
    {
      hide ReadSlot, Consistent, AllErased;
      ghost var before := device.image;
      var flash_result := device.ErasePage(target, page);
      TornEraseKeeps(before, device.image, page);
      erased := false;
      if flash_result == FlashOk {
        PageIsErased(SlotOf(before, target), page);
        erased := device.IsErased(target, page);
      }
    }

    // Whatever an erase of the target leaves, no third record appears ...
    lemma TornEraseKeeps(m: Image, n: Image, page: nat)
      requires page < 2 && target == TargetOf(active_slot) && Consistent(m, active_slot, committed, attempted)
      requires SlotOf(n, Other(target)) == SlotOf(m, Other(target))
      requires TornErase(SlotOf(m, target), page, SlotOf(n, target))
      requires page == 1 ==> AllErased(SlotOf(m, target)[..PAGE_SIZE])
      ensures Consistent(n, active_slot, committed, attempted)
    {
      if page == 1 { ErasedHeaderIsNoRecord(SlotOf(n, target)); }
      TargetWritten(m, n, active_slot, committed, attempted, attempted);
    }

    // ... and once page 0 is blank the target holds none at all.
    lemma ErasedBegins(page: nat)
      requires page < 2 && target == TargetOf(active_slot)
      requires Consistent(device.image, active_slot, committed, attempted)
      requires page == 1 ==> AllErased(TargetBytes()[..PAGE_SIZE])
      requires AllErased(TargetBytes()[page * PAGE_SIZE..(page + 1) * PAGE_SIZE])
      ensures Consistent(device.image, active_slot, committed, None)
      ensures AllErased(TargetBytes()[..PAGE_SIZE]) && (page == 1 ==> AllErased(TargetBytes()[0..]))
    {
      BlankPages(TargetBytes(), page);
      ErasedHeaderIsNoRecord(TargetBytes());
      hide ReadSlot, AllErased;
      TargetWritten(device.image, device.image, active_slot, committed, attempted, None);
    }

    // Up to 16 halfwords of the body.
    method ProgramBodyStep()
      requires Valid() && state == ProgramBody && device.care.guarded
      modifies this`state, this`result, this`program_offset
      modifies device`image, device`powered, device`operation_result, device`lock_result, device`troubles, device`care
      ensures Valid() && (state == ProgramBody || state == VerifyBody || (state == Error && result == IoFailure))
      ensures ProcessMoves(old(View()), View())
      ensures state == ProgramBody ==>
                program_offset == old(program_offset) + 2 * HALFWORDS_PER_PROCESS < RECORD_BODY_SIZE
      ensures device.care.unguarded == old(device.care.unguarded)
      ensures device.care.checks == old(device.care.checks)
      ensures state != Error ==> result == old(result) && device.troubles == old(device.troubles)
      ensures state == Error ==> device.troubles > old(device.troubles)
      ensures SlotOf(device.image, Other(target)) == old(SlotOf(device.image, Other(target)))
    {
      hide ReadSlot, Consistent, RequestKnown, ActiveKnown, StepReached;
      var count := 0;
      BodySize();
      while program_offset < RECORD_BODY_SIZE && count < HALFWORDS_PER_PROCESS
        invariant state == ProgramBody && result == old(result) && Valid() && |body| == RECORD_BODY_SIZE
        invariant device.troubles == old(device.troubles)
        invariant device.care.guarded && device.care.unguarded == old(device.care.unguarded)
        invariant device.care.checks == old(device.care.checks)
        invariant 0 <= count <= HALFWORDS_PER_PROCESS
        invariant program_offset == old(program_offset) + 2 * count <= RECORD_BODY_SIZE
        invariant SlotOf(device.image, Other(target)) == old(SlotOf(device.image, Other(target)))
        decreases RECORD_BODY_SIZE - program_offset
      {
        var ok := ProgramNext();
        if !ok { return; }
        count := count + 1;
      }
      if program_offset >= RECORD_BODY_SIZE {
        BodyDone();
        state := VerifyBody;
        BodyIsWritten();
      }
    }

    lemma BodySize()
      requires Valid() && state == ProgramBody
      ensures |body| == RECORD_BODY_SIZE && program_offset <= RECORD_BODY_SIZE && program_offset % 2 == 0
    {
      hide ReadSlot, Consistent, AllErased, Body, PersistentCodec.Decode;
    }

    lemma BodyDone()
      requires Valid() && state == ProgramBody && program_offset == RECORD_BODY_SIZE
      ensures BodyWritten()
    {
      hide ReadSlot, Consistent, AllErased, Body, PersistentCodec.Decode;
      assert body[..program_offset] == body;
    }

    lemma BodyIsWritten()
      requires state == VerifyBody && BodyWritten()
      ensures StepReached()
    {
      hide ReadSlot, Consistent, AllErased;
    }

    // One halfword; on failure the operation is over.
    method ProgramNext() returns (ok: bool)
      requires Valid() && state == ProgramBody && program_offset < RECORD_BODY_SIZE && |body| == RECORD_BODY_SIZE
      requires device.care.guarded
      modifies this`state, this`result, this`program_offset
      modifies device`image, device`powered, device`operation_result, device`lock_result, device`troubles, device`care
      ensures Valid() && SlotOf(device.image, Other(target)) == old(SlotOf(device.image, Other(target)))
      ensures ok ==>
                && state == ProgramBody && result == old(result)
                && program_offset == old(program_offset) + 2 <= RECORD_BODY_SIZE
      ensures !ok ==> state == Error && result == IoFailure
      ensures device.troubles == old(device.troubles) + if ok then 0 else 1
      ensures device.care.guarded && device.care.unguarded == old(device.care.unguarded)
      ensures device.care.checks == old(device.care.checks)
    {
      hide ReadSlot, Consistent, PersistentCodec.Decode, Body, AllErased, Writable, ActiveKnown;
      ok := ProgramOne();
      if ok {
        program_offset := program_offset + 2;
      } else {
        state, result := Error, IoFailure;
      }
    }

    // The next halfword of the body, behind those already written.
    method ProgramOne() returns (ok: bool)
      requires state == ProgramBody && StepReached() && program_offset < RECORD_BODY_SIZE && device.care.guarded
      requires target == TargetOf(active_slot) && Consistent(device.image, active_slot, committed, attempted)
      modifies device`image, device`powered, device`operation_result, device`lock_result, device`troubles, device`care
      ensures Consistent(device.image, active_slot, committed, attempted)
      ensures SlotOf(device.image, Other(target)) == old(SlotOf(device.image, Other(target)))
      ensures ok ==>
                && program_offset + 2 <= RECORD_BODY_SIZE
                && TargetBytes()[..program_offset + 2] == body[..program_offset + 2]
                && AllErased(TargetBytes()[program_offset + 2..])
      ensures device.troubles == old(device.troubles) + if ok then 0 else 1
      ensures device.care.guarded && device.care.unguarded == old(device.care.unguarded)
      ensures device.care.checks == old(device.care.checks)
    {
      hide ReadSlot, Consistent, PersistentCodec.Decode, Body, AllErased, TornProgram, HalfwordProgrammed, Writable;
      ghost var before := device.image;
      HalfwordErased(TargetBytes(), program_offset);
      var flash_result := device.ProgramHalfword(target, program_offset, ProgramHalfwordOf(body, program_offset));
      TornBodyKeeps(before, device.image);
      ok := flash_result == FlashOk;
      if ok { HalfwordAdded(SlotOf(before, target), body, program_offset); }
    }

    // A halfword of the body, whatever becomes of it, makes no record: the marker
    // is still blank.
    lemma TornBodyKeeps(m: Image, n: Image)
      requires target == TargetOf(active_slot) && Consistent(m, active_slot, committed, attempted) && attempted.None?
      requires SlotOf(n, Other(target)) == SlotOf(m, Other(target))
      requires program_offset + 2 <= RECORD_BODY_SIZE && AllErased(SlotOf(m, target)[program_offset..])
      requires TornProgram(SlotOf(m, target), program_offset, SlotOf(n, target))
      ensures Consistent(n, active_slot, committed, attempted)
    {
      var s, t := SlotOf(m, target), SlotOf(n, target);
      BlankMarkerIsEmpty(s, t, program_offset);
      TargetWritten(m, n, active_slot, committed, attempted, attempted);
    }

    // The commit is reached only after the whole body was read back as written,
    // and missed only when a read failed.
    method VerifyBodyStep()
      requires Valid() && state == VerifyBody
      modifies this`state, this`result, device`received, device`troubles, device`failed_reads
      ensures device.failed_reads >= old(device.failed_reads)
      ensures Valid() && (state == ProgramCommit || (state == Error && result == VerifyFailure))
      ensures ProcessMoves(old(View()), View())
      ensures state == ProgramCommit ==>
        && result == old(result) && device.received == old(device.received) + body
        && device.troubles == old(device.troubles)
      ensures state == Error ==> device.troubles > old(device.troubles)
    {
      hide ReadSlot, Consistent, PersistentCodec.Decode, Body, AllErased, Valid;
      BodyInFlash();
      var offset := 0;
      while offset < RECORD_BODY_SIZE
        invariant 0 <= offset <= RECORD_BODY_SIZE == |body|
        invariant Valid() && state == VerifyBody && result == old(result) && body == TargetBytes()[..RECORD_BODY_SIZE]
        invariant device.received == old(device.received) + body[..offset] && device.troubles == old(device.troubles)
        invariant device.failed_reads == old(device.failed_reads)
      {
        var chunk :=
          if RECORD_BODY_SIZE - offset > VERIFY_CHUNK_SIZE then VERIFY_CHUNK_SIZE else RECORD_BODY_SIZE - offset;
        assert TargetBytes()[..RECORD_BODY_SIZE][offset..offset + chunk] == TargetBytes()[offset..offset + chunk];
        var io, data := device.Read(target, offset, chunk);
        if io != FlashOk || data != body[offset..offset + chunk] {
          Fail(VerifyFailure);
          return;
        }
        assert body[..offset] + data == body[..offset + chunk];
        offset := offset + chunk;
      }
      assert body[..offset] == body;
      CommitNext();
    }

    lemma BodyInFlash()
      requires Valid() && state == VerifyBody
      ensures |body| == RECORD_BODY_SIZE && body == TargetBytes()[..RECORD_BODY_SIZE]
    {
      hide ReadSlot, Consistent, AllErased, RequestKnown, ActiveKnown;
    }

    method CommitNext()
      requires Valid() && state == VerifyBody
      modifies this`state
      ensures Valid() && state == ProgramCommit
    {
      hide ReadSlot, Consistent, AllErased, RequestKnown, ActiveKnown;
      state := ProgramCommit;
    }

    // The two commit halfwords.  Until the second one the slot is no record; from
    // then on the store no longer knows whether it is.
    method CommitStep()
      requires Valid() && state == ProgramCommit && device.care.guarded
      modifies this`state, this`result, this`attempted, this`commit_lock_error
      modifies device`image, device`powered, device`operation_result, device`lock_result, device`troubles, device`care
      ensures Valid() && (state == VerifyFinal || (state == Error && (result == IoFailure || result == PowerUnsafe)))
      ensures state == VerifyFinal ==> result == old(result)
      ensures attempted == old(attempted) || attempted == Some(requested)
      ensures state == VerifyFinal ==> attempted == Some(requested)
      ensures state == VerifyFinal ==> device.care.checks == old(device.care.checks) + 1
      ensures device.care.unguarded == old(device.care.unguarded)
      ensures device.care.checks >= old(device.care.checks)
      ensures state == Error ==> device.troubles > old(device.troubles)
      ensures device.troubles >= old(device.troubles)
      ensures SlotOf(device.image, Other(target)) == old(SlotOf(device.image, Other(target)))
    {
      hide ReadSlot, Consistent, PersistentCodec.Decode, Body, AllErased, TornProgram, HalfwordProgrammed;
      ghost var m0 := device.image;
      CommitErased(TargetBytes());
      var flash_result := device.ProgramHalfword(target, COMMIT_OFFSET, COMMIT_LOW_HALFWORD);
      TornLowKeeps(m0, device.image);
      if flash_result != FlashOk {
        state, result := Error, IoFailure;
        return;
      }
      var safe := device.PowerCheck();
      if !safe {
        state, result := Error, PowerUnsafe;
        return;
      }
      CommitHigh(SlotOf(m0, target));
    }

    // The halfword that completes the marker.  A lock failure after it is not a
    // failure of the record.
    method CommitHigh(ghost s: Bytes)
      requires Consistent(device.image, active_slot, committed, None) && ActiveKnown() && RequestKnown()
      requires device.care.guarded && !commit_lock_error
      requires |s| == SLOT_SIZE && |body| == RECORD_BODY_SIZE && s[..RECORD_BODY_SIZE] == body
      requires AllErased(s[RECORD_BODY_SIZE..])
      requires TargetBytes() == HalfwordProgrammed(s, COMMIT_OFFSET, COMMIT_LOW_HALFWORD)
      modifies this`state, this`result, this`attempted, this`commit_lock_error
      modifies device`image, device`powered, device`operation_result, device`lock_result, device`troubles, device`care
      ensures Valid() && (state == VerifyFinal || (state == Error && result == IoFailure))
      ensures state == VerifyFinal ==> result == old(result)
      ensures attempted == Some(requested) && device.care.checks == old(device.care.checks)
      ensures device.care.unguarded == old(device.care.unguarded)
      ensures state == Error ==> device.troubles > old(device.troubles)
      ensures device.troubles >= old(device.troubles)
      ensures SlotOf(device.image, Other(target)) == old(SlotOf(device.image, Other(target)))
    {
      hide ReadSlot, Consistent, PersistentCodec.Decode, Body, AllErased, HalfwordProgrammed, RequestKnown, ActiveKnown;
      var flash_result := ProgramHigh(s);
      if flash_result == FlashOk {
        state := VerifyFinal;
      } else if device.operation_result == FlashOk && device.lock_result == LockError {
        commit_lock_error := true;
        state := VerifyFinal;
      } else {
        state, result := Error, IoFailure;
      }
    }

    method ProgramHigh(ghost s: Bytes) returns (flash_result: FlashResult)
      requires Consistent(device.image, active_slot, committed, None) && RequestKnown() && device.care.guarded
      requires |s| == SLOT_SIZE && |body| == RECORD_BODY_SIZE && s[..RECORD_BODY_SIZE] == body
      requires AllErased(s[RECORD_BODY_SIZE..])
      requires TargetBytes() == HalfwordProgrammed(s, COMMIT_OFFSET, COMMIT_LOW_HALFWORD)
      modifies this`attempted
      modifies device`image, device`powered, device`operation_result, device`lock_result, device`troubles, device`care
      ensures attempted == Some(requested) && Consistent(device.image, active_slot, committed, attempted)
      ensures flash_result == FlashOk || (device.operation_result == FlashOk && device.lock_result == LockError) ==>
                TargetBytes()[..RECORD_BODY_SIZE] == body && TargetBytes()[COMMIT_OFFSET..] == COMMIT_BYTES
      ensures device.troubles == old(device.troubles) + if flash_result == FlashOk then 0 else 1
      ensures flash_result == FlashOk ==> device.lock_result == FlashOk
      ensures device.care == old(device.care).(blank := None)
      ensures SlotOf(device.image, Other(target)) == old(SlotOf(device.image, Other(target)))
    {
      hide ReadSlot, Consistent, PersistentCodec.Decode, Body, AllErased, TornProgram, HalfwordProgrammed, RequestKnown;
      ghost var m := device.image;
      LowWritten(s);
      TargetIs();
      flash_result := device.ProgramHalfword(target, COMMIT_OFFSET + 2, COMMIT_HIGH_HALFWORD);
      attempted := Some(requested);
      TornHighKeeps(s, m, device.image);
      HighWritten(s, body);
    }

    lemma TargetIs()
      requires RequestKnown()
      ensures target == TargetOf(active_slot)
    {
      hide Writable, Body;
    }

    lemma TornLowKeeps(m: Image, n: Image)
      requires target == TargetOf(active_slot) && Consistent(m, active_slot, committed, attempted) && attempted.None?
      requires SlotOf(n, Other(target)) == SlotOf(m, Other(target))
      requires AllErased(SlotOf(m, target)[RECORD_BODY_SIZE..])
      requires TornProgram(SlotOf(m, target), COMMIT_OFFSET, SlotOf(n, target))
      ensures Consistent(n, active_slot, committed, attempted)
    {
      BlankHighIsEmpty(SlotOf(m, target), SlotOf(n, target));
      TargetWritten(m, n, active_slot, committed, attempted, attempted);
    }

    lemma TornHighKeeps(s: Bytes, m: Image, n: Image)
      requires RequestKnown() && Consistent(m, active_slot, committed, None) && attempted == Some(requested)
      requires |s| == SLOT_SIZE && |body| == RECORD_BODY_SIZE && s[..RECORD_BODY_SIZE] == body
      requires SlotOf(m, target) == HalfwordProgrammed(s, COMMIT_OFFSET, COMMIT_LOW_HALFWORD)
      requires SlotOf(n, Other(target)) == SlotOf(m, Other(target))
      requires TornProgram(SlotOf(m, target), COMMIT_OFFSET + 2, SlotOf(n, target))
      ensures Consistent(n, active_slot, committed, attempted)
    {
      var t := SlotOf(n, target);
      BodySurvives(s, SlotOf(m, target), t);
      if t[COMMIT_OFFSET..] == COMMIT_BYTES {
        WrittenReadsBack(t, requested);
      } else {
        NoMarkerIsEmpty(t);
      }
      TargetWritten(m, n, active_slot, committed, None, attempted);
    }

    // Read the record back and make it the active one.
    method VerifyFinalStep()
      requires Valid() && state == VerifyFinal
      modifies this, device`received, device`troubles, device`failed_reads
      ensures device.failed_reads >= old(device.failed_reads)
      ensures device.troubles == old(device.troubles) + if state == Error then 1 else 0
      ensures Valid() && target == old(target) && requested == old(requested)
      ensures state == Complete || (state == Error && result == VerifyFailure)
      ensures ProcessMoves(old(View()), View())
      ensures state == Complete ==>
        && result == (if device.lock_result == LockError then CommittedLockError else Success)
        && committed == Some(old(requested)) && attempted.None? && active_slot == Some(target)
        && device.received == old(device.received) + COMMIT_BYTES + body && body == old(body)
      ensures state == Error ==>
                committed == old(committed) && attempted == old(attempted) && active_slot == old(active_slot)
    {
      hide ReadSlot, Consistent, PersistentCodec.Decode, Body, AllErased, Writable, NextSequence, SlotOf, TargetOf,
        ActiveKnown, RequestKnown, StepReached;
      FinalBytes();
      var record := ReadStoredSlot(target);
      if !record.Valid? {
        state, result := Error, VerifyFailure;
        return;
      }
      Adopt();
    }

    lemma FinalBytes()
      requires Valid() && state == VerifyFinal
      ensures TargetBytes()[COMMIT_OFFSET..] == COMMIT_BYTES && |requested.payload| == PersistentCodec.V2_PAYLOAD_SIZE
      ensures TargetBytes()[..HEADER_SIZE + |requested.payload|] == body
      ensures ReadSlot(TargetBytes()) == SlotRead.Valid(requested)
      ensures commit_lock_error == (device.lock_result == LockError)
    {
      hide ReadSlot, Consistent, ActiveKnown, Body, AllErased, PersistentCodec.Decode, NextSequence, TargetOf,
        BodyWritten, SlotOf;
      WrittenReadsBack(TargetBytes(), requested);
    }

    // What the new working copies are to hold.
    lemma VerifiedCounts()
      requires Valid() && state == VerifyFinal
      ensures Consistent(device.image, Some(target), Some(requested), None)
      ensures record_sequence == requested.sequence != 0xFFFF_FFFF
      ensures HEADER_SIZE <= |body| && body[HEADER_SIZE..] == requested.payload
    {
      hide ReadSlot, Consistent, PersistentCodec.Decode, Body, NextSequence, SlotOf, AllErased, BodyWritten;
      FinalBytes();
      TargetCommitted(device.image, active_slot, committed, attempted, requested);
      BodyPayload(requested);
      SequenceInRange(active_sequence);
    }

    // The record just verified becomes the active one.
    method Adopt()
      requires Valid() && state == VerifyFinal
      modifies this`state, this`result, this`committed, this`attempted
      modifies this`active_slot, this`active_sequence, this`active_payload, this`active_payload_valid
      ensures Valid() && state == Complete
      ensures result == (if commit_lock_error then CommittedLockError else Success)
      ensures committed == Some(requested) && attempted.None? && active_slot == Some(target)
    {
      hide ReadSlot, Consistent, Body, StepReached, RequestKnown, SlotOf, NextSequence, AllErased, BodyWritten,
        PersistentCodec.Decode;
      VerifiedCounts();

      active_slot, active_sequence := Some(target), record_sequence;
      active_payload, active_payload_valid := body[HEADER_SIZE..], true;
      committed, attempted := Some(requested), None;
      result := if commit_lock_error then CommittedLockError else Success;
      state := Complete;
    }

    // One call: at most one step of the operation in progress, which ends early
    // only when the device or the power check gave trouble.
    method Process()
      requires Valid()
      modifies this, device`image, device`powered, device`operation_result, device`lock_result
      modifies device`received, device`troubles, device`failed_reads, device`care
      ensures Valid() && ProcessMoves(old(View()), View())
      ensures !old(Busy()) ==> device.image == old(device.image) && device.powered == old(device.powered)
      ensures old(Busy()) && state == Error ==> device.troubles > old(device.troubles)
      ensures device.troubles >= old(device.troubles) && device.failed_reads >= old(device.failed_reads)
      // The slot that is not the target is never touched.
      ensures target == old(target) && SlotOf(device.image, Other(target)) == old(SlotOf(device.image, Other(target)))
      ensures active_slot == if old(state) == VerifyFinal && state == Complete then Some(target) else old(active_slot)
      // Erasing goes on only after the page was found blank.
      ensures old(state) == ErasePage0 && state == ErasePage1 ==> device.care.blank == Some((target, 0))
      ensures old(state) == ErasePage1 && state == ProgramBody ==> device.care.blank == Some((target, 1))
      // The new record is read back in full before it counts.
      ensures old(state) == VerifyBody && state == ProgramCommit ==> device.received == old(device.received) + body
      ensures old(state) == VerifyFinal && state == Complete ==>
                device.received == old(device.received) + COMMIT_BYTES + body
                && result == if device.lock_result == LockError then CommittedLockError else Success
      // Nothing is written without a safe power answer in the same call, two of
      // them for the commit.
      ensures device.care.unguarded == old(device.care.unguarded)
      ensures old(state) in {ErasePage0, ErasePage1, ProgramBody, VerifyBody, ProgramCommit} ==>
                device.care.checks > old(device.care.checks)
      ensures old(state) == ProgramCommit && state == VerifyFinal ==>
                device.care.checks == old(device.care.checks) + 2
    {
      hide ReadSlot, Consistent, PersistentCodec.Decode, Body, StepReached, RequestKnown, ActiveKnown, ProcessMoves;
      device.care := device.care.(guarded := false);
      if Writes(state) {
        ghost var before := View();
        var safe := PowerSafe();
        if !safe {
          PowerBreaks(before, View());
          return;
        }
      }
      Advance();
    }

    lemma PowerBreaks(s: StoreView, t: StoreView)
      requires Underway(s.phase) && s.phase != Prepare && s.rank > 0
      requires t == s.(phase := Error, rank := 0, result := PowerUnsafe)
      ensures ProcessMoves(s, t)
    {}

    // The step of the present phase.
    method Advance()
      requires Valid() && (Writes(state) ==> device.care.guarded)
      modifies this, device`image, device`powered, device`operation_result, device`lock_result
      modifies device`received, device`troubles, device`failed_reads, device`care
      ensures Valid() && ProcessMoves(old(View()), View())
      ensures !old(Busy()) ==> device.image == old(device.image) && device.powered == old(device.powered)
      ensures old(Busy()) && state == Error ==> device.troubles > old(device.troubles)
      ensures device.troubles >= old(device.troubles) && device.failed_reads >= old(device.failed_reads)
      ensures target == old(target) && SlotOf(device.image, Other(target)) == old(SlotOf(device.image, Other(target)))
      ensures active_slot == if old(state) == VerifyFinal && state == Complete then Some(target) else old(active_slot)
      // Erasing goes on only after the page was found blank.
      ensures old(state) == ErasePage0 && state == ErasePage1 ==> device.care.blank == Some((target, 0))
      ensures old(state) == ErasePage1 && state == ProgramBody ==> device.care.blank == Some((target, 1))
      // The new record is read back in full before it counts.
      ensures old(state) == VerifyBody && state == ProgramCommit ==> device.received == old(device.received) + body
      ensures old(state) == VerifyFinal && state == Complete ==>
                device.received == old(device.received) + COMMIT_BYTES + body
                && result == if device.lock_result == LockError then CommittedLockError else Success
      ensures device.care.unguarded == old(device.care.unguarded)
      ensures device.care.checks >= old(device.care.checks)
      ensures old(state) == ProgramCommit && state == VerifyFinal ==>
                device.care.checks == old(device.care.checks) + 1
    {
      hide ReadSlot, Consistent, PersistentCodec.Decode, Body, StepReached, RequestKnown, ActiveKnown, ProcessMoves;
      ghost var before := View();
      match state {
        case Prepare => Prepared();
        case ErasePage0 =>
          EraseStep(0, ErasePage1);
          EraseMoved(before, View());
        case ErasePage1 =>
          EraseStep(1, ProgramBody);
          EraseMoved(before, View());
        case ProgramBody => ProgramBodyStep();
        case VerifyBody => VerifyBodyStep();
        case ProgramCommit =>
          CommitStep();
          CommitMoved(before, View());
        case VerifyFinal => VerifyFinalStep();
        case _ => IdleMoved(before);
      }
    }

    lemma EraseMoved(s: StoreView, t: StoreView)
      requires s.phase == ErasePage0 || s.phase == ErasePage1
      requires t.rank < s.rank && t.known == s.known && t.requested == s.requested
      requires
        || (t.phase == (if s.phase == ErasePage0 then ErasePage1 else ProgramBody)
            && t.tried.None? && t.result == s.result)
        || (t.phase == Error && t.rank == 0 && t.result == IoFailure && t.tried == s.tried)
      ensures ProcessMoves(s, t)
    {}

    lemma CommitMoved(s: StoreView, t: StoreView)
      requires s.phase == ProgramCommit && t.rank < s.rank && t.known == s.known && t.requested == s.requested
      requires
        || (t.phase == VerifyFinal && t.tried == Some(s.requested) && t.result == s.result)
        || (t.phase == Error && t.rank == 0 && (t.result == IoFailure || t.result == PowerUnsafe)
            && (t.tried == s.tried || t.tried == Some(s.requested)))
      ensures ProcessMoves(s, t)
    {}

    lemma IdleMoved(s: StoreView)
      requires !Underway(s.phase)
      ensures ProcessMoves(s, s)
    {}

    method Prepared()
      requires Valid() && state == Prepare
      modifies this`state
      ensures Valid() && state == ErasePage0 && ProcessMoves(old(View()), View())
    {
      hide ReadSlot, Consistent, RequestKnown, ActiveKnown, StepReached;
      state := ErasePage0;
    }

    method CancelPending() returns (cancelled: bool)
      requires Valid()
      modifies this`state, this`operation, this`result
      ensures Valid()
      ensures cancelled <==> old(state) == Prepare
      ensures CancelMoves(old(View()), View())
    {
      hide ReadSlot, Consistent, Body, Writable;
      if state != Prepare { return false; }
      state, operation, result := Idle, NoOperation, NoResult;
      cancelled := true;
    }

    method AcknowledgeResult()
      requires Valid()
      modifies this`state, this`operation, this`result
      ensures Valid()
      ensures AcknowledgeMoves(old(View()), View())
    {
      hide ReadSlot, Consistent, Body, Writable;
      if state == Complete || state == Error {
        state, operation, result := Idle, NoOperation, NoResult;
      }
    }
  }

  // The sequence number the next record gets.
  function NextFor(committed: Option<SlotRecord>): u32 {
    if committed.None? then 1 else NextSequence(committed.value.sequence)
  }

  lemma PageIsErased(s: Bytes, page: nat)
    requires |s| == SLOT_SIZE && page < 2
    ensures AllErased(PageErased(s, page)[page * PAGE_SIZE..(page + 1) * PAGE_SIZE])
  {}

  lemma BlankPages(t: Bytes, page: nat)
    requires |t| == SLOT_SIZE && page < 2 && (page == 1 ==> AllErased(t[..PAGE_SIZE]))
    requires AllErased(t[page * PAGE_SIZE..(page + 1) * PAGE_SIZE])
    ensures AllErased(t[..PAGE_SIZE]) && (page == 1 ==> AllErased(t) && AllErased(t[0..]))
  {
    if page == 0 {
      assert t[0..PAGE_SIZE] == t[..PAGE_SIZE];
    } else {
      assert t[0..] == t == t[..PAGE_SIZE] + t[PAGE_SIZE..2 * PAGE_SIZE];
    }
  }

  // The halfword at an even offset of a body of even length.
  function ProgramHalfwordOf(body: Bytes, offset: nat): u16
    requires offset + 2 <= |body|
  {
    var low: int, high: int := body[offset], body[offset + 1];
    low + 0x100 * high
  }

  lemma HalfwordErased(t: Bytes, offset: nat)
    requires |t| == SLOT_SIZE && offset + 2 <= SLOT_SIZE && AllErased(t[offset..])
    ensures AllErased(t[offset..offset + 2])
  {
    ErasedSlice(t[offset..], 0, 2);
    assert t[offset..][0..2] == t[offset..offset + 2];
  }

  lemma HalfwordAdded(s: Bytes, body: Bytes, offset: nat)
    requires |s| == SLOT_SIZE && |body| == RECORD_BODY_SIZE && offset + 2 <= RECORD_BODY_SIZE
    requires s[..offset] == body[..offset] && AllErased(s[offset..])
    ensures var t := HalfwordProgrammed(s, offset, ProgramHalfwordOf(body, offset));
      t[..offset + 2] == body[..offset + 2] && AllErased(t[offset + 2..])
  {
    var t := HalfwordProgrammed(s, offset, ProgramHalfwordOf(body, offset));
    assert t[offset] == body[offset] && t[offset + 1] == body[offset + 1];
    assert forall i :: 0 <= i < offset ==> t[i] == s[..offset][i] == body[..offset][i];
    ErasedSlice(s[offset..], 2, SLOT_SIZE - offset);
    assert t[offset + 2..] == s[offset..][2..SLOT_SIZE - offset];
  }

  lemma ErasedSlice(b: Bytes, from: nat, to: nat)
    requires AllErased(b) && from <= to <= |b|
    ensures AllErased(b[from..to])
  {}

  lemma BlankMarkerIsEmpty(s: Bytes, t: Bytes, offset: nat)
    requires |s| == SLOT_SIZE && offset + 2 <= RECORD_BODY_SIZE && AllErased(s[offset..]) && TornProgram(s, offset, t)
    ensures !ReadSlot(t).Valid?
  {
    assert t[COMMIT_OFFSET] == t[offset + 2..][COMMIT_OFFSET - offset - 2] == s[offset..][COMMIT_OFFSET - offset];
    assert t[COMMIT_OFFSET..][0] != COMMIT_BYTES[0];
    NoMarkerIsEmpty(t);
  }

  lemma CommitErased(t: Bytes)
    requires |t| == SLOT_SIZE && AllErased(t[RECORD_BODY_SIZE..])
    ensures AllErased(t[COMMIT_OFFSET..COMMIT_OFFSET + 2])
  {
    ErasedSlice(t[RECORD_BODY_SIZE..], COMMIT_OFFSET - RECORD_BODY_SIZE, COMMIT_OFFSET - RECORD_BODY_SIZE + 2);
    assert t[RECORD_BODY_SIZE..][COMMIT_OFFSET - RECORD_BODY_SIZE..COMMIT_OFFSET - RECORD_BODY_SIZE + 2] ==
           t[COMMIT_OFFSET..COMMIT_OFFSET + 2];
  }

  lemma BlankHighIsEmpty(s: Bytes, t: Bytes)
    requires |s| == SLOT_SIZE && AllErased(s[RECORD_BODY_SIZE..]) && TornProgram(s, COMMIT_OFFSET, t)
    ensures !ReadSlot(t).Valid?
  {
    assert t[COMMIT_OFFSET + 2] == t[COMMIT_OFFSET + 2..][0] == s[COMMIT_OFFSET + 2..][0] ==
           s[RECORD_BODY_SIZE..][COMMIT_OFFSET + 2 - RECORD_BODY_SIZE];
    assert t[COMMIT_OFFSET..][2] != COMMIT_BYTES[2];
    NoMarkerIsEmpty(t);
  }

  lemma LowWritten(s: Bytes)
    requires |s| == SLOT_SIZE && AllErased(s[RECORD_BODY_SIZE..])
    ensures AllErased(HalfwordProgrammed(s, COMMIT_OFFSET, COMMIT_LOW_HALFWORD)[COMMIT_OFFSET + 2..COMMIT_OFFSET + 4])
  {
    var t := HalfwordProgrammed(s, COMMIT_OFFSET, COMMIT_LOW_HALFWORD);
    var from := COMMIT_OFFSET + 2 - RECORD_BODY_SIZE;
    assert s[COMMIT_OFFSET + 2] == s[RECORD_BODY_SIZE..][from] == 0xFF;
    assert s[COMMIT_OFFSET + 3] == s[RECORD_BODY_SIZE..][from + 1] == 0xFF;
    assert t[COMMIT_OFFSET + 2..COMMIT_OFFSET + 4] == [0xFF, 0xFF];
  }

  lemma BodySurvives(s: Bytes, l: Bytes, t: Bytes)
    requires |s| == SLOT_SIZE && l == HalfwordProgrammed(s, COMMIT_OFFSET, COMMIT_LOW_HALFWORD)
    requires TornProgram(l, COMMIT_OFFSET + 2, t)
    ensures t[..RECORD_BODY_SIZE] == s[..RECORD_BODY_SIZE]
  {
    assert forall i :: 0 <= i < RECORD_BODY_SIZE ==>
             t[i] == t[..COMMIT_OFFSET + 2][i] == l[..COMMIT_OFFSET + 2][i] == s[i];
  }

  lemma HighWritten(s: Bytes, body: Bytes)
    requires |s| == SLOT_SIZE && |body| == RECORD_BODY_SIZE && s[..RECORD_BODY_SIZE] == body
    ensures var t := HalfwordProgrammed(HalfwordProgrammed(s, COMMIT_OFFSET, COMMIT_LOW_HALFWORD), COMMIT_OFFSET + 2,
                                        COMMIT_HIGH_HALFWORD);
      t[..RECORD_BODY_SIZE] == body && t[COMMIT_OFFSET..] == COMMIT_BYTES
  {
    var t := HalfwordProgrammed(HalfwordProgrammed(s, COMMIT_OFFSET, COMMIT_LOW_HALFWORD), COMMIT_OFFSET + 2,
                                COMMIT_HIGH_HALFWORD);
    assert forall i :: 0 <= i < RECORD_BODY_SIZE ==> t[i] == s[i] == body[i];
  }

  lemma BodyPayload(r: SlotRecord)
    ensures Body(r)[HEADER_SIZE..] == r.payload
  {
    hide HeaderHead, HeaderTail, Crc32Bytes;
  }

  lemma SequenceInRange(current: u32)
    ensures NextSequence(current) != 0xFFFF_FFFF
  {}

  lemma ValidSequence(s: Bytes)
    requires |s| == SLOT_SIZE && ReadSlot(s).Valid?
    ensures ReadSlot(s).record.sequence != 0xFFFF_FFFF
  {
    RoomValues();
    hide Get, PersistentCodec.Decode, Crc32Bytes;
  }

  lemma ValidPayload(s: Bytes)
    requires |s| == SLOT_SIZE && ReadSlot(s).Valid?
    ensures var payload := ReadSlot(s).record.payload;
      HEADER_SIZE + |payload| <= SLOT_SIZE && s[HEADER_SIZE..HEADER_SIZE + |payload|] == payload
  {
    hide Get, PersistentCodec.Decode, Crc32Bytes;
  }

  lemma DecodesAsV2(payload: Bytes)
    requires PersistentCodec.DecodeV2(payload).Restored?
    ensures PersistentCodec.Decode(PersistentCodec.SCHEMA_V2, payload).Restored?
  {}

  lemma FoldedBytes(a: Bytes, b: Bytes)
    ensures Crc32.Folded(Crc32.Folded(Crc32.CRC32_INITIAL_STATE, BitsOf(a)), BitsOf(b))
         == Crc32.Folded(Crc32.CRC32_INITIAL_STATE, BitsOf(a + b))
  {
    hide Crc32.Folded, BitsOf;
    BitsOfConcat(a, b);
    Crc32.FoldedChunks(Crc32.CRC32_INITIAL_STATE, BitsOf(a), BitsOf(b));
  }

  lemma CoveredGrows(s: Bytes, header: Bytes, offset: nat, chunk: nat)
    requires |s| == SLOT_SIZE && header == s[..HEADER_SIZE] && HEADER_SIZE + offset + chunk <= SLOT_SIZE
    ensures header[..CRC_OFFSET] + header[CRC_OFFSET + 4..] == Covered(s, 0)
    ensures Covered(s, offset) + s[HEADER_SIZE + offset..HEADER_SIZE + offset + chunk] == Covered(s, offset + chunk)
  {}

  lemma HeaderFields(s: Bytes, header: Bytes)
    requires |s| == SLOT_SIZE && header == s[0..HEADER_SIZE]
    ensures header[0..4] == s[0..4] && header[4..6] == s[4..6] && header[6..8] == s[6..8] && header[8..10] == s[8..10]
    ensures header[10..12] == s[10..12] && header[12..16] == s[12..16] && header[16..20] == s[16..20]
    ensures header[20..24] == s[20..24] && header[24..28] == s[24..28] && header[28..32] == s[28..32]
    ensures header == s[..HEADER_SIZE]
  {}

  // The verdict on a slot, check by check.
  lemma Verdict(s: Bytes)
    requires |s| == SLOT_SIZE
    ensures At(s, COMMIT_OFFSET, 4) == Get(s[COMMIT_OFFSET..COMMIT_OFFSET + 4])
    ensures At(s, COMMIT_OFFSET, 4) != COMMIT_MARKER ==> ReadSlot(s) == Empty
    ensures At(s, COMMIT_OFFSET, 4) == COMMIT_MARKER ==>
      ReadSlot(s) ==
        if !HeaderFixed(s) then Corrupt
        else if !SchemaKnown(s) then Unsupported
        else if !LengthAndSequenceFit(s) || Crc32Bytes(Covered(s, At(s, 10, 2))) != s[20..24] then Corrupt
        else if PersistentCodec.Decode(At(s, 6, 2), RecordAt(s).payload).DecodeError? then ValidationError
        else SlotRead.Valid(RecordAt(s))
  {
    hide Get, HeaderFixed, SchemaKnown, RecordAt, Covered, Crc32Bytes, PersistentCodec.Decode;
  }

  // The checks on the header that was read are the checks on the slot.
  lemma HeaderInHand(s: Bytes, header: Bytes)
    requires |s| == SLOT_SIZE && header == s[0..HEADER_SIZE]
    ensures header == s[..HEADER_SIZE] && header[20..24] == s[20..24]
    ensures HeaderFixed(s) <==>
      && Get(header[0..4]) == MAGIC && Get(header[4..6]) == FORMAT_VERSION && Get(header[8..10]) == HEADER_SIZE
      && Get(header[24..28]) == 0 && Get(header[28..32]) == 0
    ensures At(s, 6, 2) == Get(header[6..8]) && At(s, 10, 2) == Get(header[10..12])
    ensures At(s, 12, 4) == Get(header[12..16]) && At(s, 16, 4) == Get(header[16..20])
    ensures SchemaKnown(s) <==>
            At(s, 6, 2) == PersistentCodec.SCHEMA_V1 || At(s, 6, 2) == PersistentCodec.SCHEMA_V2
    ensures LengthAndSequenceFit(s) <==>
      && (At(s, 6, 2) == PersistentCodec.SCHEMA_V1 ==> At(s, 10, 2) == PersistentCodec.V1_PAYLOAD_SIZE)
      && (At(s, 6, 2) == PersistentCodec.SCHEMA_V2 ==> At(s, 10, 2) == PersistentCodec.V2_PAYLOAD_SIZE)
      && HEADER_SIZE + At(s, 10, 2) <= COMMIT_OFFSET && At(s, 12, 4) != 0xFFFF_FFFF
  {
    HeaderFields(s, header);
    hide Get;
  }
}
