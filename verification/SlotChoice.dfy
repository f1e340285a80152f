// config_store.c: sequence numbers, and the slot a restart selects.
module SlotChoice {
  import opened FixedWidth
  import opened SlotFormat

  datatype SlotId = SlotA | SlotB

  function Other(slot: SlotId): SlotId { if slot == SlotA then SlotB else SlotA }

  // ---- sequence numbers ------------------------------------------------------------------

  function NextSequence(current: u32): u32 {
    var next := if current == 0xFFFF_FFFF then 0 else current + 1;
    if next == 0xFFFF_FFFF then 0 else next
  }

  // (int32_t)(candidate - reference) > 0, the reserved erased value excluded.
  predicate IsSequenceNewer(candidate: u32, reference: u32) {
    && candidate != reference && candidate != 0xFFFF_FFFF && reference != 0xFFFF_FFFF
    && var distance := (candidate - reference) % 0x1_0000_0000;
       distance < 0x8000_0000
  }

  function Advanced(current: u32, k: nat): u32 {
    if k == 0 then current else NextSequence(Advanced(current, k - 1))
  }

  // After k saves the number has moved by k places, or k + 1 when it passed over
  // the erased value.
  lemma {:induction false} AdvancedDistance(current: u32, k: nat)
    requires current != 0xFFFF_FFFF && k <= 0x7FFF_FFFE
    ensures Advanced(current, k) != 0xFFFF_FFFF
    ensures Advanced(current, k) == if current + k < 0xFFFF_FFFF then current + k else current + k - 0xFFFF_FFFF
  {
    if k > 0 {
      AdvancedDistance(current, k - 1);
    }
  }

  // Within 2^31 - 2 saves every later number is newer, across the wrap as well.
  lemma AdvancedIsNewer(current: u32, k: nat)
    requires current != 0xFFFF_FFFF && 1 <= k <= 0x7FFF_FFFE
    ensures IsSequenceNewer(Advanced(current, k), current) && !IsSequenceNewer(current, Advanced(current, k))
  {
    AdvancedDistance(current, k);
  }

  // One more save and the comparison turns around for some number.
  lemma AdvancedTooFar()
    ensures !IsSequenceNewer(Advanced(0xFFFF_FFFE, 0x7FFF_FFFF), 0xFFFF_FFFE)
  {
    AdvancedDistance(0xFFFF_FFFE, 0x7FFF_FFFE);
    assert Advanced(0xFFFF_FFFE, 0x7FFF_FFFF) == NextSequence(Advanced(0xFFFF_FFFE, 0x7FFF_FFFE));
  }

  // ---- selection ---------------------------------------------------------------------------

  datatype LoadResult =
    | LoadOk | NotFound | RecoveredSlotA | RecoveredSlotB | BothValid
    | LoadCorrupt | UnsupportedSchema | ValidationFailed | LoadIoError

  datatype Choice = Choice(result: LoadResult, selected: Option<SlotId>)

  function Choose(a: SlotRead, b: SlotRead): Choice {
    if a.Valid? && b.Valid? then
      Choice(BothValid, Some(if IsSequenceNewer(b.record.sequence, a.record.sequence) then SlotB else SlotA))
    else if a.Valid? then Choice(if b.Empty? then LoadOk else RecoveredSlotA, Some(SlotA))
    else if b.Valid? then Choice(if a.Empty? then LoadOk else RecoveredSlotB, Some(SlotB))
    else if a.IoError? || b.IoError? then Choice(LoadIoError, None)
    else if a.Unsupported? || b.Unsupported? then Choice(UnsupportedSchema, None)
    else if a.ValidationError? || b.ValidationError? then Choice(ValidationFailed, None)
    else if a.Corrupt? || b.Corrupt? then Choice(LoadCorrupt, None)
    else Choice(NotFound, None)
  }

  // What a restart reports.  A record is found exactly when a slot is valid: the
  // newer one of two, A when neither is newer, and the only one with a warning
  // unless the other slot is empty.  Without any, a slot that could not be read
  // weighs more than an unknown schema, that more than a payload that does not
  // decode, and that more than a damaged record.
  lemma ChooseReports(a: SlotRead, b: SlotRead)
    ensures var choice := Choose(a, b);
            && (choice.selected.Some? <==> a.Valid? || b.Valid?)
            && (choice.selected == Some(SlotA) ==> a.Valid?) && (choice.selected == Some(SlotB) ==> b.Valid?)
            && (choice.result.BothValid? <==> a.Valid? && b.Valid?)
            && (a.Valid? && b.Valid? ==>
                  (choice.selected == Some(SlotB) <==> b.record.sequence != a.record.sequence
                                                       && a.record.sequence != 0xFFFF_FFFF
                                                       && b.record.sequence != 0xFFFF_FFFF
                                                       && (b.record.sequence - a.record.sequence) % 0x1_0000_0000
                                                          < 0x8000_0000))
            && (choice.result.RecoveredSlotA? <==> a.Valid? && !b.Valid? && b != Empty)
            && (choice.result.RecoveredSlotB? <==> b.Valid? && !a.Valid? && a != Empty)
            && (choice.result.LoadOk? <==> (a.Valid? && b.Empty?) || (a.Empty? && b.Valid?))
    ensures !a.Valid? && !b.Valid? ==>
              Choose(a, b).result == if IoError in [a, b] then LoadIoError
                                     else if Unsupported in [a, b] then UnsupportedSchema
                                     else if ValidationError in [a, b] then ValidationFailed
                                     else if Corrupt in [a, b] then LoadCorrupt else NotFound
  {}

  // The two slots' bytes.
  datatype RawImage = RawImage(a: Bytes, b: Bytes)

  type Image = m: RawImage | |m.a| == SLOT_SIZE && |m.b| == SLOT_SIZE
    witness RawImage(seq(SLOT_SIZE, _ => 0xFF), seq(SLOT_SIZE, _ => 0xFF))

  function SlotOf(m: Image, slot: SlotId): (s: Bytes)
    ensures |s| == SLOT_SIZE
  {
    if slot == SlotA then m.a else m.b
  }

  function WithSlot(m: Image, slot: SlotId, s: Bytes): (r: Image)
    requires |s| == SLOT_SIZE
    ensures SlotOf(r, slot) == s && SlotOf(r, Other(slot)) == SlotOf(m, Other(slot))
  {
    if slot == SlotA then RawImage(s, m.b) else RawImage(m.a, s)
  }

  // The record a restart finds when all reads succeed.
  function Recovered(m: Image): Option<SlotRecord> {
    var choice := Choose(ReadSlot(m.a), ReadSlot(m.b));
    if choice.selected.None? then None
    else
      // The selected slot is always a valid one.
      var read := ReadSlot(SlotOf(m, choice.selected.value));
      if read.Valid? then Some(read.record) else None
  }

  // Would a record in the other slot win over `active` in slot `slot`?
  predicate Overrides(slot: SlotId, active: SlotRecord, other: SlotRecord) {
    if slot == SlotA then IsSequenceNewer(other.sequence, active.sequence)
    else !IsSequenceNewer(active.sequence, other.sequence)
  }

  // Selection seen from one valid slot.
  lemma RecoveredFrom(m: Image, slot: SlotId)
    requires ReadSlot(SlotOf(m, slot)).Valid?
    ensures var mine, other := ReadSlot(SlotOf(m, slot)), ReadSlot(SlotOf(m, Other(slot)));
      Recovered(m) == Some(if other.Valid? && Overrides(slot, mine.record, other.record)
                           then other.record else mine.record)
  {
    hide ReadSlot;
  }

  // ... and without a valid slot B.
  lemma RecoveredFromA(m: Image)
    ensures !ReadSlot(m.b).Valid? ==>
              Recovered(m) == if ReadSlot(m.a).Valid? then Some(ReadSlot(m.a).record) else None
    ensures Recovered(m).None? <==> !ReadSlot(m.a).Valid? && !ReadSlot(m.b).Valid?
  {
    hide ReadSlot;
  }

  // The next number always wins over its predecessor, whichever slot it is in.
  lemma NextOverrides(slot: SlotId, active: SlotRecord, next: SlotRecord)
    requires active.sequence != 0xFFFF_FFFF && next.sequence == NextSequence(active.sequence)
    ensures Overrides(slot, active, next) && !Overrides(Other(slot), next, active)
  {
    AdvancedIsNewer(active.sequence, 1);
    assert Advanced(active.sequence, 1) == NextSequence(Advanced(active.sequence, 0));
  }
}
