// Services/config_store/flash_backend.h: the two slots as a device that may fail,
// or lose power, in the middle of any operation.  Which of its allowed outcomes
// happens is left open.
module FlashDevice {
  import opened FixedWidth
  import opened SlotFormat
  import opened SlotChoice

  datatype FlashResult =
    | FlashOk | InvalidArgument | OutOfRange | AlignmentError | UnlockError | EraseError | ProgramError
    | VerifyError | LockError

  // ---- finished operations ---------------------------------------------------------------

  predicate AllErased(b: Bytes) { forall i :: 0 <= i < |b| ==> b[i] == 0xFF }

  function ErasedBytes(n: nat): (b: Bytes)
    ensures |b| == n && AllErased(b)
  {
    seq(n, _ => 0xFF)
  }

  function PageErased(s: Bytes, page: nat): (r: Bytes)
    requires |s| == SLOT_SIZE && page < 2
    ensures |r| == SLOT_SIZE
  {
    if page == 0 then ErasedBytes(PAGE_SIZE) + s[PAGE_SIZE..] else s[..PAGE_SIZE] + ErasedBytes(PAGE_SIZE)
  }

  function HalfwordProgrammed(s: Bytes, offset: nat, value: u16): (r: Bytes)
    requires |s| == SLOT_SIZE && offset + 2 <= SLOT_SIZE
    ensures |r| == SLOT_SIZE
  {
    s[offset := value % 0x100][offset + 1 := value / 0x100]
  }

  // ---- interrupted operations --------------------------------------------------------------

  // An erase that failed or was cut short touches its own page only.  Page 0 of
  // a committed record is left as the old bytes, or so that they no longer pass
  // for a record: this is the one assumption about torn flash.
  predicate TornErase(s: Bytes, page: nat, t: Bytes)
    requires |s| == SLOT_SIZE && page < 2
  {
    && |t| == SLOT_SIZE
    && (if page == 0 then t[PAGE_SIZE..] == s[PAGE_SIZE..] else t[..PAGE_SIZE] == s[..PAGE_SIZE])
    && (page == 0 && ReadSlot(t).Valid? ==> ReadSlot(t) == ReadSlot(s))
  }

  // A halfword that failed or was cut short holds anything.
  predicate TornProgram(s: Bytes, offset: nat, t: Bytes)
    requires |s| == SLOT_SIZE && offset + 2 <= SLOT_SIZE
  {
    |t| == SLOT_SIZE && t[..offset] == s[..offset] && t[offset + 2..] == s[offset + 2..]
  }

  // ---- what the marker and the header say about a slot ---------------------------------------

  lemma NoMarkerIsEmpty(s: Bytes)
    requires |s| == SLOT_SIZE && s[COMMIT_OFFSET..] != COMMIT_BYTES
    ensures ReadSlot(s) == Empty
  {
    MarkerRead(s);
  }

  lemma ErasedHeaderIsNoRecord(s: Bytes)
    requires |s| == SLOT_SIZE && AllErased(s[..PAGE_SIZE])
    ensures !ReadSlot(s).Valid?
  {
    var magic := s[0..4];
    assert forall i :: 0 <= i < 4 ==> magic[i] == s[..PAGE_SIZE][i];
    LittleEndian.PutGet(magic);
    assert LittleEndian.Put(MAGIC, 4)[0] == 0x43;
  }

  // How carefully the flash was treated: whether the last power check of the call
  // in progress was answered safe, how many operations were begun without that,
  // the checks so far, and the page last found blank since anything was written.
  datatype Care = Care(guarded: bool, unguarded: nat, checks: nat, blank: Option<(SlotId, nat)>)

  // An operation that writes was begun.
  function WriteBegun(care: Care): Care {
    care.(unguarded := care.unguarded + if care.guarded then 0 else 1, blank := None)
  }

  class Device {
    var image: Image
    var powered: bool
    // get_last_operation_info: result of the operation itself, and of locking after it
    var operation_result: FlashResult
    var lock_result: FlashResult
    // All bytes read so far, the number of answers that were not as wished, how
    // often power has come back, and the reads that failed since then.
    ghost var received: Bytes
    ghost var troubles: nat
    ghost var restarts: nat
    ghost var failed_reads: nat
    ghost var care: Care

    constructor (initial: Image)
      ensures image == initial && powered
    {
      image, powered, operation_result, lock_result := initial, true, FlashOk, FlashOk;
      received, troubles, restarts, failed_reads := [], 0, 0, 0;
      care := Care(false, 0, 0, None);
    }

    // Power comes back: nothing changes in flash.
    method Reinitialize()
      modifies this`powered, this`operation_result, this`lock_result, this`restarts, this`failed_reads
      ensures powered && restarts == old(restarts) + 1 && failed_reads == 0
    {
      powered, operation_result, lock_result := true, FlashOk, FlashOk;
      restarts, failed_reads := restarts + 1, 0;
    }

    // The power check that the store is given.
    method PowerCheck() returns (safe: bool)
      modifies this`troubles, this`care
      ensures troubles == old(troubles) + if safe then 0 else 1
      ensures care == old(care).(guarded := safe, checks := old(care.checks) + 1)
    {
      safe := *;
      care := care.(guarded := safe, checks := care.checks + 1);
      if !safe { troubles := troubles + 1; }
    }

    method Read(slot: SlotId, offset: nat, length: nat) returns (result: FlashResult, data: Bytes)
      requires offset + length <= SLOT_SIZE
      modifies this`received, this`troubles, this`failed_reads
      ensures failed_reads == old(failed_reads) + if result == FlashOk then 0 else 1
      ensures result == FlashOk ==>
                && data == SlotOf(image, slot)[offset..offset + length]
                && received == old(received) + data && troubles == old(troubles)
      ensures result != FlashOk ==> received == old(received) && troubles == old(troubles) + 1
    {
      var fails: bool := *;
      if fails {
        troubles, failed_reads := troubles + 1, failed_reads + 1;
        return VerifyError, [];
      }
      data := SlotOf(image, slot)[offset..offset + length];
      received := received + data;
      return FlashOk, data;
    }

    method IsErased(slot: SlotId, page: nat) returns (erased: bool)
      requires page < 2
      modifies this`troubles, this`care
      ensures care == old(care).(blank := if erased then Some((slot, page)) else None)
      ensures erased ==> AllErased(SlotOf(image, slot)[page * PAGE_SIZE..(page + 1) * PAGE_SIZE])
      ensures !erased && AllErased(SlotOf(image, slot)[page * PAGE_SIZE..(page + 1) * PAGE_SIZE]) ==>
                troubles == old(troubles) + 1
      ensures erased ==> troubles == old(troubles)
    {
      var fails: bool := *;
      care := care.(blank := None);
      if fails {
        troubles := troubles + 1;
        return false;
      }
      erased := SlotOf(image, slot)[page * PAGE_SIZE..(page + 1) * PAGE_SIZE] == ErasedBytes(PAGE_SIZE);
      ghost var bytes := SlotOf(image, slot)[page * PAGE_SIZE..(page + 1) * PAGE_SIZE];
      assert AllErased(bytes) ==> bytes == ErasedBytes(PAGE_SIZE);
      care := care.(blank := if erased then Some((slot, page)) else None);
    }

    method ErasePage(slot: SlotId, page: nat) returns (result: FlashResult)
      requires page < 2
      modifies this`image, this`powered, this`operation_result, this`lock_result, this`troubles, this`care
      ensures care == WriteBegun(old(care))
      ensures SlotOf(image, Other(slot)) == old(SlotOf(image, Other(slot)))
      ensures TornErase(old(SlotOf(image, slot)), page, SlotOf(image, slot))
      ensures operation_result == FlashOk ==> SlotOf(image, slot) == PageErased(old(SlotOf(image, slot)), page)
      ensures result == if operation_result != FlashOk then operation_result else lock_result
      ensures troubles == old(troubles) + if result == FlashOk then 0 else 1
    {
      var before := SlotOf(image, slot);
      var fails: bool, cut: bool := *, *;
      operation_result, lock_result := FlashOk, FlashOk;
      care := WriteBegun(care);
      if !powered {
        operation_result, troubles := EraseError, troubles + 1;
        return operation_result;
      }
      if fails || cut {
        assert TornErase(before, page, before);
        var torn: Bytes :| |torn| == SLOT_SIZE && TornErase(before, page, torn);
        image := WithSlot(image, slot, torn);
        powered := !cut;
        operation_result, troubles := EraseError, troubles + 1;
        return operation_result;
      }
      FullEraseIsTorn(before, page);
      image := WithSlot(image, slot, PageErased(SlotOf(image, slot), page));
      var unlocked: bool := *;
      if unlocked { lock_result, troubles := LockError, troubles + 1; }
      result := lock_result;
    }

    // Legal on an erased halfword only.
    method ProgramHalfword(slot: SlotId, offset: nat, value: u16) returns (result: FlashResult)
      requires offset + 2 <= SLOT_SIZE && offset % 2 == 0
      requires AllErased(SlotOf(image, slot)[offset..offset + 2])
      modifies this`image, this`powered, this`operation_result, this`lock_result, this`troubles, this`care
      ensures care == WriteBegun(old(care))
      ensures SlotOf(image, Other(slot)) == old(SlotOf(image, Other(slot)))
      ensures TornProgram(old(SlotOf(image, slot)), offset, SlotOf(image, slot))
      ensures operation_result == FlashOk ==>
                SlotOf(image, slot) == HalfwordProgrammed(old(SlotOf(image, slot)), offset, value)
      ensures result == if operation_result != FlashOk then operation_result else lock_result
      ensures troubles == old(troubles) + if result == FlashOk then 0 else 1
    {
      var before := SlotOf(image, slot);
      var fails: bool, cut: bool := *, *;
      operation_result, lock_result := FlashOk, FlashOk;
      care := WriteBegun(care);
      if !powered {
        operation_result, troubles := ProgramError, troubles + 1;
        return operation_result;
      }
      if fails || cut {
        assert TornProgram(before, offset, before);
        var torn: Bytes :| |torn| == SLOT_SIZE && TornProgram(before, offset, torn);
        image := WithSlot(image, slot, torn);
        powered := !cut;
        operation_result, troubles := ProgramError, troubles + 1;
        return operation_result;
      }
      image := WithSlot(image, slot, HalfwordProgrammed(SlotOf(image, slot), offset, value));
      var unlocked: bool := *;
      if unlocked { lock_result, troubles := LockError, troubles + 1; }
      result := lock_result;
    }
  }

  lemma FullEraseIsTorn(s: Bytes, page: nat)
    requires |s| == SLOT_SIZE && page < 2
    ensures TornErase(s, page, PageErased(s, page))
  {
    var t := PageErased(s, page);
    if page == 0 {
      assert t[..PAGE_SIZE] == ErasedBytes(PAGE_SIZE);
      ErasedHeaderIsNoRecord(t);
    }
  }
}
