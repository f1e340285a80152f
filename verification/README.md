# Scale firmware: stored configuration, weighing and links

This project models the deterministic core of the firmware of an industrial
scale and proves what its design relies on.  All integers are the firmware's:
ranges of `int`, with wrap-around, truncation and overflow written out where
they occur.

* **Configuration store** (`ConfigStore`, `StoreRuns`, `SlotFormat`,
  `SlotChoice`, `FlashDevice`).  A record is written to the inactive one of two
  flash slots, one `Process` call at a time, so that losing power at any moment
  leaves the old record or the requested one.  The flash is a device whose
  operations may fail, be torn, or take the power with them, at every choice
  the model leaves open.  The invariant ties both slots to the record in force
  (`committed`) and to a commit whose success was never learned (`attempted`).
  A pure protocol (`StoreView` and its moves) says what a caller sees of each
  operation; `StoreRuns.Live` proves that the store on its device follows it
  through whole lives with any number of restarts, and the lemmas beside it say
  what that means for the record found.
* **Payload codec and checksums** (`PersistentCodec`, `CodecCursor`,
  `LittleEndian`, `CodecLayout`, `CodecAcceptance`, `LegacyProjection`,
  `Configuration`, `ConfigurationRules`, `Crc32`, `Crc16`, `ByteBits`).  A
  configuration as 344 bytes and back, once as byte strings with the round trips,
  once as cursors over a buffer proved against them.  `CodecLayout` says where
  each field lies, `CodecAcceptance` that nothing else is restored, and
  `ConfigurationRules` which configurations are valid, number by number.
* **Fixed-point arithmetic** (`MassMath`, `WeightMath`, `UnitConverter`,
  `CalibrationModel`).  64x64 to 128-bit multiplication, restoring division,
  rounding half away from zero, and the display grid on top of it.
* **Measurement** (`WeightFilter`, `StabilityDetector`, `RuntimeDrift`,
  `DisplayConditioner`, `ZeroTare`, `WeightEngine`, `RingBuffer`, `Averages`,
  `Median`).  State machines over unbounded streams of samples; each class keeps
  the history as ghost state and an invariant that says what the state means in
  terms of it.  Millisecond counters wrap; ghost arguments `tick` give true time.
* **Links** (`BleTransport`, `BleFrameCodec`, `BleCommandProtocol`,
  `RetryCache`, `Uart2DmaPosition`).  Transmit scheduling with rollback, the
  receive ring against an interrupt at every step, the streaming parser, the
  retry cache, and the position of a circular DMA.
* **Calibration session** (`CalibrationSession`, `RawCalibrationStability`).
  Where an applied calibration came from.

Some conventions.  Enumerations of the stored configuration are byte codes,
because a decoded record can hold any byte there.  The flash answers, the UART's
busy and accept answers, the power check, other modules' busy flags and the
result of applying a configuration are parameters or nondeterministic choices.
`SlotRecord`, `StoreView` and similar datatypes are values; everything the firmware
updates in place is a class.

Places where the code decides what can be promised:

* A commit that reached the flash although its operation reported an error is
  found by the next restart, so the promise is "the record in force or the one
  whose commit was tried" (`ConfigStore.UnreportedCommitWins`).
* One erase can be torn over a record that is still committed: that of page 0
  of the inactive slot.  `FlashDevice.TornErase` assumes that it leaves the old
  bytes or bytes that do not pass for a record.  All other torn states are
  covered by the commit marker and the order of the steps, without assumption.
* Learning in the drift compensator keeps its rate in every reachable state when
  guard and step together stay below 2^62 ug (`RuntimeDrift.Tame`), as in the only
  settings the firmware uses.  A call that fails after moving the offset does not
  restart the window; `RuntimeDriftCompensator.Overruns` says for all settings
  exactly which inputs do that, and `HugeGuardBreaksRate` is a run in which the
  rate then fails.
* The decoder cuts a division digit to its lowest byte, so different payloads can
  restore the same configuration; `CodecAcceptance.RestoredLayout` and
  `RestoredOnce` ask for digits of one byte and say that nothing else is lost
  (`HighDigitIgnored` is the case that is).
* A save is answered with "no change" without a look at the other slot; what that
  means for a restart is in `ConfigStore.NoChangeLasts`.
* The retry cache holds the last three transactions as long as no save is
  accepted while another one is still marked pending, which happens after the
  event of its end was lost (`RetryCache.LostSaves`).
* The recursive filter starts again when its 32-bit sample counter wraps; the
  bounds on its output hold across the wrap.
* A parser that keeps twelve or more bytes when it resynchronises skips the
  header test, and a full buffer drops the byte that overflows it.  Delivery of a
  stream is therefore proved for noise without a sync pair; that a delivery is a
  frame is proved for all bytes.
* A stability state with equal thresholds goes back to waiting when the spread
  is exactly at them; `StabilityDetector.StabilityDetector.StableIsSteady` asks for
  distinct ones.

`dafny verify dfyconfig.toml` checks the project.

## Model

| member | source | states |
|---|---|---|
| StoreRuns.Live | Services/config_store/config_store.c:247-523 | Over any flash contents and any sequence of requests, Process calls, cancels, acknowledgements and power cuts, each cut at any point of any flash operation: the store passes through exactly the views that the protocol allows for these events, one after another; every cut is followed by a restart that finds the record in force or the one whose commit was tried; operations break off only where flash or power check gave trouble, and there are no other restarts; the run stops early only at a restart that had a failed read; at the end the flash holds what was promised |
| StoreRuns.LiveOn | Services/config_store/config_store.c:247-523 | One event is one step of the protocol, with a restart exactly when the power went; only a Process call of a busy store can be cut |
| StoreRuns.Restart | Services/config_store/config_store.c:220-302 | Init and Load on a device that comes back: when both slots can be read, the record found is the one the image determines, and the store is sound again with nothing tried or under way |
| StoreRuns.Happens | Services/config_store/config_store.c:304-557 | Each kind of event moves the store as the protocol says, the record to be written being the one asked for with that configuration; flash and power change in Process calls of a busy store only |
| StoreRuns.Finish | Services/config_store/config_store.c:404-523 | Every accepted operation is over after at most 18 Process calls, whatever the flash does; without a failed answer of flash or power check its record is then in force |
| StoreRuns.OnlyAsked | Services/config_store/config_store.c:247-523 | Over every life: from a restart or report on, whatever comes into force, is tried or is being written was asked for by one of the events since, with its configuration encoded |
| StoreRuns.Undisturbed | Services/config_store/config_store.c:247-523 | A record in force stays so through any number of Process calls, cancels, acknowledgements and power cuts while no request comes |
| StoreRuns.FoundConfiguration | Services/config_store/config_store.c:247-362 | What is in force at the end of a life is what it began with, or decodes to the configuration and runtime state that one of its events asked to be stored |
| StoreRuns.OneStep | Services/config_store/config_store.c:304-557 | One event, with the restart after it, leaves in force the same record, the tried one or the requested one, and tries none but the requested one |
| StoreRuns.StoredConfigurationReturns | Services/config_store/config_store.c:304-362 | The payload of a saved record decodes to the configuration and runtime state that were asked to be stored, as a restart sees them |
| ConfigStore.ConsistentRecovers | Services/config_store/config_store.c:247-302 | From any image that satisfies the slot invariant a restart finds the committed record or the one attempted commit |
| ConfigStore.UnreportedCommitWins | Services/config_store/config_store.c:482-498 | A commit that landed although it was reported as failed is the record a restart finds |
| ConfigStore.NoChangeLasts | Services/config_store/config_store.c:328-339 | A record answered with no change outlives a restart if and only if the other slot holds no different record that a restart prefers, and that can only be an attempted one |
| ConfigStore.NoChangeLost | Services/config_store/config_store.c:328-339 | It need not: with the next record committed unreported in slot B, saving the payload of slot A again changes nothing and the restart finds B |
| ConfigStore.TargetWritten | Services/config_store/config_store.c:404-498 | Whatever becomes of the target slot, the invariant holds as long as the other slot is untouched and the target holds no third valid record |
| ConfigStore.TargetCommitted | Services/config_store/config_store.c:499-516 | Once the new record is verified the roles of the slots are exchanged and the invariant holds |
| ConfigStore.Store.ReadStoredSlot | Services/config_store/config_store.c:146-218 | Reading a slot in the source's order gives the status and record that the slot's bytes define, or an input/output error; a valid one has been read in full, marker, header and payload, and its payload decodes |
| ConfigStore.Store.ReadRecord | Services/config_store/config_store.c:184-217 | The rest of a slot whose marker and header are in order: chunked payload, checksum, and the payload decoded before the record counts |
| ConfigStore.Store.ReadPayload | Services/config_store/config_store.c:184-205 | The chunked read returns the payload and the checksum state over header without CRC field plus payload |
| ConfigStore.Store.Load | Services/config_store/config_store.c:247-302 | Load selects among the two slots by status and wrap-aware sequence number and leaves the store consistent with the flash; the configuration it hands out has decoded, and there is one exactly when a record was found |
| ConfigStore.Store.Activate | Services/config_store/config_store.c:288-295 | The selected slot's record becomes the active one, and the store is sound with it in force |
| ConfigStore.Store.Request | Services/config_store/config_store.c:304-362 | A request is taken only when idle, fails exactly when the configuration cannot be encoded, reports no change exactly when a save's payload equals the active slot's flash bytes, and otherwise prepares the record with the next sequence number |
| ConfigStore.Store.SaveOrSkip | Services/config_store/config_store.c:328-361 | A save of the active payload ends at once with nothing changed; everything else prepares its record |
| ConfigStore.Store.StartRecord | Services/config_store/config_store.c:337-361 | The record body, sequence number and target slot of an operation |
| ConfigStore.Store.BuildBody | Services/config_store/config_store.c:82-91 | The body is the header, the checksum of header and payload, and the payload |
| ConfigStore.Store.PowerSafe | Services/config_store/config_store.c:388-396 | An unsafe power reading ends the operation with an error |
| ConfigStore.Store.EraseStep | Services/config_store/config_store.c:415-428 | Erasing a page of the target keeps every promise about the active slot, even when the erase is torn or fails |
| ConfigStore.Store.EraseChecked | Services/config_store/config_store.c:416-418 | A page that is erased and read back blank, or trouble; either way a restart keeps its two choices |
| ConfigStore.Store.ProgramBodyStep | Services/config_store/config_store.c:429-452 | At most sixteen halfwords a call, each on erased flash, each appending to the written prefix of the body |
| ConfigStore.Store.ProgramNext | Services/config_store/config_store.c:434-448 | One halfword of the body, or an error; the active slot is untouched |
| ConfigStore.Store.ProgramOne | Services/config_store/config_store.c:434-448 | The halfword continues the written prefix of the body on flash that is blank behind it, or the step failed; either way a restart keeps its two choices |
| ConfigStore.Store.VerifyBodyStep | Services/config_store/config_store.c:453-471 | The commit is reached only after all of the body was read back as written, and is missed only when a read failed |
| ConfigStore.Store.CommitStep | Services/config_store/config_store.c:472-498 | The commit marker is written last, as two halfwords, only on a verified body |
| ConfigStore.Store.CommitHigh | Services/config_store/config_store.c:482-497 | From the second commit halfword on the attempted record may win a restart, and none but it |
| ConfigStore.Store.ProgramHigh | Services/config_store/config_store.c:482-484 | Programming the second commit halfword, however it ends, leaves the old record or the requested one to a restart |
| ConfigStore.Store.VerifyFinalStep | Services/config_store/config_store.c:499-516 | Success is reported only when reading back gives the very record, marker and body, and only then is it the active one; a flash that could not be locked again is reported as such |
| ConfigStore.Store.Process | Services/config_store/config_store.c:404-523 | Each call is one move of the protocol with fewer calls left: the record in force changes in the last phase only, and only to the requested one; one is tried in the phase before only; an operation breaks off only when flash or power check gave trouble; the slot that is not the target is never touched; nothing is erased or programmed without a safe power answer in the same call, two for the commit; an erased page was found blank, the body was read back as written and the whole record again before it counts, and success is told from a flash that stayed unlocked |
| ConfigStore.Store.Advance | Services/config_store/config_store.c:410-522 | The same for the step of the current phase, after the power check |
| ConfigStore.Store.Adopt | Services/config_store/config_store.c:507-514 | The verified record becomes the active one, and is the one requested |
| ConfigStore.Store.CancelPending | Services/config_store/config_store.c:539-546 | Only an operation that has not touched the flash can be cancelled |
| ConfigStore.Store.AcknowledgeResult | Services/config_store/config_store.c:548-557 | A finished operation returns to idle |
| ConfigStore.Store.TornEraseKeeps | Services/config_store/config_store.c:415-428 | A torn erase of the target leaves a restart its two choices |
| ConfigStore.Store.TornBodyKeeps | Services/config_store/config_store.c:429-452 | So does a torn halfword of the body |
| ConfigStore.Store.TornLowKeeps | Services/config_store/config_store.c:473-481 | So does a torn low commit halfword |
| ConfigStore.Store.TornHighKeeps | Services/config_store/config_store.c:482-498 | A torn high commit halfword shows the old record or the requested one |
| SlotFormat.WrittenReadsBack | Services/config_store/config_store.c:146-218 | A slot with the body of a record and the commit marker reads as exactly that record |
| SlotFormat.ValidSlot | Services/config_store/config_store.c:146-218 | In raw bytes: a slot is valid if and only if it ends in 54 4D 4F 43, has every fixed header byte, a schema with its own payload length, a sequence number that is not erased, the checksum of header and payload at byte 20, and a payload that decodes; a valid slot's record therefore decodes |
| SlotFormat.NotValidBecause | Services/config_store/config_store.c:158-217 | Which bytes make a slot empty, unsupported or invalid, each exactly, in the order in which the checks are made |
| SlotFormat.AlteredByteRejected | Services/config_store/config_store.c:146-218 | One altered byte anywhere in the record or its commit marker and the slot is not valid |
| SlotFormat.PayloadBurstRejected | Services/config_store/config_store.c:184-213 | Nor is it after any change inside four consecutive payload bytes |
| SlotFormat.SpareByteIgnored | Services/config_store/config_store.c:146-218 | Bytes between the record and the marker do not matter |
| SlotFormat.MarkerRead | Services/config_store/config_store.c:158-161 | The commit test is equality of the last four bytes |
| SlotFormat.HeaderReadsBack | Services/config_store/config_store.c:164-183 | Every header field is read back as written |
| SlotChoice.AdvancedIsNewer | Services/config_store/config_store.c:93-107 | One to 2^31-2 increments of a sequence number give a newer one that is never 0xFFFFFFFF |
| SlotChoice.AdvancedTooFar | Services/config_store/config_store.c:93-107 | With one increment more the comparison can fail |
| SlotChoice.NextOverrides | Services/config_store/config_store.c:93-107 | The next record always overrides the active one |
| SlotChoice.ChooseReports | Services/config_store/config_store.c:262-287 | What a restart reports of the two slots: both valid, recovered, unreadable, unknown schema, undecodable, damaged or not found, each exactly, and the newer of two modulo 2^32 |
| SlotChoice.RecoveredFrom | Services/config_store/config_store.c:262-302 | A restart finds the active record unless the other slot's overrides it |
| SlotChoice.RecoveredFromA | Services/config_store/config_store.c:262-302 | With slot B not valid, a restart finds the record of slot A, or none when A is not valid either; it finds none only then |
| FlashDevice.NoMarkerIsEmpty | Services/config_store/config_store.c:158-161 | Without the marker a slot is never valid, whatever else it holds |
| FlashDevice.ErasedHeaderIsNoRecord | Services/config_store/config_store.c:164-176 | Nor is it with an erased header |
| FlashDevice.Device.Read | Services/config_store/flash_backend.h:30-31 | A read returns the bytes of the image, or an error and no data |
| FlashDevice.Device.ErasePage | Services/config_store/flash_backend.h:32 | An erase clears its page; one that fails or is cut short may leave it torn, and never touches the other slot |
| FlashDevice.Device.ProgramHalfword | Services/config_store/flash_backend.h:33 | Programming asks for an erased halfword; one that fails or is cut short alters at most that halfword |
| PersistentCodec.RoundTrip | Services/config_store/persistent_codec.c:279-365 | Whatever the encoder accepts, the decoder restores: every canonical field, the legacy fields as projected, the tare under the retention rule |
| PersistentCodec.TareComesBack | Services/config_store/persistent_codec.c:518-597 | A stored tare is active after a restart if and only if it was active, retention over power loss is switched on, the calibration is valid and the mass is positive and at most the overload threshold; then it has its mass and the count that the display shows of it, otherwise it is gone |
| PersistentCodec.ConfigComesBack | Services/config_store/persistent_codec.c:279-365 | Every canonical field of what was stored comes back |
| PersistentCodec.NoTareAgainstTheRule | Services/config_store/persistent_codec.c:577-597 | No bytes at all restore a tare against that rule |
| PersistentCodec.MigrationShowsSame | Services/config_store/persistent_codec.c:466-516 | A schema 1 record keeps what it showed: its masses are those of its counts, its profile is taken over, and its tare is kept under its own rule, marked to be saved |
| CodecLayout.EncodedLayout | Services/config_store/persistent_codec.c:171-365 | Every field of an encoded record is at its place among the 344 bytes, little-endian, flags as 0 or 1 and reserved bytes as 0, the projected legacy fields first |
| CodecLayout.Schema1Lies | Services/config_store/persistent_codec.c:171-277 | The places of schema 1, bytes 0 to 163 |
| CodecLayout.Schema2Lies | Services/config_store/persistent_codec.c:317-359 | The places of schema 2, bytes 164 to 343 |
| CodecAcceptance.RestoredLayout | Services/config_store/persistent_codec.c:518-597 | Conversely, whatever payload is restored has every field at its place, flags of 0 or 1 and reserved bytes of 0, and with division digits of one byte it is, byte for byte, the encoding of what was restored with the tare it stored |
| CodecAcceptance.RestoredLayout1 | Services/config_store/persistent_codec.c:367-516 | The same for schema 1, whose restored configuration is the migrated one |
| CodecAcceptance.RestoredOnce | Services/config_store/persistent_codec.c:518-597 | With a tare that was kept, no other such bytes restore the same configuration and state |
| CodecAcceptance.HighDigitIgnored | Services/config_store/persistent_codec.c:546-552 | Without one-byte digits it is not so: the three upper bytes of a division digit are not looked at |
| ConfigurationRules.ValidIsRules | Services/config_store/persistent_codec.c:115-170 | A configuration is valid if and only if it obeys the rules written out number by number: line settings, limits, filters, profiles, displays that can show the capacity, class III, and calibration points |
| ConfigurationRules.RestoredObeysRules | Services/config_store/persistent_codec.c:367-597 | Whatever bytes of either schema are restored, the configuration obeys them |
| ConfigurationRules.StandardRules | Domain/measurement/metrology_standard_validator.c:19-53 | Class III is kilograms or grams, a verification interval of one display division, at most 10000 of them, and the zero setting and tracking ranges |
| ConfigurationRules.MetrologyRules | Domain/measurement/metrology_config_validator.c:27-83 | A metrology configuration is canonical exactly when capacity, ranges, enabled units, load cell, profiles and standard obey their rules |
| Configuration.DisplayOverloadIs | Domain/measurement/metrology_standard_validator.c:62-75 | The overload limit is the threshold that was set or else the capacity, and under class III the capacity and nine display divisions |
| PersistentCodec.ReencodesSame | Services/config_store/persistent_codec.c:279-365 | Storing the restored configuration again gives the same 344 bytes exactly when the tare was kept, or was already inactive and zero |
| PersistentCodec.RuntimeShowsInBytes | Services/config_store/persistent_codec.c:266-268 | Weight view, tare and tare mass can be read off the bytes, so different ones give different bytes |
| PersistentCodec.V1ReadsBack | Services/config_store/persistent_codec.c:171-277 | The 164 bytes of schema 1 read back as the fields they stand for |
| PersistentCodec.V2ReadsBack | Services/config_store/persistent_codec.c:317-359 | The 180 bytes of schema 2 read back over any base configuration |
| CodecCursor.EncodeV1Into | Services/config_store/persistent_codec.c:171-277 | The cursor writes exactly the schema 1 payload into the buffer, or fails for the same reason |
| CodecCursor.EncodeV2Into | Services/config_store/persistent_codec.c:279-365 | The cursor writes exactly the schema 2 payload, legacy projection first, or fails for the same reason |
| CodecCursor.DecodeV1From | Services/config_store/persistent_codec.c:367-516 | Reading through the cursor decodes and migrates as the byte-string definition says, for every buffer |
| CodecCursor.DecodeV2From | Services/config_store/persistent_codec.c:518-597 | Reading through the cursor, reserved bytes and flags included, gives the decoding of the bytes for every buffer |
| CodecCursor.EncodeThenDecode | Services/config_store/persistent_codec.c:279-597 | Writing through one cursor and reading through the other restores the configuration |
| CodecCursor.CodecWriter.PutByte | Services/config_store/persistent_codec.c:32-40 | A byte is appended, or the lack of room is remembered |
| CodecCursor.CodecWriter.PutDoubleWord | Services/config_store/persistent_codec.c:42-52 | Four bytes, low half before high half, are the little-endian number |
| CodecCursor.CodecWriter.PutQuadWord | Services/config_store/persistent_codec.c:54-58 | Eight bytes likewise |
| CodecCursor.CodecReader.GetByte | Services/config_store/persistent_codec.c:60-68 | The next byte, or zero and a remembered failure at the end |
| CodecCursor.CodecReader.GetQuadWord | Services/config_store/persistent_codec.c:70-89 | Words put together low half first are the little-endian number of the next eight bytes, those behind the end counting as zeros and failing the cursor |
| CodecCursor.CodecReader.GetBool | Services/config_store/persistent_codec.c:91-100 | A flag is accepted exactly when it is there, is 0 or 1, and nothing has failed before |
| CodecCursor.CodecReader.GetReserved | Services/config_store/persistent_codec.c:102-113 | Reserved bytes are accepted exactly when all are there and zero and nothing has failed before; the first that is not zero stops the cursor right behind it |
| LittleEndian.ParseEncode | Services/config_store/persistent_codec.c:32-89 | Fields written one after another are read back one after another |
| LittleEndian.ParseInjective | Services/config_store/persistent_codec.c:60-89 | Byte strings of one layout with equal fields are equal |
| LegacyProjection.ProjectConfigIdempotent | Domain/measurement/metrology_legacy_projection.c:8-159 | Projecting a projected configuration changes nothing |
| LegacyProjection.ProjectedShows | Domain/measurement/metrology_legacy_projection.c:8-159 | Every projected mass is the count that the display shows of its canonical mass, and the other legacy fields are those of the active display and profile |
| LegacyProjection.ProjectedTareShows | Domain/measurement/metrology_legacy_projection.c:8-159 | So is the tare; its projection fails exactly when it is active and has no such count within int32 |
| LegacyProjection.ProjectConfigCanonical | Domain/measurement/metrology_legacy_projection.c:8-159 | A projection changes legacy fields only |
| Crc32.Update | Services/crc32/crc32.c:5-24 | The byte and bit loops compute the fold of the data over the state |
| Crc32.Calculate | Services/crc32/crc32.c:26-30 | The checksum of the whole data |
| Crc32.CheckValue | Services/crc32/crc32.c:5-30 | The digits 1 to 9 give 0xCBF43926, the check value of this CRC |
| Crc32.FoldedChunks | Services/crc32/crc32.c:5-24 | Feeding data in pieces is feeding it at once |
| Crc32.FoldedInjective | Services/crc32/crc32.c:5-24 | Different states stay different under the same data |
| Crc32.OneByteDetected | Services/crc32/crc32.c:5-24 | One altered byte changes the checksum |
| Crc32.BurstDetected | Services/crc32/crc32.c:5-24 | So does any change inside four consecutive bytes |
| Crc16.Update | Protocol/crc16/crc16.c:5-20 | The loops compute the fold of the data over the state |
| Crc16.CheckValue | Protocol/crc16/crc16.c:5-20 | The digits 1 to 9 give 0x4B37, the check value of this CRC |
| Crc16.Residue | Protocol/crc16/crc16.c:5-20 | Data followed by its own checksum, low byte first, leaves zero (MODBUS over Serial Line V1.02, section 6.2.2) |
| Crc16.ResidueOnlyOwnCrc | Protocol/crc16/crc16.c:5-20 | And no other two bytes do |
| MassMath.MultiplyWide | Domain/measurement/mass_math.c:18-38 | The shift-and-add loop gives the exact 128-bit product of any two 64-bit numbers |
| MassMath.DivideWideRounded | Domain/measurement/mass_math.c:40-74 | The restoring division gives the quotient rounded half up, and fails exactly when there is none in 64 bits |
| MassMath.MulDivRound | Domain/measurement/mass_math.c:100-123 | Succeeds exactly when the divisor is not zero and value times multiplier over divisor, rounded half away from zero, fits; and then returns it, for all inputs including the least one |
| MassMath.RoundHalfAwayIsNearest | Domain/measurement/mass_math.c:66-73 | The rounded quotient is a nearest integer, on a tie the one further from zero |
| MassMath.NearestAwayFromZeroIsUnique | Domain/measurement/mass_math.c:66-73 | There is no other such integer |
| MassMath.Quantize | Domain/measurement/mass_math.c:125-133 | Computes the nearest multiple of the division |
| MassMath.QuantizedIs | Domain/measurement/mass_math.c:125-133 | Fails exactly on a bad division or a multiple that does not fit |
| MassMath.QuantizeIdempotent | Domain/measurement/mass_math.c:125-133 | Quantizing twice is quantizing once |
| MassMath.RoundHalfAwayMonotone | Domain/measurement/mass_math.c:100-123 | Rounding keeps the order of numerators |
| MassMath.Add | Domain/measurement/mass_math.c:76-82 | The sum, exactly when it fits int64 |
| MassMath.Subtract | Domain/measurement/mass_math.c:84-91 | The difference, exactly when it fits int64 |
| MassMath.Magnitude | Domain/measurement/mass_math.c:12-16 | The magnitude of any int64, the least one included |
| WeightMath.DivideRoundNearestIs | Domain/measurement/weight_math.c:13-49 | The remainder test is rounding half away from zero, and fails exactly when the result does not exist in int64 |
| WeightMath.TruncQuotientIs | Domain/measurement/weight_math.c:13-49 | Quotient and remainder are those of C: the quotient nearest to zero, the remainder with the sign of the numerator |
| UnitConverter.GridRoundTrip | Domain/measurement/unit_converter.c:30-57 | Count to mass to count is the identity on every count on the grid whose mass fits |
| UnitConverter.SmallCountReturns | Domain/measurement/unit_converter.c:30-57 | Every count of 32 bits has a mass, which shows that very count |
| UnitConverter.UnitsAre | Domain/measurement/unit_converter.c:10-39 | One kilogram is a thousand grams, and a pound is 453.59237 grams, in micrograms |
| UnitConverter.GridError | Domain/measurement/unit_converter.c:41-57 | Mass to count succeeds exactly for a known unit, at most five decimals and a division of 1, 2 or 5, lands on the grid, and is off by at most half a division plus half a count |
| UnitConverter.GridMonotone | Domain/measurement/unit_converter.c:41-57 | A heavier mass never shows a smaller count |
| UnitConverter.QuantizedFixedPoint | Domain/measurement/unit_converter.c:51-56 | Counts on the grid are not moved by quantization |
| RuntimeDrift.RuntimeDriftCompensator.Process | Domain/measurement/runtime_drift_compensator.c:160-238 | Keeps all bounds of the compensator; fails exactly when a sum or difference it needs does not exist; the offset moves only when a tracking window closes: not at all within the deadband, beyond it by the smaller of error and step towards the window's mean, cut at the limit; the plateau is the mean of the arming window; guard and freezes follow their rules; until a window ends its samples are summed; the offset outruns its clock exactly when the corrected mass does not exist; a load change only counts until it freezes |
| RuntimeDrift.RuntimeDriftCompensator.RulesFollow | Domain/measurement/runtime_drift_compensator.c:129-238 | Those rules for offset, plateau, freezes and guard, from fields and history before the input |
| RuntimeDrift.RuntimeDriftCompensator.Take | Domain/measurement/runtime_drift_compensator.c:171-238 | What an initialised compensator does with an input |
| RuntimeDrift.RuntimeDriftCompensator.Teach | Domain/measurement/runtime_drift_compensator.c:180-238 | The part of Process for a stable input that may teach |
| RuntimeDrift.RuntimeDriftCompensator.Awaken | Domain/measurement/runtime_drift_compensator.c:181-182 | The first such input after a freeze opens an arming window |
| RuntimeDrift.RuntimeDriftCompensator.Pass | Domain/measurement/runtime_drift_compensator.c:171-180 | Any other input leaves what was learned and freezes, unless limited or disabled |
| RuntimeDrift.RuntimeDriftCompensator.Run | Domain/measurement/runtime_drift_compensator.c:160-238 | With tame settings, over any run of inputs with non-decreasing time, whatever the calls answer: offset times window is at most the largest step times the time since the reset, nothing is learned before arming plus one window, and the offset never leaves its limit |
| RuntimeDrift.RuntimeDriftCompensator.Rate | Domain/measurement/runtime_drift_compensator.c:160-238 | The same bound in every reachable state of a compensator with tame settings |
| RuntimeDrift.RuntimeDriftCompensator.TameFits | Domain/measurement/runtime_drift_compensator.c:215-228 | With tame settings the corrected mass of a closing window always exists |
| RuntimeDrift.CorrectionFits | Domain/measurement/runtime_drift_compensator.c:215-228 | When guard and step together stay below 2^62, no correction takes the last sample of a window out of int64 |
| RuntimeDrift.LastIsModerate | Domain/measurement/runtime_drift_compensator.c:184-201 | A sample that was summed with others within such a guard is at least a step away from both ends of int64 |
| RuntimeDrift.HugeGuardBreaksRate | Domain/measurement/runtime_drift_compensator.c:215-228 | Four inputs on accepted settings with a huge guard after which the offset has moved faster than its rate |
| RuntimeDrift.RuntimeDriftCompensator.HoldLoadChange | Domain/measurement/runtime_drift_compensator.c:184-192 | A load step held beyond the guard freezes learning with its load_change_samples-th sample, the offset unmoved |
| RuntimeDrift.RuntimeDriftCompensator.ApplyOffset | Domain/measurement/runtime_drift_compensator.c:129-158 | The new offset is the clamped correction of that plateau error, limited exactly when it reaches the maximum, and unmoved within the deadband |
| RuntimeDrift.RuntimeDriftCompensator.NextWindow | Domain/measurement/runtime_drift_compensator.c:229-235 | After a correction the next window starts with the corrected mass as its reference, unless the limit is reached |
| RuntimeDrift.RuntimeDriftCompensator.CloseWindow | Domain/measurement/runtime_drift_compensator.c:215-235 | A closed window corrects once and starts the next; the offset outruns the clock exactly when the last subtraction overflows, which tame settings exclude |
| RuntimeDrift.RuntimeDriftCompensator.Learn | Domain/measurement/runtime_drift_compensator.c:203-237 | Arming ends with the mean as plateau, tracking with a correction |
| RuntimeDrift.RuntimeDriftCompensator.AddGuarded | Domain/measurement/runtime_drift_compensator.c:194-201 | The sum stays within count times guard of the reference |
| RuntimeDrift.RuntimeDriftCompensator.CountLoadChange | Domain/measurement/runtime_drift_compensator.c:184-192 | The last counted sample beyond the guard freezes |
| RuntimeDrift.RuntimeDriftCompensator.AddSample | Domain/measurement/runtime_drift_compensator.c:32-43 | Adds to sum and count, or fails and changes nothing |
| RuntimeDrift.RuntimeDriftCompensator.Init | Domain/measurement/runtime_drift_compensator.c:63-81 | Accepts settings exactly when all are positive but the deadband, which is not negative, and starts with nothing learned |
| RuntimeDrift.RuntimeDriftCompensator.SetEnabled | Domain/measurement/runtime_drift_compensator.c:83-98 | Switching either way forgets what was learned |
| RuntimeDrift.RuntimeDriftCompensator.Reset | Domain/measurement/runtime_drift_compensator.c:100-107 | So does a reset, with its reason |
| RuntimeDrift.RuntimeDriftCompensator.Freeze | Domain/measurement/runtime_drift_compensator.c:109-117 | A freeze keeps the offset and restarts the phase, unless limited |
| RuntimeDrift.RuntimeDriftCompensator.Rearm | Domain/measurement/runtime_drift_compensator.c:119-127 | A rearm also forgets the plateau |
| RuntimeDrift.LearningRate | Domain/measurement/runtime_drift_compensator.c:160-238 | At most one step per window of time, whatever the number of updates |
| RuntimeDrift.CorrectedStep | Domain/measurement/runtime_drift_compensator.c:129-158 | One correction moves the offset by at most one step towards the error and never past the limit |
| RuntimeDrift.CorrectedIs | Domain/measurement/runtime_drift_compensator.c:129-158 | Within the deadband the offset stays; beyond it the offset moves towards the error by the smaller of error and step, cut at the limit |
| RuntimeDrift.AverageWithinGuard | Domain/measurement/runtime_drift_compensator.c:184-201 | The mean of a guarded window lies within the guard |
| WeightFilter.WeightFilter.Process | Domain/filter/weight_filter.c:103-191 | Never fails once set up, and its output is the defined function of all inputs: the last input, the rounded mean of the last min(n, strength), or the recursive filter, plain or behind a median of three |
| WeightFilter.WeightFilter.Average | Domain/filter/weight_filter.c:118-144 | Ring, count and running sum give the rounded mean of exactly the last min(n, strength) inputs |
| WeightFilter.WeightFilter.MedianIir | Domain/filter/weight_filter.c:152-183 | The ring in any rotation gives the median of the last three inputs |
| WeightFilter.WeightFilter.Iir | Domain/filter/weight_filter.c:43-70 | One rounded step towards the input |
| WeightFilter.WeightFilter.Init | Domain/filter/weight_filter.c:72-84 | Accepts exactly the valid modes and strengths |
| WeightFilter.OutputBetween | Domain/filter/weight_filter.c:43-191 | Every output lies between the least and the greatest input seen |
| WeightFilter.SmoothedApproaches | Domain/filter/weight_filter.c:55-67 | A step never overshoots, and is zero exactly when the error is below half the divisor |
| WeightFilter.HeldInputConverges | Domain/filter/weight_filter.c:43-70 | Under a held input, plain or behind the median from its second sample on, the error falls with every sample until it is below 2^(strength-1), and from there on never grows |
| WeightFilter.HeldInputSettles | Domain/filter/weight_filter.c:43-70 | It gets there within as many samples as the error was counts, in both modes |
| WeightFilter.Median3IsMedian | Domain/filter/weight_filter.c:27-41 | One of the three, with one on either side |
| WeightFilter.SpikeIgnored | Domain/filter/weight_filter.c:152-181 | Behind the median of three a single spike in a held input leaves no trace, however high it is and whenever it comes |
| WeightFilter.AverageIsNearest | Domain/filter/weight_filter.c:118-144 | The average is the nearest integer to the mean of the last `strength` inputs, or of all while there are fewer |
| WeightFilter.SmoothedStep | Domain/filter/weight_filter.c:43-70 | A step of the recursive filter is the nearest integer to the error divided by 2^strength |
| RingBuffer.Written | Domain/filter/weight_filter.c:131-134 | The next write keeps a ring holding the last values |
| RingBuffer.FullRing | Domain/measurement/display_conditioner.c:37-46 | A full ring is the last values turned by the write position |
| StabilityDetector.StabilityDetector.ProcessMass | Domain/stability/stability_detector.c:67-100 | Keeps the state justified by the history: stable means windows within the enter threshold for the hold time and then within the exit threshold, and nothing steady is missed |
| StabilityDetector.StabilityDetector.StableIsSteady | Domain/stability/stability_detector.c:67-100 | In every reachable state: stable means that the history of the samples has a steady stretch, and with distinct thresholds and no pause near a turn of the clock the state is stable if and only if it has one |
| StabilityDetector.StabilityDetector.Feed | Domain/stability/stability_detector.c:67-100 | The same after any stream of masses fed from the start, with the history being that stream |
| StabilityDetector.StabilityDetector.UpdateRange | Domain/stability/stability_detector.c:9-23 | Minimum, maximum and spread of the cells in use; fails exactly when the spread overflows |
| StabilityDetector.RingExtremes | Domain/stability/stability_detector.c:9-23 | They are those of the last window, in whatever order the ring holds it |
| StabilityDetector.StabilityDetector.Judge | Domain/stability/stability_detector.c:86-99 | The state decision for a full window |
| StabilityDetector.StabilityDetector.InitMass | Domain/stability/stability_detector.c:25-43 | Accepts exactly the usable settings, with an empty history |
| StabilityDetector.StabilityDetector.Reset | Domain/stability/stability_detector.c:53-65 | The history starts over, the settings stay |
| StabilityDetector.CandidateContinues | Domain/stability/stability_detector.c:88-97 | A candidate becomes stable exactly when the hold time has passed |
| StabilityDetector.StableContinues | Domain/stability/stability_detector.c:86-87 | Below the exit threshold a stable state lasts |
| DisplayConditioner.DisplayConditioner.Update | Domain/measurement/display_conditioner.c:142-250 | The whole next state: unlocked, the display follows the scale; a lock is made exactly at the end of a stable candidate phase on the median of the last nine samples, is held at the anchor, and is released for the reasons stated and no other |
| DisplayConditioner.DisplayConditioner.Run | Domain/measurement/display_conditioner.c:105-250 | Over any run of updates, forced releases and operator anchors the state moves step by step as stated |
| DisplayConditioner.NeverThreeDeviations | Domain/measurement/display_conditioner.c:215-249 | No such run keeps the lock through three updates in a row beyond the release threshold |
| DisplayConditioner.OperatorShowsZero | Domain/measurement/display_conditioner.c:123-140 | In every such run an operator anchor is locked and shows 0 |
| DisplayConditioner.ShownAlways | Domain/measurement/display_conditioner.c:105-250 | In every such run locked and LOCKED agree and a lock shows its anchor, the median of the nine samples it was made from |
| DisplayConditioner.UpdateShows | Domain/measurement/display_conditioner.c:142-250 | What one update means for the display: it follows the scale or stays on the anchor, and when a lock begins and ends |
| DisplayConditioner.ForcedLetsGo | Domain/measurement/display_conditioner.c:157-174 | An overload, a calibration, a reset or a ban on locks drops every lock and candidate and shows the mass itself; the reason is the first that applies |
| DisplayConditioner.UnlockedPhases | Domain/measurement/display_conditioner.c:176-214 | A stable mass begins or goes on with a candidate, an unstable one ends it; a lock needs nine samples and the hold time, a second when none is set |
| DisplayConditioner.LockEnds | Domain/measurement/display_conditioner.c:216-249 | A lock ends exactly with an unstable mass, one on the operator's zero only three seconds after it was set, or with the third mass in a row further away than the threshold |
| DisplayConditioner.DisplayConditioner.MedianAnchor | Domain/measurement/display_conditioner.c:48-66 | The anchor is the median of the last nine candidate samples, wherever the ring stands |
| DisplayConditioner.DisplayConditioner.UpdateTracking | Domain/measurement/display_conditioner.c:174-185 | The tracking phase: the mass is shown as it is, and a stable one begins a candidate |
| DisplayConditioner.DisplayConditioner.UpdateCandidate | Domain/measurement/display_conditioner.c:187-213 | The candidate phase: falling back, going on or locking, and the whole next state |
| DisplayConditioner.DisplayConditioner.UpdateLocked | Domain/measurement/display_conditioner.c:215-249 | The lock and its release counter, and the whole next state |
| DisplayConditioner.DisplayConditioner.ForceTracking | Domain/measurement/display_conditioner.c:105-121 | Back to following the scale |
| DisplayConditioner.DisplayConditioner.RequestOperatorZeroAnchor | Domain/measurement/display_conditioner.c:123-140 | Locked on zero |
| DisplayConditioner.DisplayConditioner.AddSample | Domain/measurement/display_conditioner.c:37-46 | One more sample in the ring |
| DisplayConditioner.ReleaseThresholdIs | Domain/measurement/display_conditioner.c:68-89 | At most eight divisions and one percent of the capacity, never zero, and the largest such distance |
| Median.MiddleOfSorted | Domain/measurement/display_conditioner.c:48-66 | The insertion sort finds a median |
| Median.InsertOne | Domain/measurement/display_conditioner.c:54-64 | One insertion keeps a sorted prefix and permutes |
| Median.MiddleIsMedian | Domain/measurement/display_conditioner.c:65 | The middle of a sorted sequence has at least half of the values on either side |
| Median.MedianPermuted | Domain/measurement/display_conditioner.c:53-65 | A median does not depend on the order |
| Median.MedianIsUnique | Domain/measurement/display_conditioner.c:48-66 | There is only one |
| WeightEngine.WeightEngine.ProcessRawSample | Domain/measurement/weight_engine.c:251-271 | After a successful sample the accounts balance: converted filtered count minus drift offset is gross, gross minus tare is net, and the flags follow, overload exactly; the stability detector was told the net mass with the offset before this sample, at this sample's time, and the compensator the mass before any offset, not to learn under overload; without a weight both were told nothing |
| WeightEngine.WeightEngine.Zero | Domain/measurement/weight_engine.c:278-298 | Exactly which zero is refused and why; one that is accepted leaves gross and net at 0, ZERO set, STABLE cleared and no drift offset; a refused one changes nothing |
| WeightEngine.WeightEngine.Tare | Domain/measurement/weight_engine.c:314-334 | From a balanced snapshot an accepted tare leaves net at 0 and gross as it was, never ends in an internal error, and the compensator looks for a new plateau; a refusal names the first reason that applies, and changes nothing |
| WeightEngine.WeightEngine.ClearTare | Domain/measurement/weight_engine.c:336-348 | Without a tare net is gross; stability starts over and the compensator looks for a new plateau |
| WeightEngine.WeightEngine.ResetZero | Domain/measurement/weight_engine.c:300-312 | The zero offset and the drift offset are gone and the accounts balance |
| WeightEngine.WeightEngine.ApplyCalibration | Domain/measurement/weight_engine.c:350-362 | A valid calibration is taken, learning and stability start over from nothing, the accounts balance; without a sample nothing is shown that was not |
| WeightEngine.WeightEngine.ReconfigureFilter | Domain/measurement/weight_engine.c:364-382 | The filter starts over with the new settings, and with it the weight, learning and stability; only the filter of the active profile changes |
| WeightEngine.WeightEngine.SetRuntimeDriftEnabled | Domain/measurement/weight_engine.c:384-395 | The drift offset is zero, learning is switched as asked, and the accounts balance |
| WeightEngine.WeightEngine.ResetRuntimeDrift | Domain/measurement/weight_engine.c:404-410 | The snapshot keeps balancing exactly when the offset was already zero |
| WeightEngine.WeightEngine.UpdateDerived | Domain/measurement/weight_engine.c:104-177 | Balanced when it succeeds, and what detector and compensator were told; without a new sample and with a detector that is not stable it fails only when the masses do not fit |
| WeightEngine.WeightEngine.Rebalance | Domain/measurement/weight_engine.c:326-331 | The accounts balance after a change of the tare, with stability unavailable and the drift offset as it was |
| WeightEngine.WeightEngine.DriftRate | Domain/measurement/weight_engine.c:204-207 | The firmware's settings are tame: in every reachable state the offset is at most 0.5 g and has moved at most 500 ug per minute since the last reset, and not at all in the first six minutes |
| WeightEngine.WeightEngine.UpdateMass | Domain/measurement/weight_engine.c:130-176 | The weighing part of the update |
| WeightEngine.WeightEngine.Weigh | Domain/measurement/weight_engine.c:130-153 | The masses with the offset as it was, the net mass told to the detector, and the overload flag exactly |
| WeightEngine.WeightEngine.JudgeStability | Domain/measurement/weight_engine.c:143-149 | The detector is told this very mass at this sample's time, or nothing |
| WeightEngine.WeightEngine.LearnDrift | Domain/measurement/weight_engine.c:154-160 | The compensator is told the uncompensated mass, the time, the verdict on stability, and not to learn under overload |
| WeightEngine.WeightEngine.StableWeightIsSteady | Domain/measurement/weight_engine.c:143-149 | A weight is flagged stable exactly while the net masses told to the detector have a steady stretch behind them, for distinct thresholds and regular times |
| WeightEngine.WeightEngine.CloseBooks | Domain/measurement/weight_engine.c:161-176 | Gross and net with the offset as it is after learning |
| WeightEngine.WeightEngine.InitMass | Domain/measurement/weight_engine.c:179-217 | Accepts exactly canonical settings with a valid calibration, if any; filter and detector work with the settings of the active profile on empty histories; a restored tare is kept when it is positive, and the first snapshot balances |
| ZeroTare.ZeroTareState.ApplyZeroMass | Domain/zero_tare/zero_tare.c:30-50 | The offset of the reading, or the first reason for refusal; without a tare there is no tare mass |
| ZeroTare.ZeroTareState.ZeroRefusedBecause | Domain/zero_tare/zero_tare.c:30-50 | Each refusal of a zero has its own exact condition, in the order of the tests |
| ZeroTare.ZeroTareState.ApplyTareMass | Domain/zero_tare/zero_tare.c:69-84 | The tare mass, or the first reason for refusal |
| ZeroTare.ZeroTareState.ClearTare | Domain/zero_tare/zero_tare.c:94-102 | No tare and no tare mass |
| ZeroTare.ZeroTareState.ResetZero | Domain/zero_tare/zero_tare.c:61-67 | No zero offset |
| ZeroTare.ZeroTareState.InitMass | Domain/zero_tare/zero_tare.c:10-22 | A positive tare is restored when asked for |
| CalibrationModel.BuiltIsValid | Domain/calibration/calibration_model.c:10-32 | A calibration is built exactly from usable points, and what is built is valid |
| CalibrationModel.ConversionIsNearest | Domain/calibration/calibration_model.c:72-94 | Counts convert along the line through the two points, rounded to the nearest microgram, and fail only when that mass is beyond int64 |
| CalibrationModel.Validate | Domain/calibration/calibration_model.c:48-70 | Accepts exactly the consistent calibrations |
| CalibrationModel.PointsConvert | Domain/calibration/calibration_model.c:72-90 | The two points of a calibration convert to 0 and to its mass |
| CalibrationModel.ZeroedConverts | Domain/calibration/calibration_model.c:72-90 | The reading at which the offset was taken converts to 0 |
| CalibrationModel.ConversionMonotone | Domain/calibration/calibration_model.c:72-113 | More counts are more mass, or less when the sensor runs the other way |
| CalibrationModel.DirectionIs | Domain/calibration/calibration_model.c:105-113 | The sensor direction is known exactly for a valid calibration, and is positive exactly when a reading of positive mass is above the zero reading |
| BleTransport.Transmitter.Run | Services/ble_transport/ble_transport.c:139-213 | Keeps, for every pattern of busy answers and rejections: the bytes taken are whole frames and a prefix of the next normal one, each kind in the order written; a priority frame goes out whole between normal frames, otherwise at most 128 bytes of the normal frame whose turn it is, and nothing while the UART is busy; nothing is lost; with a willing UART the backlog shrinks |
| BleTransport.Transmitter.PendingIsUnsent | Services/ble_transport/ble_transport.c:139-213 | The ring holds exactly the unsent rest of the queued frames |
| BleTransport.Transmitter.Drain | Services/ble_transport/ble_transport.c:139-213 | With a willing UART all frames are sent, in order within their kind |
| BleTransport.Transmitter.Write | Services/ble_transport/ble_transport.c:76-98 | A frame is queued whole or refused, exactly when there is room for it |
| BleTransport.Transmitter.WritePriority | Services/ble_transport/ble_transport.c:100-119 | Likewise for priority frames |
| BleTransport.Transmitter.SendChunk | Services/ble_transport/ble_transport.c:170-206 | At most 128 bytes of the current frame; a rejection takes nothing |
| BleTransport.Transmitter.Stage | Services/ble_transport/ble_transport.c:178-182 | Copies the next bytes of the stream |
| BleTransport.Transmitter.Unstage | Services/ble_transport/ble_transport.c:195-205 | The rollback restores the ring |
| BleTransport.Transmitter.TakeUrgent | Services/ble_transport/ble_transport.c:157-169 | The oldest priority frame, whole |
| BleTransport.Transmitter.Init | Services/ble_transport/ble_transport.c:40-59 | An empty transmitter |
| BleTransport.UnsentInStream | Services/ble_transport/ble_transport.c:172-206 | What is not taken is the rest of the current frame and the frames behind it |
| BleTransport.ChunkKeepsFrames | Services/ble_transport/ble_transport.c:183-194 | Taking a chunk keeps the frame structure |
| BleTransport.UrgentKeepsFrames | Services/ble_transport/ble_transport.c:157-169 | So does a priority frame between normal ones |
| BleTransport.RingCountIs | Services/ble_transport/ble_transport.c:34-38 | The indices tell how many bytes are held |
| BleTransport.Receiver.Read | Services/ble_transport/ble_transport.c:121-137 | With interrupts between any two steps of the copy loop: what is read is the next stretch of what was stored, each byte once, and at least what was waiting at the call up to the limits |
| BleTransport.Receiver.ReadOne | Services/ble_transport/ble_transport.c:130-134 | One turn of that loop takes the oldest byte, whatever arrives meanwhile |
| BleTransport.Receiver.RxPushFromIsr | Services/ble_transport/ble_transport.c:61-74 | A byte is dropped exactly when 511 are waiting |
| BleCommandProtocol.StreamDelivered | Protocol/ble/ble_command_protocol.c:64-195 | Any sequence of request frames, with noise without a sync pair before each, delivers exactly those requests in order and leaves the parser idle |
| BleCommandProtocol.FrameDelivered | Protocol/ble/ble_command_protocol.c:88-166 | A frame delivers its request, whether or not the parser holds a possible first sync byte |
| BleCommandProtocol.NoiseIgnored | Protocol/ble/ble_command_protocol.c:96-117 | Bytes without a sync pair go unnoticed |
| BleCommandProtocol.DeliveredIsFrame | Protocol/ble/ble_command_protocol.c:149-164 | Whatever is delivered was held, with the last byte, as exactly the frame of that request, checksum included |
| BleCommandProtocol.PushedIsHeld | Protocol/ble/ble_command_protocol.c:88-166 | The buffer never holds more than 142 bytes, begins like a frame, and expects what its header announced |
| BleCommandProtocol.BleCommandParser.Push | Protocol/ble/ble_command_protocol.c:88-166 | The array parser does with each byte what the definition on byte strings says |
| BleCommandProtocol.BleCommandParser.ParserResync | Protocol/ble/ble_command_protocol.c:34-57 | Keeps the rest from the next sync pair on, or a last possible sync byte |
| BleCommandProtocol.BleCommandParser.Receive | Protocol/ble/ble_command_protocol.c:88-166 | A whole stream through the array parser |
| BleCommandProtocol.BleCommandParser.Finish | Protocol/ble/ble_command_protocol.c:149-164 | Checksum test and decoding of a complete frame |
| BleCommandProtocol.EncodeRequest | Protocol/ble/ble_command_protocol.c:174-195 | Writes the request frame, or refuses and leaves the output alone |
| BleCommandProtocol.RequestLayout | Protocol/ble/ble_command_protocol.c:174-195 | The place of every byte of a request frame |
| BleFrameCodec.Encode | Protocol/ble/ble_frame_codec.c:56-90 | Writes exactly the frame and nothing behind it, or nothing |
| BleFrameCodec.FrameLayout | Protocol/ble/ble_frame_codec.c:56-90 | The place of every byte of a frame: sync, version, type, length, sequence, time, payload, checksum |
| BleFrameCodec.Crc | Protocol/ble/ble_frame_codec.c:51-54 | The checksum bytes, low byte first |
| RetryCache.RetryCache.HandleRequest | Services/ble_command_service/ble_command_service.c:409-504 | A transaction that is held is not carried out again: the same request is answered as before, another with its number is a conflict; a new one is carried out in a place that is not waiting for a save, and dropped exactly when all four wait; as long as each accepted save found none pending, the last three transactions are held, are answered again as they were the first time or by the end of their save, and no two executions of one number are fewer than four executions apart |
| RetryCache.RetryCache.Enter | Services/ble_command_service/ble_command_service.c:441-448 | A new request takes a place that waits for no save; with at most one save pending that is none of the last two |
| RetryCache.LostSaves | Services/ble_command_service/ble_command_service.c:435-440 | After three saves whose ends were never told, a request is carried out twice with one other in between, and after a fourth a new one is dropped |
| RetryCache.RetryCache.FindCache | Services/ble_command_service/ble_command_service.c:42-61 | The place of the transaction number, or none holds it |
| RetryCache.RetryCache.AllocateCache | Services/ble_command_service/ble_command_service.c:63-78 | The first place from the next one on that is not pending, and none exactly when all four are |
| RetryCache.RetryCache.HandleEvent | Services/ble_command_service/ble_command_service.c:540-560 | The end of the pending save answers its request, once and for repetitions, and changes no other place |
| RetryCache.NextPlaceIsOld | Services/ble_command_service/ble_command_service.c:63-78 | Passing over one pending place never reaches the last two requests |
| Uart2DmaPosition.ResolvesTrue | Drivers/serial/uart2_dma_position.c:5-33 | If less than one buffer arrived and the round counter is current or one behind, a resolved position is the true one modulo 2^32; it is not resolved exactly with a late counter when no byte arrived or the position modulo 2^32 started over in between |
| Uart2DmaPosition.CurrentResolves | Drivers/serial/uart2_dma_position.c:18-32 | A current counter always resolves |
| Uart2DmaPosition.LaggingResolves | Drivers/serial/uart2_dma_position.c:21-30 | A late counter is compensated, or refused as stated |
| CalibrationSession.Session.Commit | Protocol/command_service/command_service.c:334-363 | What is submitted was built in this session from the rounded means of two disjoint steady windows of eight samples, zero before load, with a mass of the locked grid, by its owner, on settings still in force; exactly when the result is ready and the settings match |
| CalibrationSession.Session.Begin | Protocol/command_service/command_service.c:542-599 | A session starts when nothing else is active and the settings can be locked: numbered one higher, from 1 to 65535 and round again, owned by its source, with nothing captured; a refusal changes nothing but the last result |
| CalibrationSession.Session.Open | Protocol/command_service/command_service.c:563-585 | Everything of an earlier session is gone, the detector starts afresh, and the session waits for a steady zero |
| CalibrationSession.Session.Process | Protocol/command_service/command_service.c:220-262 | A sample only moves a session between waiting and ready: to ready only after 500 ms of steady windows, and at regular times always then; a session ends by itself exactly after 120 seconds without activity |
| CalibrationSession.Session.CaptureZero | Protocol/command_service/command_service.c:600-633 | Exactly when the zero is captured and why not, and the whole new state: the zero is the rounded mean of the last eight samples, a steady window, and with a mass set the load is next, judged from here on |
| CalibrationSession.Session.StoreZero | Protocol/command_service/command_service.c:616-631 | The captured window, and the detector restarted when the load is next |
| CalibrationSession.Session.SetSpanMass | Protocol/command_service/command_service.c:637-660 | Exactly which mass is accepted and why not, and the whole new state: with the zero captured the load is waited for, judged from here on |
| CalibrationSession.Session.TakeMass | Protocol/command_service/command_service.c:645-657 | The mass is taken; only a captured zero makes the load the next step, with the detector restarted |
| CalibrationSession.Session.CaptureSpan | Protocol/command_service/command_service.c:661-704 | A captured load is the rounded mean of the last eight samples and has a candidate built from both windows; every refusal has its reason, a window that gives none can be captured again, and nothing else changes |
| CalibrationSession.Session.BuildCandidate | Protocol/command_service/command_service.c:680-701 | The candidate from the load window after the zero window |
| CalibrationSession.Session.Cancel | Protocol/command_service/command_service.c:710-717 | The owner ends the session and everything in it |
| CalibrationSession.Session.RequireOwner | Protocol/command_service/command_service.c:158-185 | Only the owner with the session's number is served |
| CalibrationSession.MassValidIsShown | Protocol/command_service/command_service.c:139-156 | A mass is valid exactly when it is the mass of a positive number the locked display can show, up to the capacity |
| CalibrationSession.OwnerCheckIs | Protocol/command_service/command_service.c:158-185 | Served is only the owner of the running session, over Bluetooth with the session's number, others with that number or none; busy means another owner |
| CalibrationSession.MatchesIs | Protocol/command_service/command_service.c:112-136 | Settings still match while unit, capacity, that unit's decimals and division, sample rate and gain are the same |
| RawCalibrationStability.RawCalibrationStability.Process | Domain/calibration/raw_calibration_stability.c:41-89 | Stable if and only if the windows since the candidate began have been steady for the hold time, at times without a pause near a turn of the clock; stable only then at any times |
| RawCalibrationStability.RawCalibrationStability.StableExactly | Domain/calibration/raw_calibration_stability.c:41-89 | In every reachable state: stable only with a steady stretch of the hold time behind it, and at regular times always then |
| RawCalibrationStability.RawCalibrationStability.GetAverage | Domain/calibration/raw_calibration_stability.c:97-115 | Given exactly when stable: the rounded mean of the last window, which is steady |
| RawCalibrationStability.RawCalibrationStability.UpdateSpread | Domain/calibration/raw_calibration_stability.c:56-70 | The spread is within a limit exactly when no two samples are further apart |
| RawCalibrationStability.RawCalibrationStability.Init | Domain/calibration/raw_calibration_stability.c:8-23 | Accepts exactly the usable settings |
| RawCalibrationStability.SteadyRing | Domain/calibration/raw_calibration_stability.c:56-70 | The ring and the window it holds are steady alike |
| RawCalibrationStability.RingSum | Domain/calibration/raw_calibration_stability.c:109-112 | The ring's sum does not depend on where it is turned to |

## Left out

- RuntimeDrift.RuntimeDriftCompensator.Rate: the settings for which the rate holds are given as a sufficient condition; which other settings it fails for is shown by one run only, while the failing calls are characterised exactly.
- StoreRuns.Restart: makes its promise only when both slots can be read, because a read error can make the firmware fall back to an older record, or count a slot as absent.
- FlashDevice.Device.ErasePage: an interrupted erase of page 0 of a committed record is assumed to leave old bytes or no record.
- WeightEngine.WeightEngine.ProcessRawSample: the int32 display copies of the masses and the display-configuration update are not modelled.
- PersistentCodec.MigrationShowsSame: the unit decimals of a schema 1 record are not carried over by the firmware, so the default decimals apply to what it migrates.
- CalibrationSession.Session.Begin: mutual exclusion with configuration editing is only tested at the start; a configuration staged over Modbus later is not excluded.
- BleTransport.Transmitter.WritePriority: the fixed 110-byte cells of the priority queue are modelled as byte strings.
- `WeightEngine_FreezeRuntimeDrift` is left out of the engine class, because it alone may tell the compensator a time later than the last sample's; freezing itself is in `RuntimeDrift`.
- Null-pointer arguments, statistics, diagnostics counters, last-error and last-address fields of all modules.
- The legacy int32 entry points (`WeightEngine_Init`, `CalibrationModel_Build`, `CalibrationModel_Convert`, `ZeroTare_Init`, `WeightMath_Quantize`, `WeightMath_AbsInt32`).
- Response encoding, the dispatch of BLE operations to commands, and all commands other than those of the calibration session.
- Event queue, scheduler, fault manager, limit checker, alarm outputs, configuration edit setters: simple bookkeeping.
- Modbus register map, server and framing, the DMA transport around the position resolver, drivers, board support, user interface and display formatting.
