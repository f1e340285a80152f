// Whole lives of the configuration store: requests, Process calls, cancels,
// acknowledgements and power cuts in any order, each cut at any point of any
// flash operation.
module StoreRuns {
  import opened FixedWidth
  import opened Configuration
  import opened SlotFormat
  import opened SlotChoice
  import opened FlashDevice
  import opened ConfigStore
  import PersistentCodec
  import LegacyProjection

  datatype Event =
    | SaveRequested(config: DeviceConfig, runtime: RuntimeState, revision: u32)
    | ResetRequested(defaults: DeviceConfig, default_runtime: RuntimeState, reset_revision: u32)
    | ProcessCalled | Cancelled | Acknowledged | PowerLost

  // ---- the life of a store, seen from outside ------------------------------------------------

  // What a restart finds: the record in force, or the one whose commit was tried.
  predicate Restarts(s: StoreView, t: StoreView) {
    t == Started(t.known) && (t.known == s.known || (s.tried.Some? && t.known == s.tried))
  }

  // What an event does to a store that keeps its power.
  ghost predicate Moves(s: StoreView, event: Event, t: StoreView) {
    match event
    case SaveRequested(config, runtime, revision) => RequestMoves(s, config, runtime, revision, Save, 0, t)
    case ResetRequested(config, runtime, revision) =>
      RequestMoves(s, config, runtime, revision, FactoryReset, FACTORY_DEFAULT_FLAG, t)
    case ProcessCalled => ProcessMoves(s, t)
    case Cancelled => CancelMoves(s, t)
    case Acknowledged => AcknowledgeMoves(s, t)
    case PowerLost => t == s
  }

  // One event, and the restart after it when the power went.
  datatype Step = Step(before: StoreView, event: Event, after: StoreView, cut: bool, next: StoreView)

  ghost predicate Taken(step: Step) {
    Moved(step) && if step.cut then Restarts(step.after, step.next) else step.next == step.after
  }

  // Without the restart.
  ghost predicate Moved(step: Step) {
    && Moves(step.before, step.event, step.after)
    && (step.event.PowerLost? ==> step.cut)
    // A flash operation can be cut in a Process call of a busy store only.
    && (step.cut ==> step.event.PowerLost? || (step.event.ProcessCalled? && Underway(step.before.phase)))
  }

  // The operation under way broke off.
  predicate Broke(step: Step) { Underway(step.before.phase) && step.after.phase == Error }

  // What the next restart that can read both slots finds in the flash.
  ghost predicate Promised(m: Image, s: StoreView) {
    Recovered(m) == s.known || (s.tried.Some? && Recovered(m) == s.tried)
  }

  function End(first: StoreView, run: seq<Step>): StoreView {
    if run == [] then first else run[|run| - 1].next
  }

  // How often the power went.
  function Cuts(run: seq<Step>): nat {
    if run == [] then 0 else Cuts(run[..|run| - 1]) + if run[|run| - 1].cut then 1 else 0
  }

  // Every step starts where the one before it ended.
  ghost predicate Lived(first: StoreView, run: seq<Step>) {
    forall k :: 0 <= k < |run| ==> Taken(run[k]) && run[k].before == End(first, run[..k])
  }

  lemma LivedOn(first: StoreView, run: seq<Step>, step: Step)
    requires Lived(first, run) && Taken(step) && step.before == End(first, run)
    ensures Lived(first, run + [step]) && End(first, run + [step]) == step.next
    ensures Cuts(run + [step]) == Cuts(run) + if step.cut then 1 else 0
  {
    var longer := run + [step];
    forall k | 0 <= k < |longer| ensures longer[..k] == if k == |run| then run else run[..k] {}
  }

  lemma LivedBefore(first: StoreView, run: seq<Step>)
    requires Lived(first, run) && run != []
    ensures var before := run[..|run| - 1]; Lived(first, before) && run[|run| - 1].before == End(first, before)
  {
    var before := run[..|run| - 1];
    forall k | 0 <= k < |before| ensures before[..k] == run[..k] {}
  }

  // ---- what holds over every life ----------------------------------------------------------------

  // The event asks for this record: schema 2, its own flags, its configuration encoded.
  ghost predicate AskedBy(event: Event, r: SlotRecord) {
    && (event.SaveRequested? || event.ResetRequested?) && r.schema == PersistentCodec.SCHEMA_V2
    && r.flags == (if event.SaveRequested? then 0 else FACTORY_DEFAULT_FLAG)
    && var (config, runtime) := Wanted(event);
       PersistentCodec.EncodeV2(config, runtime, PersistentCodec.V2_PAYLOAD_SIZE) == PersistentCodec.Payload(r.payload)
  }

  function Wanted(event: Event): (DeviceConfig, RuntimeState)
    requires event.SaveRequested? || event.ResetRequested?
  {
    if event.SaveRequested? then (event.config, event.runtime) else (event.defaults, event.default_runtime)
  }

  ghost predicate AskedIn(run: seq<Step>, r: SlotRecord) {
    exists k :: 0 <= k < |run| && AskedBy(run[k].event, r)
  }

  ghost predicate Settled(s: StoreView) { !Underway(s.phase) && s.tried.None? }

  // A request sets no other record to be written than the one it asks for.
  lemma RequestsAsk(s: StoreView, event: Event, t: StoreView)
    requires Moves(s, event, t)
    ensures t.requested == s.requested || AskedBy(event, t.requested)
    ensures Underway(t.phase) ==> Underway(s.phase) || AskedBy(event, t.requested)
  {
    hide PersistentCodec.EncodeV2;
  }

  // From a restart or a report on, whatever comes into force or can be found
  // later is the record in force then, or was asked for in between.
  lemma {:induction false} OnlyAsked(first: StoreView, run: seq<Step>)
    requires Settled(first) && Lived(first, run)
    ensures var end := End(first, run);
      && (end.known == first.known || (end.known.Some? && AskedIn(run, end.known.value)))
      && (end.tried.Some? ==> AskedIn(run, end.tried.value))
      && (Underway(end.phase) ==> AskedIn(run, end.requested))
  {
    if run != [] {
      var before, step := run[..|run| - 1], run[|run| - 1];
      LivedBefore(first, run);
      OnlyAsked(first, before);
      forall r | AskedIn(before, r) ensures AskedIn(run, r) { AskedEarlier(run, r); }
      RequestsAsk(step.before, step.event, step.after);
      OneStep(step);
    }
  }

  lemma AskedEarlier(run: seq<Step>, r: SlotRecord)
    requires run != [] && AskedIn(run[..|run| - 1], r)
    ensures AskedIn(run, r)
  {
    var k :| 0 <= k < |run| - 1 && AskedBy(run[..|run| - 1][k].event, r);
    assert AskedBy(run[k].event, r);
  }

  // Where the records of a step come from.
  lemma OneStep(step: Step)
    requires Taken(step)
    ensures var s, t := step.before, step.next;
      && (t.known == s.known || (s.tried.Some? && t.known == s.tried)
          || (Underway(s.phase) && t.known == Some(s.requested)))
      && (t.tried.Some? ==> t.tried == s.tried || (Underway(s.phase) && t.tried == Some(s.requested)))
      && (Underway(t.phase) ==> t == step.after)
  {
    hide PersistentCodec.EncodeV2, Begun;
    BegunKeeps(step.before, step.event);
  }

  lemma BegunKeeps(s: StoreView, event: Event)
    ensures forall operation, flags, payload :: var t := Begun(s, operation, flags,
                                                               payload); t.known == s.known && t.tried == s.tried
  {}

  // A record that is in force with no operation begun stays so through any number
  // of Process calls, cancels, acknowledgements and power cuts.
  lemma {:induction false} Undisturbed(first: StoreView, run: seq<Step>)
    requires Settled(first) && Lived(first, run)
    requires forall k :: 0 <= k < |run| ==> !run[k].event.SaveRequested? && !run[k].event.ResetRequested?
    ensures Settled(End(first, run)) && End(first, run).known == first.known
  {
    if run != [] {
      LivedBefore(first, run);
      Undisturbed(first, run[..|run| - 1]);
    }
  }

  // The record decodes to what a restart makes of the configuration asked for.
  ghost predicate RestoredAs(event: Event, r: SlotRecord)
    requires event.SaveRequested? || event.ResetRequested?
  {
    var (config, state) := Wanted(event);
    && LegacyProjection.ProjectConfig(config).Some?
    && LegacyProjection.ProjectConfig(config).value.metrology.active_unit < 3
    && var (restored, restored_state) := PersistentCodec.AfterRestart(config, state);
       PersistentCodec.Decode(r.schema, r.payload) == PersistentCodec.Restored(restored, restored_state)
  }

  // What is in force at the end of a life decodes to what the life began with, or
  // to a configuration that one of its events asked to be stored.
  lemma FoundConfiguration(first: StoreView, run: seq<Step>)
    requires Settled(first) && Lived(first, run) && End(first, run).known != first.known
    ensures End(first, run).known.Some?
    ensures exists k :: 0 <= k < |run| && AskedBy(run[k].event, End(first, run).known.value)
                        && RestoredAs(run[k].event, End(first, run).known.value)
  {
    OnlyAsked(first, run);
    var r := End(first, run).known.value;
    var k :| 0 <= k < |run| && AskedBy(run[k].event, r);
    hide PersistentCodec.EncodeV2, PersistentCodec.Decode, PersistentCodec.AfterRestart, LegacyProjection.ProjectConfig;
    StoredConfigurationReturns(Wanted(run[k].event).0, Wanted(run[k].event).1, r);
  }

  // ---- the store lives such lives -------------------------------------------------------------------

  // Init and Load after power comes back.  `ok` is false when a slot cannot be read.
  method Restart(device: Device) returns (store: Store, found: Option<SlotRecord>, ok: bool)
    modifies device
    ensures fresh(store) && store.device == device && device.image == old(device.image) && device.powered
    ensures ok ==> store.Valid() && found == Recovered(device.image) && store.View() == Started(found)
    ensures device.troubles >= old(device.troubles) && (!ok ==> device.troubles > old(device.troubles))
    ensures device.restarts == old(device.restarts) + 1 && (ok <==> device.failed_reads == 0)
    ensures device.care == old(device.care)
  {
    hide ReadSlot, Recovered, Consistent, Choose, Store.Valid, PersistentCodec.Decode;
    device.Reinitialize();
    store := new Store.Init(device);
    var loaded, config, a, b := store.Load();
    ok := a != IoError && b != IoError;
    found := None;
    if store.active_slot.Some? {
      found := Some(if store.active_slot.value == SlotA then a.record else b.record);
    }
  }

  // One event in the life of a running store.
  method Happens(store: Store, event: Event)
    requires store.Valid()
    modifies store, store.device`image, store.device`powered, store.device`operation_result, store.device`lock_result
    modifies store.device`received, store.device`troubles, store.device`failed_reads, store.device`care
    ensures store.device.care.unguarded == old(store.device.care.unguarded)
    ensures store.Valid() && Moves(old(store.View()), event, store.View())
    ensures !event.ProcessCalled? || !old(store.Busy()) ==>
      store.device.image == old(store.device.image) && store.device.powered == old(store.device.powered)
    ensures store.device.troubles >= old(store.device.troubles)
    ensures old(store.Busy()) && store.state == Error ==> store.device.troubles > old(store.device.troubles)
  {
    hide ReadSlot, Consistent, PersistentCodec.EncodeV2, Store.Valid, Store.Stored, Store.View;
    BusyIs(store);
    match event {
      case SaveRequested(config, runtime, revision) =>
        var _ := store.Request(config, runtime, revision, Save, 0);
      case ResetRequested(config, runtime, revision) =>
        var _ := store.Request(config, runtime, revision, FactoryReset, FACTORY_DEFAULT_FLAG);
      case ProcessCalled =>
        store.Process();
      case Cancelled =>
        var _ := store.CancelPending();
      case Acknowledged =>
        store.AcknowledgeResult();
      case PowerLost =>
    }
    BusyIs(store);
  }

  // One event, and the restart after it when the power went.
  method LiveOn(store: Store, event: Event) returns (running: Store, ghost step: Step, ok: bool)
    requires store.Valid() && store.device.powered
    modifies store, store.device
    ensures running.device == store.device && (running == store || fresh(running))
    ensures running.device.troubles >= old(store.device.troubles)
    ensures running.device.restarts == old(store.device.restarts) + if step.cut then 1 else 0
    ensures running.device.care.unguarded == old(store.device.care.unguarded)
    ensures ok ==> running.Valid() && running.device.powered
    ensures Moved(step) && step.before == old(store.View()) && step.event == event
    ensures Broke(step) ==> running.device.troubles > old(store.device.troubles)
    ensures ok ==> Taken(step) && step.next == running.View()
    // It fails at the restart only, where a read failed.
    ensures !ok ==>
      && step.cut && Promised(running.device.image, step.after) && running.device.troubles > old(store.device.troubles)
      && running.device.failed_reads > 0
  {
    hide ReadSlot, Recovered, Consistent, Store.Valid, Moves, Store.View;
    var device := store.device;
    ghost var before := store.View();
    running, ok := store, true;
    BusyIs(store);
    Happens(store, event);
    ghost var after := store.View();
    BusyIs(store);
    var cut := event.PowerLost? || !device.powered;
    if cut {
      Survives(store);
      var found;
      running, found, ok := Restart(device);
    }
    step := Step(before, event, after, cut, running.View());
  }

  lemma BusyIs(store: Store)
    ensures store.View().phase == store.state && store.Busy() == Underway(store.state)
  {}

  // Any sequence of events over any initial flash contents.  Whenever the power
  // went during an event, or goes on its own, the store is started again.  The
  // run ends before the last event only at a restart that cannot read a slot; at
  // its end the next restart that can finds the record in force or the one tried.
  method Live(device: Device, events: seq<Event>) returns (ghost run: seq<Step>, ghost halted: Option<Step>, ok: bool)
    modifies device
    ensures Lived(Started(Recovered(old(device.image))), run)
    ensures |run| <= |events| && forall k :: 0 <= k < |run| ==> run[k].event == events[k]
    ensures ok ==>
      |run| == |events| && Promised(device.image, End(Started(Recovered(old(device.image))), run))
    // Operations break off only where flash or power check gave trouble, and a run
    // stops only where a read failed after the last restart, one for each cut.
    ensures (exists k :: 0 <= k < |run| && Broke(run[k])) ==> device.troubles > old(device.troubles)
    ensures !ok ==> device.failed_reads > 0
    // No page is erased and no halfword programmed without a safe power answer before.
    ensures device.care.unguarded == old(device.care.unguarded)
    ensures device.restarts == old(device.restarts) + 1 + Cuts(run) + if halted.Some? then 1 else 0
    ensures !ok && halted.None? ==> run == [] && device.image == old(device.image)
    ensures !ok && halted.Some? ==>
      && |run| < |events| && halted.value.event == events[|run|] && Moved(halted.value) && halted.value.cut
      && halted.value.before == End(Started(Recovered(old(device.image))), run)
      && Promised(device.image, halted.value.after)
  {
    hide ReadSlot, Recovered, Consistent, Lived, End, Cuts, Taken, Moved, Promised, Store.View, Store.Valid;
    run, halted := [], None;
    ghost var first := Started(Recovered(device.image));
    NothingLived(first);
    var store, found, ok0 := Restart(device);
    ok := ok0;
    if !ok { return; }
    var i := 0;
    while i < |events|
      invariant 0 <= i == |run| <= |events| && store.device == device && fresh(store)
      invariant store.Valid() && device.powered && device.troubles >= old(device.troubles)
      invariant device.care.unguarded == old(device.care.unguarded)
      invariant halted.None? && device.restarts == old(device.restarts) + 1 + Cuts(run)
      invariant Lived(first, run) && End(first, run) == store.View()
      invariant forall k :: 0 <= k < |run| ==> run[k].event == events[k]
      invariant device.troubles == old(device.troubles) ==> forall k :: 0 <= k < |run| ==> !Broke(run[k])
    {
      ghost var step;
      store, step, ok := LiveOn(store, events[i]);
      if !ok {
        halted := Some(step);
        return;
      }
      LivedOn(first, run, step);
      run := run + [step];
      i := i + 1;
    }
    Survives(store);
    ok := true;
  }

  lemma Survives(store: Store)
    requires store.Valid()
    ensures Promised(store.device.image, store.View())
  {
    hide ReadSlot, Recovered, Consistent;
    ConsistentRecovers(store.device.image, store.active_slot, store.committed, store.attempted);
  }

  lemma NothingLived(first: StoreView)
    ensures Lived(first, []) && End(first, []) == first && Cuts([]) == 0
  {}

  // Any accepted request is over within 18 Process calls, and without trouble from
  // the device or the power check its record is then in force.
  method Finish(store: Store) returns (calls: nat)
    requires store.Valid()
    modifies store, store.device
    ensures store.Valid() && !store.Busy()
    ensures calls <= old(store.Rank()) <= 18
    ensures old(store.Busy()) && store.device.troubles == old(store.device.troubles) ==>
      && store.state == Complete && store.committed == Some(old(store.requested)) && store.attempted.None?
  {
    hide ReadSlot, Consistent, Store.Valid;
    calls := 0;
    while store.Busy()
      invariant store.Valid() && calls + store.Rank() <= old(store.Rank())
      invariant store.device.troubles >= old(store.device.troubles)
      invariant old(store.Busy()) && store.device.troubles == old(store.device.troubles) ==>
        && store.requested == old(store.requested)
        && (store.Busy()
            || (store.state == Complete && store.committed == Some(old(store.requested)) && store.attempted.None?))
      decreases store.Rank()
    {
      store.Process();
      calls := calls + 1;
    }
  }

  // A found record holds exactly what was asked to be stored.
  lemma StoredConfigurationReturns(c: DeviceConfig, r: RuntimeState, record: SlotRecord)
    requires PersistentCodec.EncodeV2(c, r, PersistentCodec.V2_PAYLOAD_SIZE).Payload?
    requires record.schema == PersistentCodec.SCHEMA_V2
    requires record.payload == PersistentCodec.EncodeV2(c, r, PersistentCodec.V2_PAYLOAD_SIZE).bytes
    ensures LegacyProjection.ProjectConfig(c).Some? && LegacyProjection.ProjectConfig(c).value.metrology.active_unit < 3
    ensures PersistentCodec.Decode(record.schema, record.payload)
         == PersistentCodec.Restored(PersistentCodec.AfterRestart(c, r).0, PersistentCodec.AfterRestart(c, r).1)
  {
    PersistentCodec.RoundTrip(c, r, PersistentCodec.V2_PAYLOAD_SIZE);
    hide PersistentCodec.EncodeV2, PersistentCodec.DecodeV2;
  }
}
