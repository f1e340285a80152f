// Domain/measurement/weight_engine.c: from raw samples to gross and net mass.
module WeightEngine {
  import opened FixedWidth
  import opened MassMath
  import opened Configuration
  import opened CalibrationModel
  import opened ZeroTare
  import WeightFilter
  import StabilityDetector
  import RuntimeDrift

  datatype StatusFlags = StatusFlags(
    raw_valid: bool, filter_ready: bool, calibration_valid: bool, weight_valid: bool, stable: bool, zero: bool,
    tare_active: bool, overload: bool)

  datatype MassSnapshot = MassSnapshot(
    raw_value: i32, filtered_raw: i32, status_flags: StatusFlags, sample_timestamp_ms: u32, sample_sequence: u32,
    filter_sample_count: u32, gross_mass_ug: i64, uncompensated_gross_mass_ug: i64, tare_mass_ug: i64, net_mass_ug: i64,
    stability_spread_ug: i64)

  datatype RawMeasurementSample = RawMeasurementSample(raw_value: i32, timestamp_ms: u32, valid: bool)

  const NO_FLAGS: StatusFlags := StatusFlags(false, false, false, false, false, false, false, false)
  const BLANK_SNAPSHOT: MassSnapshot := MassSnapshot(0, 0, NO_FLAGS, 0, 0, 0, 0, 0, 0, 0, 0)

  // The mass accounts of a snapshot: what it is made of.
  datatype Books = Books(
    calibration: CalibrationConfig, zero_offset_raw: i32, drift_offset_ug: i64, tare_active: bool, tare_mass_ug: i64,
    zero_range_ug: i64, overload_ug: i64, ready: bool, stable: bool)

  // A snapshot that balances.  Overload is also flagged by the gross mass before
  // the drift offset of this very sample was applied.
  ghost predicate Balanced(s: MassSnapshot, b: Books) {
    && s.tare_mass_ug == b.tare_mass_ug && s.status_flags.tare_active == b.tare_active
    && if CalibrationValid(b.calibration) && b.ready then
         && s.status_flags.weight_valid && s.status_flags.calibration_valid
         && ConvertMass(b.calibration, s.filtered_raw, b.zero_offset_raw) == Some(s.uncompensated_gross_mass_ug)
         && s.gross_mass_ug == s.uncompensated_gross_mass_ug - b.drift_offset_ug
         && s.net_mass_ug == s.gross_mass_ug - b.tare_mass_ug
         && (s.status_flags.zero <==> Abs(s.net_mass_ug) <= b.zero_range_ug)
         && (b.overload_ug > 0 && Abs(s.gross_mass_ug) > b.overload_ug ==> s.status_flags.overload)
         && (s.status_flags.stable <==> b.stable)
       else
         && s.gross_mass_ug == 0 && s.uncompensated_gross_mass_ug == 0 && s.net_mass_ug == 0
         && !s.status_flags.calibration_valid && !s.status_flags.weight_valid
         && !s.status_flags.stable && !s.status_flags.zero && !s.status_flags.overload
  }

  lemma BalancedConverts(s: MassSnapshot, b: Books)
    ensures Balanced(s, b) && CalibrationValid(b.calibration) && b.ready ==>
              && ConvertMass(b.calibration, s.filtered_raw, b.zero_offset_raw) == Some(s.uncompensated_gross_mass_ug)
              && s.gross_mass_ug == s.uncompensated_gross_mass_ug - b.drift_offset_ug
  {}

  // A tare of the gross mass leaves the gross mass and takes all of it away.
  lemma TareNets(s: MassSnapshot, b: Books, t: MassSnapshot, c: Books)
    requires CalibrationValid(b.calibration) && b.ready && SameSample(s, t) && Balanced(t, c)
    requires c == b.(tare_active := true, tare_mass_ug := s.gross_mass_ug, stable := false)
    ensures !t.status_flags.stable && t.status_flags.weight_valid
    ensures Balanced(s, b) ==> t.gross_mass_ug == s.gross_mass_ug && t.net_mass_ug == 0
  {
    hide CalibrationValid, ConvertMass;
  }

  // One more mass in the history of the detector, at this time.
  ghost predicate Noted(before: StabilityDetector.Past, after: StabilityDetector.Past, mass: int, tick: nat) {
    var n := |before.samples|;
    && |after.samples| == n + 1 && after.samples[..n] == before.samples && after.samples[n] == mass
    && after.times == before.times + [tick]
  }

  predicate SameSample(s: MassSnapshot, t: MassSnapshot) {
    && s.raw_value == t.raw_value && s.filtered_raw == t.filtered_raw && s.sample_timestamp_ms == t.sample_timestamp_ms
    && s.sample_sequence == t.sample_sequence && s.filter_sample_count == t.filter_sample_count
    && s.status_flags.raw_valid == t.status_flags.raw_valid
    && s.status_flags.filter_ready == t.status_flags.filter_ready
  }

  class WeightEngine {
    var metrology: MetrologyConfig
    var calibration: CalibrationConfig
    const filter: WeightFilter.WeightFilter
    const stability: StabilityDetector.StabilityDetector
    const zero_tare: ZeroTareState
    const runtime_drift: RuntimeDrift.RuntimeDriftCompensator
    var snapshot: MassSnapshot
    var initialized: bool
    var has_raw_sample: bool
    var runtime_drift_learning_allowed: bool
    // The true time of the last sample.
    ghost var sample_tick: nat

    ghost predicate Valid()
      reads this, filter, filter.average_buffer, filter.median_history, stability, stability.samples, zero_tare
      reads runtime_drift
    {
      && Apart() && filter.Valid() && stability.Valid() && runtime_drift.Valid()
      && (initialized ==>
            && filter.initialized && stability.initialized && runtime_drift.initialized && zero_tare.Valid()
            && runtime_drift.config == RuntimeDrift.DEFAULT_CONFIG
            && metrology.active_profile < WEIGHING_PROFILE_COUNT && metrology.zero_range_ug >= 0
            && (calibration.calibration_valid ==> CalibrationValid(calibration))
            && snapshot.sample_timestamp_ms == sample_tick % 0x1_0000_0000 && Past())
    }

    // Nothing has been told a later time.
    ghost predicate Past()
      reads this`sample_tick, runtime_drift`past, stability`past
    {
      && runtime_drift.past.clock <= sample_tick
      && (forall k :: 0 <= k < |stability.past.times| ==> stability.past.times[k] <= sample_tick)
    }

    ghost function Parts(): set<object> {
      {filter, filter.average_buffer, filter.median_history, stability, stability.samples, zero_tare, runtime_drift}
    }

    // The parts do not overlap.
    ghost predicate Apart() {
      && filter.average_buffer as object != stability.samples && filter.median_history as object != stability.samples
      && this as object !in Parts()
    }

    ghost function CurrentBooks(): Books
      reads this`metrology, this`calibration, filter`ready, filter`initialized, stability`state, zero_tare
      reads runtime_drift`snapshot
    {
      Books(calibration, zero_tare.zero_offset_raw, runtime_drift.snapshot.offset_ug, zero_tare.tare_active,
                  zero_tare.tare_mass_ug, metrology.zero_range_ug, DisplayOverload(metrology),
                  filter.initialized && filter.ready, stability.state.Stable?)
    }

    // The snapshot agrees with the state of the parts.
    ghost predicate Accounted()
      reads this, filter`ready, filter`initialized, stability`state, zero_tare, runtime_drift`snapshot
    {
      Balanced(snapshot, CurrentBooks())
    }

    constructor ()
      ensures Valid() && !initialized && !has_raw_sample && snapshot == BLANK_SNAPSHOT && fresh(Parts())
    {
      metrology, calibration := Configuration.DEFAULT_CONFIG.metrology, BLANK;
      snapshot, initialized, has_raw_sample, runtime_drift_learning_allowed := BLANK_SNAPSHOT, false, false, false;
      sample_tick := 0;
      filter := new WeightFilter.WeightFilter();
      stability := new StabilityDetector.StabilityDetector();
      zero_tare := new ZeroTareState();
      runtime_drift := new RuntimeDrift.RuntimeDriftCompensator();
    }

    method ClearDerived()
      modifies this`snapshot
      ensures snapshot == old(snapshot).(
                            gross_mass_ug := 0, uncompensated_gross_mass_ug := 0, net_mass_ug := 0,
                            tare_mass_ug := zero_tare.tare_mass_ug, stability_spread_ug := 0,
                            status_flags := NO_FLAGS.(raw_valid := old(snapshot).status_flags.raw_valid,
                                                      filter_ready := old(snapshot).status_flags.filter_ready,
                                                      tare_active := zero_tare.tare_active))
      // Without a calibration or a filtered value these are the books.
      ensures !(CalibrationValid(calibration) && filter.initialized && filter.ready) ==> Accounted()
      ensures old(Valid()) ==> Valid()
    {
      hide CalibrationValid, ConvertMass, DisplayOverload, WeightFilter.WeightFilter.Valid, Apart, Past,
        StabilityDetector.StabilityDetector.Valid, RuntimeDrift.RuntimeDriftCompensator.Valid, ZeroTareState.Valid;
      var flags := snapshot.status_flags;
      snapshot := snapshot.(
      gross_mass_ug := 0, uncompensated_gross_mass_ug := 0, net_mass_ug := 0, tare_mass_ug := zero_tare.tare_mass_ug,
      stability_spread_ug := 0,
      status_flags := NO_FLAGS.(raw_valid := flags.raw_valid, filter_ready := flags.filter_ready));
      if zero_tare.tare_active { SetFlags(snapshot.status_flags.(tare_active := true)); }
    }

    method SetFlags(flags: StatusFlags)
      modifies this`snapshot
      ensures snapshot == old(snapshot).(status_flags := flags) && (old(Valid()) ==> Valid())
    {
      hide WeightFilter.WeightFilter.Valid, StabilityDetector.StabilityDetector.Valid, Apart, Past, CalibrationValid,
        RuntimeDrift.RuntimeDriftCompensator.Valid, ZeroTareState.Valid;
      snapshot := snapshot.(status_flags := flags);
    }

    method CopyTare()
      modifies this`snapshot
      ensures snapshot == old(snapshot).(tare_mass_ug := zero_tare.tare_mass_ug) && (old(Valid()) ==> Valid())
    {
      hide WeightFilter.WeightFilter.Valid, StabilityDetector.StabilityDetector.Valid, Apart, Past, CalibrationValid,
        RuntimeDrift.RuntimeDriftCompensator.Valid, ZeroTareState.Valid;
      snapshot := snapshot.(tare_mass_ug := zero_tare.tare_mass_ug);
    }

    // An update without a new sample may move the drift offset.
    ghost predicate Teaches()
      reads stability`state, runtime_drift`snapshot
    {
      stability.state == StabilityDetector.Stable && runtime_drift.snapshot.state == RuntimeDrift.Tracking
    }

    // What a weighing told the detector and the compensator: the net mass with the
    // offset as it was before this sample, the mass before any offset, the verdict
    // on stability, and that an overload must not teach.  Overload is judged both
    // before and after learning.
    twostate predicate Told(process: bool)
      reads this`snapshot, this`metrology, this`sample_tick, this`runtime_drift_learning_allowed, zero_tare`tare_mass_ug
      reads stability`past, stability`state, stability`spread, runtime_drift`seen, runtime_drift`snapshot
    {
      var gross, limit := snapshot.uncompensated_gross_mass_ug - old(runtime_drift.snapshot.offset_ug),
                          DisplayOverload(metrology);
      && (if process then Noted(old(stability.past), stability.past, gross - zero_tare.tare_mass_ug, sample_tick)
          else stability.past == old(stability.past))
      && runtime_drift.seen == old(runtime_drift.seen) + [RuntimeDrift.DriftInput(
             snapshot.uncompensated_gross_mass_ug, snapshot.sample_timestamp_ms, stability.state.Stable?,
             runtime_drift_learning_allowed && !(limit > 0 && Abs(gross) > limit))]
      && snapshot.gross_mass_ug == runtime_drift.snapshot.compensated_mass_ug
      && (snapshot.status_flags.overload <==>
            limit > 0 && (Abs(gross) > limit || Abs(snapshot.gross_mass_ug) > limit))
      && snapshot.stability_spread_ug == stability.spread
    }

    twostate predicate ToldNothing()
      reads stability`past, runtime_drift`seen
    {
      stability.past == old(stability.past) && runtime_drift.seen == old(runtime_drift.seen)
    }

    method UpdateDerived(process_stability: bool) returns (ok: bool)
      requires Valid() && initialized
      modifies this`snapshot, stability, stability.samples, runtime_drift
      ensures Valid() && (ok ==> Accounted())
      ensures !process_stability ==> stability.state == old(stability.state)
      ensures !process_stability && !old(Teaches()) ==>
                runtime_drift.snapshot.offset_ug == old(runtime_drift.snapshot.offset_ug)
      ensures ok ==> if snapshot.status_flags.weight_valid then Told(process_stability) else ToldNothing()
      ensures SameSample(old(snapshot), snapshot)
      ensures !process_stability && old(stability.state) != StabilityDetector.Stable && Representable() ==> ok
    {
      hide WeightFilter.WeightFilter.Valid, StabilityDetector.StabilityDetector.Valid, Balanced, Apart, Past,
        RuntimeDrift.RuntimeDriftCompensator.Valid, ZeroTareState.Valid, ConvertMass, DisplayOverload,
        WeightEngine.Valid;
      var flags := snapshot.status_flags;
      SetFlags(NO_FLAGS.(raw_valid := flags.raw_valid, filter_ready := flags.filter_ready));
      CopyTare();
      if !calibration.calibration_valid || Validate(calibration) != CalibrationOk {
        ClearDerived();
        return true;
      }
      SetFlags(snapshot.status_flags.(calibration_valid := true));
      if !(filter.initialized && filter.ready) {
        ClearDerived();
        return true;
      }
      ok := UpdateMass(process_stability);
    }

    method UpdateMass(process_stability: bool) returns (ok: bool)
      requires Valid() && initialized && CalibrationValid(calibration) && filter.ready
      requires var f := snapshot.status_flags;
               f == NO_FLAGS.(raw_valid := f.raw_valid, calibration_valid := true, filter_ready := f.filter_ready)
      requires snapshot.tare_mass_ug == zero_tare.tare_mass_ug
      modifies this`snapshot, stability, stability.samples, runtime_drift
      ensures Valid() && (ok ==> Accounted())
      ensures !process_stability ==> stability.state == old(stability.state)
      ensures !process_stability && !old(Teaches()) ==>
                runtime_drift.snapshot.offset_ug == old(runtime_drift.snapshot.offset_ug)
      ensures ok ==> snapshot.status_flags.weight_valid && Told(process_stability)
      ensures SameSample(old(snapshot), snapshot)
      ensures !process_stability && old(stability.state) != StabilityDetector.Stable && Representable() ==> ok
    {
      hide CalibrationModel.ConvertMass, CalibrationValid, DisplayOverload, WeightFilter.WeightFilter.Valid,
        StabilityDetector.StabilityDetector.Valid, RuntimeDrift.RuntimeDriftCompensator.Valid, ZeroTareState.Valid,
        Balanced, RuntimeDrift.RuntimeDriftCompensator.Learns, WeightEngine.Valid;
      var uncompensated := Weigh(process_stability);
      if uncompensated.None? { return false; }
      ok := LearnDrift(uncompensated.value, stability.state.Stable?);
      if !ok { return false; }
      ok := CloseBooks(uncompensated.value);
    }

    // The part of that before learning.
    twostate predicate Judged(process: bool)
      reads this`snapshot, this`metrology, this`sample_tick, zero_tare`tare_mass_ug, runtime_drift`snapshot
      reads stability`past, stability`spread
    {
      var gross, limit := snapshot.uncompensated_gross_mass_ug - runtime_drift.snapshot.offset_ug,
                          DisplayOverload(metrology);
      && (if process then Noted(old(stability.past), stability.past, gross - zero_tare.tare_mass_ug, sample_tick)
          else stability.past == old(stability.past))
      && (snapshot.status_flags.overload <==> limit > 0 && Abs(gross) > limit)
      && snapshot.stability_spread_ug == stability.spread
    }

    // The masses with the offset as it was, and what the detector makes of them.
    method Weigh(process_stability: bool) returns (uncompensated: Option<i64>)
      requires Valid() && initialized && CalibrationValid(calibration) && filter.ready
      requires var f := snapshot.status_flags;
               f == NO_FLAGS.(raw_valid := f.raw_valid, calibration_valid := true, filter_ready := f.filter_ready)
      requires snapshot.tare_mass_ug == zero_tare.tare_mass_ug
      modifies this`snapshot, stability, stability.samples
      ensures Valid() && SameSample(old(snapshot), snapshot) && (uncompensated.Some? <==> Representable())
      ensures uncompensated.Some? ==> Weighed() && snapshot.uncompensated_gross_mass_ug == uncompensated.value
      ensures uncompensated.Some? ==> Judged(process_stability)
      ensures !process_stability ==> stability.state == old(stability.state)
    {
      hide CalibrationModel.ConvertMass, CalibrationValid, DisplayOverload, WeightFilter.WeightFilter.Valid,
        StabilityDetector.StabilityDetector.Valid, RuntimeDrift.RuntimeDriftCompensator.Valid, ZeroTareState.Valid;
      var s := snapshot;
      uncompensated := ConvertMass(calibration, s.filtered_raw, zero_tare.zero_offset_raw);
      if uncompensated.None? { return; }
      var before := Accounts(uncompensated.value);
      if before.None? { return None; }
      var gross, net := before.value.0, before.value.1;
      s := s.(uncompensated_gross_mass_ug := uncompensated.value, gross_mass_ug := gross, net_mass_ug := net);
      s := s.(status_flags := s.status_flags.(weight_valid := true, tare_active := zero_tare.tare_active));
      var stability_state := JudgeStability(process_stability, net);
      var overload := DisplayOverload(metrology);
      s := s.(stability_spread_ug := stability.spread,
      status_flags := s.status_flags.(stable := stability_state.Stable?,
                                      overload := overload > 0 && Magnitude(gross) > overload));
      snapshot := s;
    }

    // The snapshot lacks the gross and net masses and their flags only.
    ghost predicate Weighed()
      reads this`snapshot, this`calibration, zero_tare, stability`state
    {
      var f := snapshot.status_flags;
      && f == NO_FLAGS.(raw_valid := f.raw_valid, calibration_valid := true, filter_ready := f.filter_ready,
                        weight_valid := true, tare_active := zero_tare.tare_active,
                        stable := stability.state.Stable?, overload := f.overload)
      && snapshot.tare_mass_ug == zero_tare.tare_mass_ug
      && ConvertMass(calibration, snapshot.filtered_raw, zero_tare.zero_offset_raw)
         == Some(snapshot.uncompensated_gross_mass_ug)
    }

    // Gross and net mass once more, with the offset as it is now.
    method CloseBooks(uncompensated: i64) returns (ok: bool)
      requires Valid() && initialized && CalibrationValid(calibration) && filter.ready
      requires Weighed() && snapshot.uncompensated_gross_mass_ug == uncompensated
      modifies this`snapshot
      ensures Valid() && ok == Accounts(uncompensated).Some? && (ok ==> Accounted())
      ensures SameSample(old(snapshot), snapshot)
      ensures ok ==>
                && snapshot.uncompensated_gross_mass_ug == old(snapshot.uncompensated_gross_mass_ug)
                && snapshot.status_flags.weight_valid
                && snapshot.gross_mass_ug == uncompensated - runtime_drift.snapshot.offset_ug
                && snapshot.stability_spread_ug == old(snapshot.stability_spread_ug)
                && (snapshot.status_flags.overload <==>
                      old(snapshot.status_flags.overload)
                      || (DisplayOverload(metrology) > 0 && Abs(snapshot.gross_mass_ug) > DisplayOverload(metrology)))
    {
      hide CalibrationModel.ConvertMass, CalibrationValid, DisplayOverload, WeightFilter.WeightFilter.Valid, Past,
        Apart, StabilityDetector.StabilityDetector.Valid, RuntimeDrift.RuntimeDriftCompensator.Valid,
        ZeroTareState.Valid;
      var s := snapshot;
      var overload := DisplayOverload(metrology);
      var after := Accounts(uncompensated);
      if after.None? { return false; }
      var gross, net := after.value.0, after.value.1;
      s := s.(gross_mass_ug := gross, net_mass_ug := net);
      if Magnitude(net) <= metrology.zero_range_ug { s := s.(status_flags := s.status_flags.(zero := true)); }
      if overload > 0 && Magnitude(gross) > overload { s := s.(status_flags := s.status_flags.(overload := true)); }
      snapshot := s;
      return true;
    }

    // The filtered reading has a gross and a net mass.
    ghost predicate Representable()
      reads this`snapshot, this`calibration, zero_tare, runtime_drift`snapshot
    {
      var uncompensated := ConvertMass(calibration, snapshot.filtered_raw, zero_tare.zero_offset_raw);
      uncompensated.Some? && Accounts(uncompensated.value).Some?
    }

    // Gross and net mass with the present drift offset and tare.
    function Accounts(uncompensated: i64): Option<(i64, i64)>
      reads runtime_drift`snapshot, zero_tare`tare_mass_ug
    {
      match Subtract(uncompensated, runtime_drift.snapshot.offset_ug)
      case None => None
      case Some(gross) =>
        match Subtract(gross, zero_tare.tare_mass_ug)
        case None => None
        case Some(net) => Some((gross, net))
    }

    method JudgeStability(process: bool, net: i64) returns (state: StabilityDetector.StabilityState)
      requires Apart() && stability.Valid() && stability.initialized
      requires snapshot.sample_timestamp_ms == sample_tick % 0x1_0000_0000
      requires forall k :: 0 <= k < |stability.past.times| ==> stability.past.times[k] <= sample_tick
      modifies stability, stability.samples
      ensures stability.Valid() && stability.initialized && state == stability.state
      ensures forall k :: 0 <= k < |stability.past.times| ==> stability.past.times[k] <= sample_tick
      ensures !process ==> state == old(stability.state)
      ensures if process then Noted(old(stability.past), stability.past, net, sample_tick)
              else stability.past == old(stability.past)
    {
      hide StabilityDetector.StabilityDetector.Valid, StabilityDetector.SpreadAt;
      state := stability.state;
      if process { state := stability.ProcessMass(net, snapshot.sample_timestamp_ms, sample_tick); }
    }

    method LearnDrift(uncompensated: i64, stable: bool) returns (ok: bool)
      requires Valid() && initialized
      modifies runtime_drift
      ensures Valid()
      ensures !stable || old(runtime_drift.snapshot.state) != RuntimeDrift.Tracking ==>
                runtime_drift.snapshot.offset_ug == old(runtime_drift.snapshot.offset_ug)
      ensures !stable ==> ok == FitsI64(uncompensated - runtime_drift.snapshot.offset_ug)
      ensures ok ==>
                runtime_drift.snapshot.compensated_mass_ug == uncompensated - runtime_drift.snapshot.offset_ug
      ensures runtime_drift.seen == old(runtime_drift.seen) + [RuntimeDrift.DriftInput(
                  uncompensated, snapshot.sample_timestamp_ms, stable,
                  runtime_drift_learning_allowed && !snapshot.status_flags.overload)]
    {
      hide CalibrationValid, WeightFilter.WeightFilter.Valid, StabilityDetector.StabilityDetector.Valid, Apart,
        RuntimeDrift.RuntimeDriftCompensator.Valid, ZeroTareState.Valid;
      var allowed := runtime_drift_learning_allowed && !snapshot.status_flags.overload;
      ok := runtime_drift.Process(
        RuntimeDrift.DriftInput(uncompensated, snapshot.sample_timestamp_ms, stable, allowed), sample_tick);
    }

    // Learning and stability begin again, from nothing.
    ghost predicate StartsOver(reason: RuntimeDrift.ResetReason)
      reads stability`state, stability`past, runtime_drift`snapshot
    {
      var d := runtime_drift.snapshot;
      && stability.state == StabilityDetector.Unavailable && stability.past == StabilityDetector.Past([], [])
      && d.plateau_reference_ug == 0 && !d.limited && d.last_reset_reason == reason
    }

    // The compensator looks for a new plateau.
    ghost predicate Rearmed(reason: RuntimeDrift.FreezeReason)
      reads runtime_drift`snapshot
    {
      var d := runtime_drift.snapshot;
      d.enabled ==>
        && d.plateau_reference_ug == 0
        && (d.state == RuntimeDrift.Limited || (d.state == RuntimeDrift.Frozen && d.last_freeze_reason == reason))
    }

    // Learning and stability begin again.
    method Restart(reason: RuntimeDrift.ResetReason)
      requires Valid() && initialized
      modifies runtime_drift, stability, stability.samples
      ensures Valid() && runtime_drift.snapshot.offset_ug == 0 && StartsOver(reason)
    {
      hide WeightFilter.WeightFilter.Valid, StabilityDetector.StabilityDetector.Valid,
        RuntimeDrift.RuntimeDriftCompensator.Valid, ZeroTareState.Valid, CalibrationValid;
      runtime_drift.Reset(snapshot.sample_timestamp_ms, reason, sample_tick);
      stability.Reset();
    }

    // ---- the operations ----------------------------------------------------------------------

    method InitParts(profile: WeighingProfileConfig)
      requires Apart() && filter.Valid() && stability.Valid() && runtime_drift.Valid()
      requires ProfileValid(profile)
      modifies filter, filter.average_buffer, filter.median_history, stability, stability.samples, runtime_drift
      ensures filter.Valid() && filter.initialized && !filter.ready
      ensures stability.Valid() && stability.initialized && stability.past.times == []
      ensures runtime_drift.Valid() && runtime_drift.initialized && runtime_drift.past.clock == 0
      ensures runtime_drift.config == RuntimeDrift.DEFAULT_CONFIG && !runtime_drift.snapshot.enabled
      ensures SetFrom(profile)
    {
      hide WeightFilter.WeightFilter.Valid, StabilityDetector.StabilityDetector.Valid,
        RuntimeDrift.RuntimeDriftCompensator.Valid;
      var filter_ok := filter.Init(profile.filter_mode, profile.filter_strength);
      var stability_ok := stability.InitMass(
        profile.stability_window, profile.stability_enter_threshold_ug, profile.stability_exit_threshold_ug,
        profile.stability_hold_ms);
      var drift_ok := runtime_drift.Init(RuntimeDrift.DEFAULT_CONFIG, false, 0, 0);
    }

    // Filter and detector work with the settings of this profile, on empty histories.
    ghost predicate SetFrom(profile: WeighingProfileConfig)
      reads filter`mode, filter`strength, filter`inputs, stability
    {
      && filter.mode == profile.filter_mode && filter.strength == profile.filter_strength && filter.inputs == []
      && stability.window_size == profile.stability_window
      && stability.enter_threshold_ug == profile.stability_enter_threshold_ug
      && stability.exit_threshold_ug == profile.stability_exit_threshold_ug
      && stability.stable_hold_ms == profile.stability_hold_ms
      && stability.past == StabilityDetector.Past([], [])
    }

    method InitMass(metrology: MetrologyConfig, calibration: CalibrationConfig, restored_tare_ug: i64,
                    restore_tare: bool)
      returns (ok: bool)
      requires Valid()
      modifies this, Parts()
      ensures Valid()
      ensures ok == (CanonicalValid(metrology) && (calibration.calibration_valid ==> CalibrationValid(calibration)))
      ensures ok ==>
                && initialized && !has_raw_sample && sample_tick == 0 && Accounted()
                && zero_tare.tare_active == (restore_tare && restored_tare_ug > 0)
                && snapshot.tare_mass_ug == (if zero_tare.tare_active then restored_tare_ug else 0)
                && this.metrology == metrology && this.calibration == calibration
                && metrology.active_profile < WEIGHING_PROFILE_COUNT
                && SetFrom(metrology.Profile(metrology.active_profile)) && !runtime_drift.snapshot.enabled
                && runtime_drift_learning_allowed
    {
      hide WeightFilter.WeightFilter.Valid, StabilityDetector.StabilityDetector.Valid,
        RuntimeDrift.RuntimeDriftCompensator.Valid, DisplayOverload, CanonicalValid, ConvertMass, CalibrationValid,
        ProfileValid, ZeroTareState.Valid, Balanced, Apart, Past;
      if !CanonicalValid(metrology) || (calibration.calibration_valid && Validate(calibration) != CalibrationOk) {
        return false;
      }
      CanonicalParts(metrology);
      this.metrology, this.calibration := metrology, calibration;
      InitParts(metrology.Profile(metrology.active_profile));
      zero_tare.InitMass(restored_tare_ug, restore_tare);
      has_raw_sample, sample_tick, runtime_drift_learning_allowed := false, 0, true;
      FirstSnapshot();
      initialized := true;
      JustStarted();
      return true;
    }

    lemma JustStarted()
      requires Apart() && filter.Valid() && stability.Valid() && runtime_drift.Valid() && zero_tare.Valid()
      requires filter.initialized && stability.initialized && runtime_drift.initialized
      requires runtime_drift.config == RuntimeDrift.DEFAULT_CONFIG && metrology.active_profile < WEIGHING_PROFILE_COUNT
      requires metrology.zero_range_ug >= 0 && (calibration.calibration_valid ==> CalibrationValid(calibration))
      requires snapshot.sample_timestamp_ms == 0 == sample_tick
      requires runtime_drift.past.clock == 0 && stability.past.times == []
      ensures Valid()
    {
      hide WeightFilter.WeightFilter.Valid, StabilityDetector.StabilityDetector.Valid, Apart,
        RuntimeDrift.RuntimeDriftCompensator.Valid, CalibrationValid, ZeroTareState.Valid;
    }

    // Before the first sample there is nothing but a restored tare.
    method FirstSnapshot()
      requires !filter.ready
      modifies this`snapshot
      ensures Accounted() && snapshot.tare_mass_ug == zero_tare.tare_mass_ug && snapshot.sample_timestamp_ms == 0
    {
      hide DisplayOverload, ConvertMass, CalibrationValid;
      snapshot := BLANK_SNAPSHOT.(tare_mass_ug := zero_tare.tare_mass_ug,
      status_flags := NO_FLAGS.(tare_active := zero_tare.tare_active));
    }

    method FilterSample(sample: RawMeasurementSample, ghost tick: nat)
      requires Valid() && initialized && sample_tick <= tick && sample.timestamp_ms == tick % 0x1_0000_0000
      modifies this`sample_tick, this`snapshot, this`has_raw_sample, filter, filter.average_buffer
      modifies filter.median_history
      ensures Valid() && has_raw_sample && snapshot.raw_value == sample.raw_value && sample_tick == tick
      ensures filter.inputs == old(filter.inputs) + [sample.raw_value]
      ensures snapshot.filtered_raw == WeightFilter.Output(filter.mode, filter.strength, filter.inputs)
      ensures snapshot.sample_sequence == old(snapshot.sample_sequence)
      ensures snapshot.sample_timestamp_ms == sample.timestamp_ms
      ensures snapshot.filter_sample_count == filter.accepted_count
      ensures snapshot.status_flags.raw_valid && snapshot.status_flags.filter_ready == filter.ready
    {
      hide WeightFilter.WeightFilter.Valid, StabilityDetector.StabilityDetector.Valid,
        RuntimeDrift.RuntimeDriftCompensator.Valid, WeightFilter.Output, CalibrationValid;
      sample_tick := tick;
      snapshot := snapshot.(raw_value := sample.raw_value, sample_timestamp_ms := sample.timestamp_ms,
      status_flags := snapshot.status_flags.(raw_valid := true));
      has_raw_sample := true;
      var filtered := filter.Process(sample.raw_value);
      snapshot := snapshot.(filtered_raw := filtered.value, filter_sample_count := filter.accepted_count,
      status_flags := snapshot.status_flags.(filter_ready := filter.ready));
    }

    method ProcessRawSample(sample: RawMeasurementSample, ghost tick: nat) returns (ok: bool)
      requires Valid() && sample_tick <= tick && sample.timestamp_ms == tick % 0x1_0000_0000
      modifies this, Parts()
      ensures Valid() && initialized == old(initialized)
      ensures !initialized || !sample.valid ==> !ok && snapshot == old(snapshot)
      // After a successful sample the accounts balance, on the filtered value of all samples.
      ensures ok ==>
                && Accounted() && has_raw_sample && snapshot.raw_value == sample.raw_value
                && filter.inputs == old(filter.inputs) + [sample.raw_value]
                && snapshot.filtered_raw == WeightFilter.Output(filter.mode, filter.strength, filter.inputs)
                && snapshot.sample_sequence == Next(old(snapshot.sample_sequence)) && sample_tick == tick
                && snapshot.sample_timestamp_ms == sample.timestamp_ms && snapshot.status_flags.raw_valid
                && snapshot.status_flags.filter_ready == filter.ready
                && snapshot.filter_sample_count == filter.accepted_count
      // Stability is judged on the net mass, and the compensator learns from the mass before its own offset.
      ensures ok ==> if snapshot.status_flags.weight_valid then Told(true) else ToldNothing()
    {
      hide WeightFilter.WeightFilter.Valid, StabilityDetector.StabilityDetector.Valid,
        RuntimeDrift.RuntimeDriftCompensator.Valid, DisplayOverload, StandardValid, ConvertMass;
      if !initialized || !sample.valid { return false; }
      FilterSample(sample, tick);
      var updated := UpdateDerived(true);
      if !updated { return false; }
      snapshot := snapshot.(sample_sequence := Next(snapshot.sample_sequence));
      return true;
    }

    // Zero either leaves a balanced zero or is refused and changes nothing.
    method Zero() returns (result: WeightActionResult)
      requires Valid()
      modifies this, Parts()
      ensures Valid() && initialized == old(initialized)
      ensures result == (if !initialized then InvalidArgument
                         else if !old(has_raw_sample) then NoSample
                         else if !old(filter.ready) then FilterNotReady
                         else old(zero_tare.ZeroRefused(snapshot.filtered_raw, calibration.raw_zero,
                                                        snapshot.gross_mass_ug, metrology.zero_range_ug,
                                                        snapshot.status_flags.stable,
                                                        calibration.calibration_valid)))
      ensures result == ActionOk ==>
                && old(calibration.calibration_valid && !zero_tare.tare_active && snapshot.status_flags.stable)
                && 0 < metrology.zero_range_ug && old(Abs(snapshot.gross_mass_ug)) <= metrology.zero_range_ug
                && zero_tare.zero_offset_raw == old(snapshot.filtered_raw) - calibration.raw_zero
      ensures result == ActionOk ==>
                && Accounted() && snapshot.gross_mass_ug == 0 && snapshot.net_mass_ug == 0
                && snapshot.status_flags.weight_valid && snapshot.status_flags.zero && !snapshot.status_flags.stable
                && runtime_drift.snapshot.offset_ug == 0
      ensures result != ActionOk ==> snapshot == old(snapshot) && CurrentBooks() == old(CurrentBooks())
    {
      hide WeightFilter.WeightFilter.Valid, StabilityDetector.StabilityDetector.Valid,
        RuntimeDrift.RuntimeDriftCompensator.Valid, DisplayOverload, StandardValid, ConvertMass;
      if !initialized { return InvalidArgument; }
      if !has_raw_sample { return NoSample; }
      if !filter.ready { return FilterNotReady; }
      result := zero_tare.ApplyZeroMass(
        snapshot.filtered_raw, calibration.raw_zero, snapshot.gross_mass_ug, metrology.zero_range_ug,
        snapshot.status_flags.stable, calibration.calibration_valid);
      if result == ActionOk {
        ZeroedConverts(calibration, snapshot.filtered_raw);
        Restart(RuntimeDrift.ResetManualZero);
        var updated := UpdateDerived(false);
        if !updated { return InternalError; }
      }
    }

    method ResetZero() returns (result: WeightActionResult)
      requires Valid()
      modifies this, Parts()
      ensures Valid() && initialized == old(initialized)
      ensures result == ActionOk ==>
                && zero_tare.zero_offset_raw == 0 && runtime_drift.snapshot.offset_ug == 0
                && (has_raw_sample ==> Accounted() && !snapshot.status_flags.stable)
    {
      hide WeightFilter.WeightFilter.Valid, StabilityDetector.StabilityDetector.Valid,
        RuntimeDrift.RuntimeDriftCompensator.Valid, DisplayOverload, StandardValid, ConvertMass;
      if !initialized { return InvalidArgument; }
      result := zero_tare.ResetZero();
      Restart(RuntimeDrift.ResetZeroRestore);
      if has_raw_sample {
        var updated := UpdateDerived(false);
        if !updated { return InternalError; }
      }
    }

    // Tare from a balanced snapshot makes the net mass zero.
    method Tare() returns (result: WeightActionResult)
      requires Valid()
      modifies this, Parts()
      ensures Valid() && initialized == old(initialized)
      ensures result == ActionOk ==>
                Accounted() && zero_tare.tare_mass_ug == old(snapshot.gross_mass_ug) && !snapshot.status_flags.stable
      ensures result == ActionOk && old(Accounted()) ==>
                && snapshot.net_mass_ug == 0 && snapshot.gross_mass_ug == old(snapshot.gross_mass_ug)
                && snapshot.status_flags.weight_valid
      ensures result == ActionOk ==> Rearmed(RuntimeDrift.FreezeTareRearm)
      ensures old(Accounted()) ==> result != InternalError
      // Refused for the first of these reasons, and for no other.
      ensures result == InvalidArgument <==> !initialized
      ensures result == NoSample <==> initialized && !old(has_raw_sample)
      ensures result == FilterNotReady <==> initialized && old(has_raw_sample && !filter.ready)
      ensures initialized && old(has_raw_sample && filter.ready) ==>
                && (result == CalibrationInvalid <==> !calibration.calibration_valid)
                && (result == Overload <==> calibration.calibration_valid && old(snapshot.status_flags.overload))
                && (result == NotStable <==>
                      calibration.calibration_valid
                      && old(!snapshot.status_flags.overload && !snapshot.status_flags.stable))
                && (result == ActionOk || result == InternalError <==>
                      calibration.calibration_valid
                      && old(!snapshot.status_flags.overload && snapshot.status_flags.stable))
      ensures result != ActionOk && result != InternalError ==>
                snapshot == old(snapshot) && CurrentBooks() == old(CurrentBooks())
    {
      hide WeightFilter.WeightFilter.Valid, StabilityDetector.StabilityDetector.Valid, Apart, Balanced,
        RuntimeDrift.RuntimeDriftCompensator.Valid, DisplayOverload, StandardValid, ConvertMass, CalibrationValid;
      ghost var s, b := snapshot, CurrentBooks();
      if !initialized { return InvalidArgument; }
      if !has_raw_sample { return NoSample; }
      if !filter.ready { return FilterNotReady; }
      result := zero_tare.ApplyTareMass(
        snapshot.gross_mass_ug, snapshot.status_flags.stable, calibration.calibration_valid,
        snapshot.status_flags.overload);
      if result == ActionOk {
        BalancedConverts(s, b);
        var updated := Rebalance();
        if !updated { return InternalError; }
        TareNets(s, b, snapshot, CurrentBooks());
        RearmDrift(RuntimeDrift.FreezeTareRearm);
      }
    }

    // A new plateau is learned; the offset and the books stay.
    method RearmDrift(reason: RuntimeDrift.FreezeReason)
      requires Valid() && initialized
      modifies runtime_drift
      ensures Valid() && CurrentBooks() == old(CurrentBooks()) && Rearmed(reason)
    {
      hide WeightFilter.WeightFilter.Valid, StabilityDetector.StabilityDetector.Valid, Apart, ZeroTareState.Valid,
        RuntimeDrift.RuntimeDriftCompensator.Valid, CalibrationValid;
      runtime_drift.Rearm(snapshot.sample_timestamp_ms, reason, sample_tick);
    }

    // The accounts after a change of the tare; stability starts over.
    method Rebalance() returns (ok: bool)
      requires Valid() && initialized
      modifies this`snapshot, stability, stability.samples, runtime_drift
      ensures Valid() && (ok ==> Accounted()) && (Representable() ==> ok) && SameSample(old(snapshot), snapshot)
      ensures stability.state == StabilityDetector.Unavailable
      ensures runtime_drift.snapshot.offset_ug == old(runtime_drift.snapshot.offset_ug)
    {
      hide WeightFilter.WeightFilter.Valid, StabilityDetector.StabilityDetector.Valid, Balanced,
        RuntimeDrift.RuntimeDriftCompensator.Valid, DisplayOverload, StandardValid, ConvertMass;
      stability.Reset();
      ok := UpdateDerived(false);
    }

    method ClearTare() returns (result: WeightActionResult)
      requires Valid()
      modifies this, Parts()
      ensures Valid() && initialized == old(initialized)
      ensures result == ActionOk ==>
                && !zero_tare.tare_active && zero_tare.tare_mass_ug == 0
                && (has_raw_sample ==> Accounted() && snapshot.net_mass_ug == snapshot.gross_mass_ug)
                && (!has_raw_sample ==> snapshot == old(snapshot))
                && stability.state == StabilityDetector.Unavailable
                && stability.past == StabilityDetector.Past([], []) && Rearmed(RuntimeDrift.FreezeClearTareRearm)
      ensures result == InvalidArgument <==> !initialized
      ensures initialized && !old(has_raw_sample) ==> result == ActionOk
    {
      hide WeightFilter.WeightFilter.Valid, StabilityDetector.StabilityDetector.Valid,
        RuntimeDrift.RuntimeDriftCompensator.Valid, DisplayOverload, StandardValid, ConvertMass, CalibrationValid;
      if !initialized { return InvalidArgument; }
      result := zero_tare.ClearTare();
      stability.Reset();
      if has_raw_sample {
        var updated := UpdateDerived(false);
        if !updated { return InternalError; }
      }
      RearmDrift(RuntimeDrift.FreezeClearTareRearm);
    }

    method ApplyCalibration(calibration: CalibrationConfig) returns (ok: bool)
      requires Valid()
      modifies this, Parts()
      ensures Valid() && initialized == old(initialized)
      ensures !initialized || !CalibrationValid(calibration) ==> !ok && snapshot == old(snapshot)
      ensures ok ==>
                && this.calibration == calibration && runtime_drift.snapshot.offset_ug == 0
                && (has_raw_sample ==> Accounted() && !snapshot.status_flags.stable)
                && (!has_raw_sample ==> snapshot == old(snapshot) && StartsOver(RuntimeDrift.ResetCalibrationApply))
                && stability.past == StabilityDetector.Past([], [])
      ensures initialized && CalibrationValid(calibration) && !old(has_raw_sample) ==> ok
    {
      hide WeightFilter.WeightFilter.Valid, StabilityDetector.StabilityDetector.Valid,
        RuntimeDrift.RuntimeDriftCompensator.Valid, DisplayOverload, StandardValid, ConvertMass;
      if !initialized || Validate(calibration) != CalibrationOk { return false; }
      this.calibration := calibration;
      Restart(RuntimeDrift.ResetCalibrationApply);
      if !has_raw_sample { return true; }
      ok := UpdateDerived(false);
    }

    // A weight is flagged stable exactly while the net masses told to the detector
    // have a steady stretch behind them, for distinct thresholds and regular times.
    lemma StableWeightIsSteady()
      requires Valid() && initialized && Accounted() && snapshot.status_flags.weight_valid
      ensures var c, past := stability.Config(), stability.past;
        && (snapshot.status_flags.stable ==>
              exists from, entry :: StabilityDetector.Steady(c, past, from, entry, |past.samples|))
        && (StabilityDetector.Regular(c, past)
            && (exists from, entry :: StabilityDetector.Steady(c, past, from, entry, |past.samples|)) ==>
              snapshot.status_flags.stable)
    {
      hide WeightFilter.WeightFilter.Valid, StabilityDetector.StabilityDetector.Valid, StabilityDetector.Steady,
        RuntimeDrift.RuntimeDriftCompensator.Valid, DisplayOverload, ConvertMass;
      stability.StableIsSteady();
    }

    // The firmware's drift settings are tame, so the offset keeps its rate in every
    // reachable state: at most 500 ug per minute since the last reset.
    lemma DriftRate()
      requires Valid() && initialized
      ensures var d, past := runtime_drift.snapshot, runtime_drift.past;
              && Abs(d.offset_ug) <= 500000 && Abs(d.offset_ug) * 60000 <= 500 * (past.clock - past.reset_at)
              && (d.offset_ug != 0 ==> past.clock - past.reset_at >= 360000)
    {
      runtime_drift.Rate();
    }

    // The history of the old filter is dropped, and the accounts with it.
    method ReconfigureFilter(mode: u8, strength: u8) returns (ok: bool)
      requires Valid()
      modifies this, Parts()
      ensures Valid() && initialized == old(initialized)
      ensures ok == (initialized && WeightFilter.IsConfigurationValid(mode, strength))
      ensures ok ==>
                && Accounted() && filter.inputs == [] && !snapshot.status_flags.weight_valid
                && snapshot.filtered_raw == 0 && filter.mode == mode && filter.strength == strength
                && snapshot.filter_sample_count == 0 && !snapshot.status_flags.filter_ready && !filter.ready
                && runtime_drift.snapshot.offset_ug == 0 && StartsOver(RuntimeDrift.ResetProfileChange)
      // The active profile has the new filter, everything else stays.
      ensures ok ==>
                metrology == if old(metrology.active_profile) == 0
                  then old(metrology).(high_precision := old(metrology.high_precision).(
                                         filter_mode := mode, filter_strength := strength))
                  else old(metrology).(high_speed := old(metrology.high_speed).(
                                         filter_mode := mode, filter_strength := strength))
      ensures !ok ==> snapshot == old(snapshot)
    {
      hide WeightFilter.WeightFilter.Valid, StabilityDetector.StabilityDetector.Valid,
        RuntimeDrift.RuntimeDriftCompensator.Valid, DisplayOverload, StandardValid, ConvertMass;
      if !initialized { return false; }
      var replaced := filter.Init(mode, strength);
      if !replaced { return false; }
      metrology := WithFilter(metrology, mode, strength);
      Restart(RuntimeDrift.ResetProfileChange);
      snapshot := snapshot.(filtered_raw := 0, filter_sample_count := 0,
      status_flags := snapshot.status_flags.(filter_ready := false));
      ClearDerived();
      return true;
    }

    method SetRuntimeDriftEnabled(enabled: bool) returns (ok: bool)
      requires Valid()
      modifies this, Parts()
      ensures Valid() && initialized == old(initialized)
      ensures ok ==>
                && runtime_drift.snapshot.enabled == enabled && runtime_drift.snapshot.offset_ug == 0
                && (has_raw_sample ==> Accounted()) && (!has_raw_sample ==> snapshot == old(snapshot))
      ensures initialized && !old(has_raw_sample) ==> ok
    {
      hide WeightFilter.WeightFilter.Valid, StabilityDetector.StabilityDetector.Valid,
        RuntimeDrift.RuntimeDriftCompensator.Valid, DisplayOverload, StandardValid, ConvertMass;
      if !initialized { return false; }
      var now_ms := snapshot.sample_timestamp_ms;
      ok := runtime_drift.SetEnabled(enabled, now_ms, sample_tick);
      if !ok { return false; }
      if has_raw_sample {
        var updated := UpdateDerived(false);
        if !updated { return false; }
      }
      ok := runtime_drift.SetEnabled(enabled, now_ms, sample_tick);
    }

    // The snapshot keeps the old offset until the next sample.
    method ResetRuntimeDrift(reason: RuntimeDrift.ResetReason)
      requires Valid()
      modifies runtime_drift
      ensures Valid() && (initialized ==> runtime_drift.snapshot.offset_ug == 0)
      ensures old(Accounted()) && initialized && snapshot.status_flags.weight_valid ==>
                (Accounted() <==> old(runtime_drift.snapshot.offset_ug) == 0)
    {
      if initialized {
        runtime_drift.Reset(snapshot.sample_timestamp_ms, reason, sample_tick);
      }
    }
  }

  lemma CanonicalParts(m: MetrologyConfig)
    requires CanonicalValid(m)
    ensures m.active_profile < WEIGHING_PROFILE_COUNT && ProfileValid(m.Profile(m.active_profile))
    ensures m.zero_range_ug >= 0
  {
    hide StandardValid, UnitValid, ProfileValid;
  }

  function WithFilter(m: MetrologyConfig, mode: u8, strength: u8): MetrologyConfig {
    if m.active_profile == WEIGHING_PROFILE_HIGH_PRECISION
    then m.(high_precision := m.high_precision.(filter_mode := mode, filter_strength := strength))
    else m.(high_speed := m.high_speed.(filter_mode := mode, filter_strength := strength))
  }
}
