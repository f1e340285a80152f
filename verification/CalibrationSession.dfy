// The calibration session of Protocol/command_service/command_service.c: who
// holds it, what was captured in it, and what it may apply.
module CalibrationSession {
  import opened FixedWidth
  import opened MassMath
  import opened UnitConverter
  import opened Configuration
  import opened CalibrationModel
  import opened RingBuffer
  import R = RawCalibrationStability

  const CAL_RAW_WINDOW_SIZE: u8 := 8
  const CAL_RAW_ENTER_THRESHOLD_COUNTS: u32 := 50
  const CAL_RAW_STABLE_HOLD_MS: u32 := 500
  const CALIBRATION_SESSION_TIMEOUT_MS: u32 := 120000

  datatype CommandResult =
    | ResultOk | ResultInvalidArgument | ResultInvalidState | ResultNotStable | ResultBusy | ResultCalibrationInvalid
    | ResultInternalError

  datatype CommandSource = SourceLocalKey | SourceModbus | SourceBle | SourceUsb | SourceDiagnostic

  datatype CalibrationOwner = OwnerNone | OwnerLocalUi | OwnerModbus | OwnerBle

  datatype WorkflowState =
    | Idle | WaitZeroStable | ZeroReady | ZeroCaptured | WaitLoadStable | LoadReady | ResultReady | Applied | Failed

  // The settings a session is bound to.
  datatype Locked = Locked(capacity_ug: i64, display: UnitDisplayConfig, unit: MassUnit, sample_rate: u8, gain: u8)

  datatype CalibrationState = CalibrationState(
    raw_zero: i32, raw_span: i32, span_mass_ug: i64, locked: Locked, candidate: CalibrationConfig, state: WorkflowState,
    owner: CalibrationOwner, last_result: CommandResult, last_activity_ms: u32, last_sample_sequence: u32,
    capture_sample_sequence: u32, session_id: u16, active: bool, have_zero: bool, have_span: bool, have_weight: bool)

  const NOT_LOCKED: Locked := Locked(0, UnitDisplayConfig(false, 0, 0), 0, 0, 0)

  // memset, and the state of no session.
  function Cleared(state: WorkflowState, session_id: u16, last_result: CommandResult): CalibrationState {
    CalibrationState(0, 0, 0, NOT_LOCKED, BLANK, state, OwnerNone, last_result, 0, 0, 0, session_id, false, false,
                     false, false)
  }

  function OwnerOf(source: CommandSource): CalibrationOwner {
    match source
    case SourceModbus => OwnerModbus
    case SourceBle => OwnerBle
    case _ => OwnerLocalUi
  }

  function LockedOf(m: MetrologyConfig): Locked
    requires m.active_unit < MASS_UNIT_COUNT && m.active_profile < WEIGHING_PROFILE_COUNT
  {
    var profile := m.Profile(m.active_profile);
    Locked(m.capacity_ug, m.UnitDisplay(m.active_unit), m.active_unit, profile.sample_rate, profile.gain)
  }

  // The settings in force are still the locked ones.
  predicate Matches(l: Locked, m: MetrologyConfig)
    requires m.active_profile < WEIGHING_PROFILE_COUNT
  {
    && l.unit < MASS_UNIT_COUNT && m.active_unit == l.unit && m.capacity_ug == l.capacity_ug
    && m.UnitDisplay(l.unit).decimal_places == l.display.decimal_places
    && m.UnitDisplay(l.unit).division_digit == l.display.division_digit
    && m.Profile(m.active_profile).sample_rate == l.sample_rate && m.Profile(m.active_profile).gain == l.gain
  }

  predicate MassValid(l: Locked, mass: i64) {
    && 0 < mass <= l.capacity_ug && l.display.division_digit != 0
    && var (ok, shown) := MassToDisplay(mass, l.unit, l.display);
    && ok && shown.valid && !shown.overflow && shown.display_count > 0
    && shown.display_count % l.display.division_digit == 0
    && CountToMass(shown.display_count, l.unit, l.display.decimal_places) == Some(mass)
  }

  // A calibration mass is exactly the mass of a number the locked display can
  // show, up to the capacity.
  lemma MassValidIsShown(l: Locked, mass: i64)
    requires l.display.enabled && OnGrid(l.unit, l.display.decimal_places, l.display.division_digit)
    ensures MassValid(l, mass) <==>
              && 0 < mass <= l.capacity_ug
              && exists count: int :: 0 < count <= 999999 && ShownAs(l, mass, count)
  {
    hide RoundHalfAway, Quantized;
    if MassValid(l, mass) {
      var (ok, shown) := MassToDisplay(mass, l.unit, l.display);
      assert ShownAs(l, mass, shown.display_count);
    }
    forall count: int | 0 < count <= 999999 && ShownAs(l, mass, count) && 0 < mass <= l.capacity_ug
      ensures MassValid(l, mass)
    {
      GridRoundTrip(count, l.unit, l.display.decimal_places, l.display.division_digit);
    }
  }

  predicate ShownAs(l: Locked, mass: i64, count: int) {
    && FitsI64(count) && l.display.division_digit != 0 && count % l.display.division_digit == 0
    && CountToMass(count, l.unit, l.display.decimal_places) == Some(mass)
  }

  // ---- where the numbers came from ------------------------------------------------------------

  datatype Capture = Capture(from: nat, to: nat)

  // The samples of the session, the first since the detector was restarted, and
  // the windows that were captured.
  datatype SessionPast = SessionPast(log: seq<i32>, restart: nat, zero: Capture, load: Capture)

  // The value is the rounded mean of eight steady consecutive samples.
  ghost predicate CapturedFrom(log: seq<i32>, c: Capture, value: int) {
    && c.from + 8 == c.to <= |log|
    && value == R.Mean(log[c.from..c.to]) && R.Steady(log[c.from..c.to], CAL_RAW_ENTER_THRESHOLD_COUNTS)
  }

  // A calibration built from two such windows, zero before load, and a mass of
  // the locked grid.
  ghost predicate BuiltFrom(c: CalibrationConfig, zero: i32, span: i32, mass: i64, l: Locked, p: SessionPast) {
    && CapturedFrom(p.log, p.zero, zero) && CapturedFrom(p.log, p.load, span) && p.zero.to <= p.load.from
    && MassValid(l, mass) && BuildMass(zero, span, mass, c.calibration_sequence) == (CalibrationOk, c)
  }

  // A sample that was not seen before, while a session waits for one.
  predicate IsJudged(c: CalibrationState, sample: Option<Sample>) {
    && (c.state == WaitZeroStable || c.state == ZeroReady || c.state == WaitLoadStable || c.state == LoadReady)
    && sample.Some? && sample.value.filter_ready && sample.value.sample_sequence != c.last_sample_sequence
  }

  // The next state, of the zero or of the load, is the ready one only after a full
  // hold time of steady windows, and at regular times always then.
  ghost predicate BecomesReady(before: WorkflowState, after: WorkflowState, p: R.Past) {
    var zero := before == WaitZeroStable || before == ZeroReady;
    && after in (if zero then {WaitZeroStable, ZeroReady} else {WaitLoadStable, LoadReady})
    && (after == ZeroReady || after == LoadReady ==> R.SteadyFor(p, 8, 50, 500))
    && (R.Regular(p, 500) && R.SteadyFor(p, 8, 50, 500) ==> after == ZeroReady || after == LoadReady)
  }

  predicate BeforeZero(s: WorkflowState) { s == WaitZeroStable || s == ZeroReady }

  predicate AwaitsLoad(s: WorkflowState) { s == WaitLoadStable || s == LoadReady }

  // What holds throughout a session.
  ghost predicate Sound(c: CalibrationState, p: SessionPast, stable: bool) {
    && (c.active <==> BeforeZero(c.state) || c.state == ZeroCaptured || AwaitsLoad(c.state) || c.state == ResultReady)
    && (c.active ==>
          && c.locked.unit < MASS_UNIT_COUNT && c.owner != OwnerNone && c.session_id != 0
          && (c.have_zero <==> !BeforeZero(c.state)) && (c.have_span <==> c.state == ResultReady)
          && (c.state == ZeroReady || c.state == LoadReady ==> stable)
          && (c.state == WaitZeroStable || c.state == WaitLoadStable ==> !stable)
          && (AwaitsLoad(c.state) ==> c.have_weight) && (c.have_span ==> c.have_weight)
          && (!c.have_span ==> !c.candidate.calibration_valid)
          && Sourced(c, p))
  }

  // What was captured comes from the session's own samples, the load from behind the zero.
  ghost predicate Sourced(c: CalibrationState, p: SessionPast) {
    && (c.have_zero ==> CapturedFrom(p.log, p.zero, c.raw_zero))
    && (AwaitsLoad(c.state) ==> p.zero.to <= p.restart)
    && (c.have_weight ==> MassValid(c.locked, c.span_mass_ug))
    && (c.have_span ==> BuiltFrom(c.candidate, c.raw_zero, c.raw_span, c.span_mass_ug, c.locked, p))
  }

  datatype Sample = Sample(filter_ready: bool, sample_sequence: u32, filtered_raw: i32, timestamp_ms: u32)

  class Session {
    var calibration: CalibrationState
    const stability: R.RawCalibrationStability
    var now_ms: u32
    ghost var past: SessionPast

    ghost predicate Valid()
      reads this, stability, stability.samples
    {
      stability.Valid() && Sound(calibration, past, stability.stable) && (calibration.active ==> Fed())
    }

    // The detector was fed the samples of the session since its restart.
    ghost predicate Fed()
      reads this`past, stability
    {
      && stability.window_size == CAL_RAW_WINDOW_SIZE
      && stability.enter_threshold_counts == CAL_RAW_ENTER_THRESHOLD_COUNTS
      && stability.stable_hold_ms == CAL_RAW_STABLE_HOLD_MS
      && past.restart <= |past.log| && stability.past.samples == past.log[past.restart..]
    }

    constructor ()
      ensures Valid() && fresh(stability) && fresh(stability.samples)
      ensures calibration == Cleared(Idle, 0, ResultOk) && now_ms == 0 && past.log == []
    {
      calibration, now_ms := Cleared(Idle, 0, ResultOk), 0;
      past := SessionPast([], 0, Capture(0, 0), Capture(0, 0));
      stability := new R.RawCalibrationStability();
    }

    // Starts a session: everything of an earlier one is gone.
    method Begin(source: CommandSource, m: MetrologyConfig, others_busy: bool,
                 config_in_use: bool) returns (result: CommandResult)
      requires Valid()
      modifies this, stability, stability.samples
      ensures Valid()
      ensures result == if others_busy || old(calibration.active) || config_in_use then ResultBusy
                        else if m.active_unit >= MASS_UNIT_COUNT || m.active_profile >= WEIGHING_PROFILE_COUNT
                        then ResultCalibrationInvalid else ResultOk
      ensures result == ResultOk ==>
                && calibration.active && calibration.state == WaitZeroStable && calibration.owner == OwnerOf(source)
                && calibration.locked == LockedOf(m) && Matches(calibration.locked, m) && past.log == []
                && calibration.last_activity_ms == now_ms && !calibration.have_zero && !calibration.have_weight
                && !calibration.have_span && calibration.last_result == ResultOk
      // Sessions are numbered from 1 to 65535 and round again.
      ensures result == ResultOk ==>
                calibration.session_id == if old(calibration.session_id) == 65535 then 1
                                          else old(calibration.session_id) + 1
      ensures result != ResultOk ==>
                && calibration == old(calibration).(
                                    last_result := if others_busy then old(calibration.last_result) else result)
                && past == old(past)
      ensures now_ms == old(now_ms)
    {
      hide MassValid, CapturedFrom, R.RawCalibrationStability.Valid;
      if others_busy { return ResultBusy; }
      if calibration.active || config_in_use {
        calibration := calibration.(last_result := ResultBusy);
        return ResultBusy;
      }
      if m.active_unit >= MASS_UNIT_COUNT || m.active_profile >= WEIGHING_PROFILE_COUNT {
        calibration := calibration.(last_result := ResultCalibrationInvalid);
        return ResultCalibrationInvalid;
      }
      var next_session := (calibration.session_id + 1) % TWO_16;
      if next_session == 0 { next_session := 1; }
      Open(next_session, OwnerOf(source), LockedOf(m));
      return ResultOk;
    }

    // The new session waits for a steady zero.
    method Open(session_id: u16, owner: CalibrationOwner, locked: Locked)
      requires stability.Valid() && session_id != 0 && owner != OwnerNone && locked.unit < MASS_UNIT_COUNT
      modifies this, stability, stability.samples
      ensures Valid() && past == SessionPast([], 0, Capture(0, 0), Capture(0, 0)) && now_ms == old(now_ms)
      ensures calibration == Cleared(WaitZeroStable, session_id, ResultOk).(
                               owner := owner, locked := locked, last_activity_ms := old(now_ms), active := true)
    {
      hide MassValid, CapturedFrom, R.RawCalibrationStability.Valid;
      var ready := stability.Init(CAL_RAW_WINDOW_SIZE, CAL_RAW_ENTER_THRESHOLD_COUNTS, CAL_RAW_STABLE_HOLD_MS);
      calibration := Cleared(WaitZeroStable, session_id, ResultOk).(
      owner := owner, locked := locked, last_activity_ms := now_ms, active := ready);
      past := SessionPast([], 0, Capture(0, 0), Capture(0, 0));
    }

    // The request comes from the owner of this session.
    method RequireOwner(source: CommandSource, requested_session: u16) returns (result: CommandResult)
      requires Valid()
      modifies this`calibration
      ensures Valid()
      ensures result == OwnerCheck(old(calibration), source, requested_session)
      ensures calibration == if result == ResultOk
                then old(calibration).(last_activity_ms := now_ms) else old(calibration)
    {
      hide MassValid, CapturedFrom, BuiltFrom, R.RawCalibrationStability.Valid;
      if !calibration.active { return ResultInvalidState; }
      if calibration.owner != OwnerOf(source) { return ResultBusy; }
      if source == SourceBle && requested_session != calibration.session_id { return ResultInvalidState; }
      if requested_session != 0 && requested_session != calibration.session_id { return ResultInvalidState; }
      calibration := calibration.(last_activity_ms := now_ms);
      return ResultOk;
    }

    method Answer(result: CommandResult)
      requires Valid()
      modifies this`calibration
      ensures Valid() && calibration == old(calibration).(last_result := result)
    {
      hide MassValid, CapturedFrom, BuiltFrom, R.RawCalibrationStability.Valid;
      calibration := calibration.(last_result := result);
    }

    // A pass of the main loop: a silent session ends, a new sample is judged.
    method Process(now_ms: u32, sample: Option<Sample>, ghost tick: nat)
      requires Valid()
      requires sample.Some? ==> sample.value.timestamp_ms == tick % 0x1_0000_0000
      requires forall k :: 0 <= k < |stability.past.times| ==> stability.past.times[k] <= tick
      modifies this, stability, stability.samples
      ensures Valid() && this.now_ms == now_ms
      ensures calibration.session_id == old(calibration.session_id)
      ensures calibration.active ==> calibration == old(calibration).(
                                                      state := calibration.state,
                                                      last_sample_sequence := calibration.last_sample_sequence)
      // A silent session ends, and no other.
      ensures old(calibration.active) ==>
                (calibration.active <==> (now_ms - old(calibration.last_activity_ms)) % 0x1_0000_0000 < 120000)
      ensures old(calibration.active) && !calibration.active ==>
                calibration == Cleared(Idle, old(calibration.session_id), ResultInvalidState)
      ensures !old(calibration.active) ==> calibration == old(calibration)
      // A new filtered sample is judged while a steady zero or load is awaited; with
      // it the session is ready exactly when eight-sample windows within 50 counts
      // have been steady for 500 ms.
      ensures calibration.active ==>
                if old(calibration.state) in {WaitZeroStable, ZeroReady, WaitLoadStable, LoadReady} && sample.Some?
                   && sample.value.filter_ready
                   && sample.value.sample_sequence != old(calibration.last_sample_sequence)
                then past.log == old(past.log) + [sample.value.filtered_raw]
                else past.log == old(past.log) && calibration == old(calibration)
      ensures calibration.active ==>
                if IsJudged(old(calibration), sample)
                then && past == old(past).(log := old(past.log) + [sample.value.filtered_raw])
                     && stability.past.times == old(stability.past.times) + [tick]
                     && calibration.last_sample_sequence == sample.value.sample_sequence
                     && BecomesReady(old(calibration.state), calibration.state, stability.past)
                else calibration == old(calibration) && past == old(past) && stability.past == old(stability.past)
    {
      hide MassValid, CapturedFrom, R.Steady, Elapsed, R.RawCalibrationStability.Valid, R.SteadyFor, R.Regular;
      SessionTimeout();
      this.now_ms := now_ms;
      if !calibration.active { return; }
      if Elapsed(now_ms, calibration.last_activity_ms) >= CALIBRATION_SESSION_TIMEOUT_MS {
        calibration := Cleared(Idle, calibration.session_id, ResultInvalidState);
        return;
      }
      if !BeforeZero(calibration.state) && !AwaitsLoad(calibration.state) { return; }
      if sample.None? || !sample.value.filter_ready
         || sample.value.sample_sequence == calibration.last_sample_sequence {
        return;
      }
      calibration := calibration.(last_sample_sequence := sample.value.sample_sequence);
      var stable := stability.Process(sample.value.filtered_raw, sample.value.timestamp_ms, tick);
      MoreLog(past, calibration, sample.value.filtered_raw);
      past := past.(log := past.log + [sample.value.filtered_raw]);
      if BeforeZero(calibration.state) {
        calibration := calibration.(state := if stable then ZeroReady else WaitZeroStable);
      } else {
        calibration := calibration.(state := if stable then LoadReady else WaitLoadStable);
      }
    }

    lemma SessionTimeout()
      ensures forall later: u32, earlier: u32 ::
                Elapsed(later, earlier) == (later - earlier) % 0x1_0000_0000
      ensures CALIBRATION_SESSION_TIMEOUT_MS == 120000
    {}

    method RestartStability()
      requires Valid() && calibration.active
      modifies stability, stability.samples, this`past
      ensures stability.Valid() && Fed() && !stability.stable && past == old(past).(restart := |past.log|)
    {
      stability.Reset();
      past := past.(restart := |past.log|);
    }

    // The mean of the steady window just seen, and where it lies in the log.
    method Average() returns (average: Option<i32>, ghost window: Capture)
      requires stability.Valid() && Fed()
      ensures average.Some? <==> stability.stable
      ensures average.Some? ==> CapturedFrom(past.log, window, average.value) && past.restart <= window.from
      ensures window.to == |past.log|
    {
      hide R.Steady, R.Mean, R.RawCalibrationStability.Valid;
      average := stability.GetAverage();
      window := Capture(|past.log| - if |past.log| < 8 then |past.log| else 8, |past.log|);
      if average.Some? {
        var samples := stability.past.samples;
        assert Recent(samples, 8) == past.log[window.from..window.to];
      }
    }

    method CaptureZero(source: CommandSource, requested_session: u16,
                       m: MetrologyConfig) returns (result: CommandResult)
      requires Valid() && m.active_profile < WEIGHING_PROFILE_COUNT
      modifies this, stability, stability.samples
      ensures Valid() && SameSession(old(calibration), calibration) && past.log == old(past.log)
      ensures result == (var check := OwnerCheck(old(calibration), source, requested_session);
                         if check != ResultOk then check
                         else if !Matches(calibration.locked, m) then ResultBusy
                         else if old(calibration.state) == WaitZeroStable then ResultNotStable
                         else if old(calibration.state) != ZeroReady then ResultInvalidState
                         else ResultOk)
      // The zero is the mean of the last eight samples; with a mass set the load is next.
      ensures var served := Served(old(calibration), now_ms, source, requested_session, result);
              if result == ResultOk
              then && calibration == served.(
                                       raw_zero := calibration.raw_zero, have_zero := true,
                                       capture_sample_sequence := served.last_sample_sequence,
                                       state := if served.have_weight then WaitLoadStable else ZeroCaptured)
                   && CapturedFrom(past.log, past.zero, calibration.raw_zero) && past.zero.to == |past.log|
                   && past.restart == if served.have_weight then |past.log| else old(past.restart)
              else calibration == served && past == old(past)
      ensures now_ms == old(now_ms) && past.load == old(past.load)
    {
      hide MassValid, CapturedFrom, R.RawCalibrationStability.Valid, Fed, OwnerCheck;
      result := RequireOwner(source, requested_session);
      if result == ResultOk {
        if !Matches(calibration.locked, m) {
          result := ResultBusy;
        } else if calibration.state == WaitZeroStable {
          result := ResultNotStable;
        } else if calibration.state != ZeroReady {
          result := ResultInvalidState;
        } else {
          StoreZero();
        }
      }
      Answer(result);
    }

    method StoreZero()
      requires Valid() && calibration.active && calibration.state == ZeroReady
      modifies this, stability, stability.samples
      ensures Valid() && past.log == old(past.log) && CapturedFrom(past.log, past.zero, calibration.raw_zero)
      ensures past.zero.to == |past.log| && past.load == old(past.load) && now_ms == old(now_ms)
      ensures past.restart == if calibration.have_weight then |past.log| else old(past.restart)
      ensures calibration == old(calibration).(
                               raw_zero := calibration.raw_zero, have_zero := true,
                               capture_sample_sequence := calibration.last_sample_sequence,
                               state := if calibration.have_weight then WaitLoadStable else ZeroCaptured)
    {
      hide MassValid, CapturedFrom, R.RawCalibrationStability.Valid;
      var average, window := Average();
      if calibration.have_weight { RestartStability(); }
      past := past.(zero := window);
      calibration := calibration.(raw_zero := average.value, have_zero := true,
      capture_sample_sequence := calibration.last_sample_sequence,
      state := if calibration.have_weight then WaitLoadStable else ZeroCaptured);
    }

    method SetSpanMass(source: CommandSource, requested_session: u16, mass: i64, m: MetrologyConfig)
      returns (result: CommandResult)
      requires Valid() && m.active_profile < WEIGHING_PROFILE_COUNT
      modifies this, stability, stability.samples
      ensures Valid() && SameSession(old(calibration), calibration) && past.log == old(past.log)
      ensures result == (var check := OwnerCheck(old(calibration), source, requested_session);
                         if check != ResultOk then check
                         else if !Matches(calibration.locked, m) then ResultBusy
                         else if old(calibration.state) == ResultReady || !MassValid(calibration.locked, mass)
                         then ResultInvalidArgument else ResultOk)
      // With the zero captured the load is waited for, from here on.
      ensures var served := Served(old(calibration), now_ms, source, requested_session, result);
              var next := result == ResultOk && served.state == ZeroCaptured;
              && calibration == (if result == ResultOk
                                 then served.(span_mass_ug := mass, have_weight := true,
                                              state := if next then WaitLoadStable else served.state)
                                 else served)
              && past == old(past).(restart := if next then |past.log| else old(past.restart))
      ensures now_ms == old(now_ms)
    {
      OwnerCheckIs(calibration, source, requested_session);
      hide MassValid, Sourced, R.RawCalibrationStability.Valid, OwnerCheck, Fed, Matches;
      result := RequireOwner(source, requested_session);
      if result == ResultOk {
        if !Matches(calibration.locked, m) {
          result := ResultBusy;
        } else if calibration.state == ResultReady || !MassValid(calibration.locked, mass) {
          result := ResultInvalidArgument;
        } else {
          TakeMass(mass);
        }
      }
      Answer(result);
    }

    // A mass that fits is taken, and the load is next when the zero is there.
    method TakeMass(mass: i64)
      requires Valid() && calibration.active && calibration.state != ResultReady && MassValid(calibration.locked, mass)
      modifies this, stability, stability.samples
      ensures Valid() && now_ms == old(now_ms)
      ensures var next := old(calibration.state) == ZeroCaptured;
              && calibration == old(calibration).(
                                  span_mass_ug := mass, have_weight := true,
                                  state := if next then WaitLoadStable else old(calibration.state))
              && past == old(past).(restart := if next then |past.log| else old(past.restart))
    {
      hide MassValid, CapturedFrom, R.RawCalibrationStability.Valid;
      if calibration.have_zero && calibration.state == ZeroCaptured {
        CaptureInLog(past.log, past.zero, calibration.raw_zero);
        RestartStability();
        calibration := calibration.(state := WaitLoadStable);
      }
      calibration := calibration.(span_mass_ug := mass, have_weight := true);
    }

    method CaptureSpan(source: CommandSource, requested_session: u16, m: MetrologyConfig, sequence: u32)
      returns (result: CommandResult)
      requires Valid() && m.active_profile < WEIGHING_PROFILE_COUNT
      modifies this`calibration, this`past
      ensures Valid() && SameSession(old(calibration), calibration) && past.log == old(past.log)
      ensures result == ResultOk ==>
                && OwnerCheck(old(calibration), source, requested_session) == ResultOk && Matches(calibration.locked, m)
                && old(calibration.state) == LoadReady && calibration.state == ResultReady
                && BuiltFrom(calibration.candidate, calibration.raw_zero, calibration.raw_span,
                             calibration.span_mass_ug,
                             calibration.locked, past)
                && calibration.candidate.calibration_sequence == Next(sequence)
      ensures var (check, c) := (OwnerCheck(old(calibration), source, requested_session), old(calibration));
              if check != ResultOk then result == check
              else if c.state in {WaitZeroStable, ZeroReady, ZeroCaptured} || !c.have_weight then
                result == ResultInvalidState
              else if !Matches(c.locked, m) then result == ResultBusy
              else if c.state == WaitLoadStable then result == ResultNotStable
              else if c.state == ResultReady then result == ResultInvalidState
              else
                && c.state == LoadReady && CapturedFrom(past.log, past.load, calibration.raw_span)
                && result == MapCalibrationResult(
                               BuildMass(c.raw_zero, calibration.raw_span, c.span_mass_ug, Next(sequence)).0)
      // A window that gives no calibration can be captured again.
      ensures var served := Served(old(calibration), now_ms, source, requested_session, result);
              && calibration == (if result == ResultOk
                                 then served.(raw_span := calibration.raw_span, candidate := calibration.candidate,
                                              have_span := true, state := ResultReady,
                                              capture_sample_sequence := served.last_sample_sequence)
                                 else served.(raw_span := calibration.raw_span, candidate := calibration.candidate))
              && (result == ResultOk ==> past.load.to == |past.log|)
              && past == old(past).(load := past.load)
    {
      OwnerCheckIs(calibration, source, requested_session);
      hide MassValid, CapturedFrom, BuildMass, Matches, MapCalibrationResult, OwnerCheck, Sourced, BuiltFrom, Fed,
        R.RawCalibrationStability.Valid;
      result := RequireOwner(source, requested_session);
      if result == ResultOk {
        if !calibration.have_zero || !calibration.have_weight || calibration.state == ZeroCaptured {
          result := ResultInvalidState;
        } else if !Matches(calibration.locked, m) {
          result := ResultBusy;
        } else if calibration.state == WaitLoadStable {
          result := ResultNotStable;
        } else if calibration.state != LoadReady {
          result := ResultInvalidState;
        } else {
          result := BuildCandidate(Next(sequence));
        }
      }
      Answer(result);
    }

    method BuildCandidate(sequence: u32) returns (result: CommandResult)
      requires Valid() && calibration.active && calibration.state == LoadReady
      modifies this`calibration, this`past
      ensures Valid() && past == old(past).(load := past.load)
      ensures calibration == old(calibration).(
                               raw_span := calibration.raw_span, candidate := calibration.candidate,
                               have_span := calibration.have_span, state := calibration.state,
                               capture_sample_sequence := calibration.capture_sample_sequence)
      ensures if result == ResultOk
              then && calibration.state == ResultReady && calibration.candidate.calibration_sequence == sequence
                   && calibration.have_span && past.load.to == |past.log|
                   && BuiltFrom(calibration.candidate, calibration.raw_zero, calibration.raw_span,
                                calibration.span_mass_ug, calibration.locked, past)
                   && calibration.capture_sample_sequence == calibration.last_sample_sequence
              else && calibration.state == LoadReady && calibration.have_span == old(calibration.have_span)
                   && calibration.capture_sample_sequence == old(calibration.capture_sample_sequence)
      ensures CapturedFrom(past.log, past.load, calibration.raw_span)
      ensures result == MapCalibrationResult(
                          BuildMass(calibration.raw_zero, calibration.raw_span, calibration.span_mass_ug, sequence).0)
    {
      hide MassValid, CapturedFrom, R.RawCalibrationStability.Valid;
      var average, window := Average();
      var (built, candidate) := BuildMass(calibration.raw_zero, average.value, calibration.span_mass_ug, sequence);
      BuiltIsValid(calibration.raw_zero, average.value, calibration.span_mass_ug, sequence);
      past := past.(load := window);
      calibration := calibration.(raw_span := average.value, candidate := candidate);
      result := MapCalibrationResult(built);
      if result == ResultOk {
        calibration := calibration.(have_span := true, state := ResultReady,
        capture_sample_sequence := calibration.last_sample_sequence);
      }
    }

    // What is submitted to the application was built in this session from two
    // disjoint steady windows, on settings that are still in force.
    method Commit(source: CommandSource, requested_session: u16, m: MetrologyConfig, applies: bool)
      returns (result: CommandResult, submitted: Option<CalibrationConfig>)
      requires Valid() && m.active_profile < WEIGHING_PROFILE_COUNT
      modifies this`calibration
      ensures Valid() && SameSession(old(calibration), calibration)
      ensures result == ResultOk <==> submitted.Some? && applies
      ensures submitted.Some? ==>
                && old(calibration.active) && OwnerCheck(old(calibration), source, requested_session) == ResultOk
                && Matches(calibration.locked, m) && submitted.value == calibration.candidate
                && BuiltFrom(submitted.value, calibration.raw_zero, calibration.raw_span, calibration.span_mass_ug,
                             calibration.locked, past)
      ensures submitted.Some? <==>
                && OwnerCheck(old(calibration), source, requested_session) == ResultOk
                && old(calibration.state) == ResultReady && Matches(calibration.locked, m)
      ensures var served := Served(old(calibration), now_ms, source, requested_session, result);
              calibration == if result == ResultOk
                then served.(active := false, owner := OwnerNone, state := Applied) else served
      ensures var check := OwnerCheck(old(calibration), source, requested_session);
              result == if check != ResultOk then check
                        else if old(calibration.state) != ResultReady then ResultInvalidState
                        else if !Matches(calibration.locked, m) then ResultCalibrationInvalid
                        else if applies then ResultOk else ResultInternalError
    {
      hide MassValid, CapturedFrom, OwnerCheck;
      submitted := None;
      result := RequireOwner(source, requested_session);
      if result == ResultOk {
        BuiltIsValid(calibration.raw_zero, calibration.raw_span, calibration.span_mass_ug,
                     calibration.candidate.calibration_sequence);
        if !calibration.have_zero || !calibration.have_span || !calibration.have_weight
           || !calibration.candidate.calibration_valid || calibration.state != ResultReady {
          result := ResultInvalidState;
        } else if !Matches(calibration.locked, m) || !MassValid(calibration.locked, calibration.span_mass_ug)
                  || Validate(calibration.candidate) != CalibrationOk {
          result := ResultCalibrationInvalid;
        } else {
          submitted := Some(calibration.candidate);
          if applies {
            calibration := calibration.(active := false, owner := OwnerNone, state := Applied);
          } else {
            result := ResultInternalError;
          }
        }
      }
      Answer(result);
    }

    method Cancel(source: CommandSource, requested_session: u16) returns (result: CommandResult)
      requires Valid()
      modifies this`calibration
      ensures Valid() && result == OwnerCheck(old(calibration), source, requested_session)
      ensures if result == ResultOk then calibration == Cleared(Idle, old(calibration.session_id), ResultOk)
              else calibration == old(calibration).(last_result := result)
    {
      result := RequireOwner(source, requested_session);
      if result == ResultOk {
        calibration := Cleared(Idle, calibration.session_id, calibration.last_result);
      }
      Answer(result);
    }
  }

  lemma CaptureInLog(log: seq<i32>, c: Capture, value: int)
    requires CapturedFrom(log, c, value)
    ensures c.to <= |log|
  {}

  function Next(sequence: u32): u32 { (sequence + 1) % TWO_32 }

  function MapCalibrationResult(result: CalibrationResult): CommandResult {
    match result
    case CalibrationOk => ResultOk
    case InvalidWeight => ResultInvalidArgument
    case CalibrationOverflow => ResultInternalError
    case _ => ResultCalibrationInvalid
  }

  // A request was answered with `result`; from its owner it also counts as activity.
  function Served(c: CalibrationState, now_ms: u32, source: CommandSource, requested_session: u16,
                  result: CommandResult): CalibrationState {
    c.(last_result := result,
       last_activity_ms := if OwnerCheck(c, source, requested_session) == ResultOk then now_ms else c.last_activity_ms)
  }

  // Owner, number and locked settings, which a session keeps to its end.
  predicate SameSession(c: CalibrationState, d: CalibrationState) {
    c.active ==> d.session_id == c.session_id && d.locked == c.locked && (d.active ==> d.owner == c.owner)
  }

  function OwnerCheck(c: CalibrationState, source: CommandSource, requested_session: u16): CommandResult {
    if !c.active then ResultInvalidState
    else if c.owner != OwnerOf(source) then ResultBusy
    else if requested_session != c.session_id && (source == SourceBle || requested_session != 0) then ResultInvalidState
    else ResultOk
  }

  // Only the owner of the running session is served, a Bluetooth client with the
  // session's number, anyone else with that number or none.
  lemma OwnerCheckIs(c: CalibrationState, source: CommandSource, requested_session: u16)
    ensures OwnerCheck(c, source, requested_session) == ResultOk <==>
            && c.active && c.owner == (if source == SourceModbus then OwnerModbus
                                       else if source == SourceBle then OwnerBle else OwnerLocalUi)
            && (requested_session == c.session_id || (requested_session == 0 && source != SourceBle))
    ensures OwnerCheck(c, source, requested_session) == ResultBusy <==> c.active && c.owner != OwnerOf(source)
    ensures OwnerCheck(c, source, requested_session) in {ResultOk, ResultBusy, ResultInvalidState}
  {}

  // Locked settings match while unit, capacity, decimals and division of that unit,
  // sample rate and gain are the same; other settings may change.
  lemma MatchesIs(m: MetrologyConfig, now: MetrologyConfig)
    requires m.active_unit < MASS_UNIT_COUNT && m.active_profile < WEIGHING_PROFILE_COUNT
    requires now.active_profile < WEIGHING_PROFILE_COUNT
    ensures Matches(LockedOf(m), now) <==>
            && now.active_unit == m.active_unit && now.capacity_ug == m.capacity_ug
            && now.UnitDisplay(m.active_unit).decimal_places == m.UnitDisplay(m.active_unit).decimal_places
            && now.UnitDisplay(m.active_unit).division_digit == m.UnitDisplay(m.active_unit).division_digit
            && now.Profile(now.active_profile).sample_rate == m.Profile(m.active_profile).sample_rate
            && now.Profile(now.active_profile).gain == m.Profile(m.active_profile).gain
  {}

  // Captured windows stay what they are when samples are added.
  lemma MoreLog(p: SessionPast, c: CalibrationState, raw: i32)
    ensures forall k: Capture, v: int :: CapturedFrom(p.log, k, v) ==> CapturedFrom(p.log + [raw], k, v)
  {
    forall k: Capture, v: int | CapturedFrom(p.log, k, v) ensures CapturedFrom(p.log + [raw], k, v) {
      assert (p.log + [raw])[k.from..k.to] == p.log[k.from..k.to];
    }
  }
}
