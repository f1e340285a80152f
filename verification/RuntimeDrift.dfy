// Domain/measurement/runtime_drift_compensator.c: a slow zero-drift correction
// that learns only while a stable load rests on the scale.
module RuntimeDrift {
  import opened FixedWidth
  import opened MassMath
  import WeightMath

  datatype DriftState = Disabled | Arming | Tracking | Frozen | Limited

  datatype ResetReason =
    | ResetPowerOn | ResetManualZero | ResetZeroRestore | ResetCalibrationApply | ResetAdcReconfig | ResetProfileChange
    | ResetReferenceInvalid | ResetExplicitControl

  datatype FreezeReason =
    | FreezeNone | FreezeUnstable | FreezeLoadChange | FreezeTareRearm | FreezeClearTareRearm | FreezeTransientSample
    | FreezeTransientFault | FreezeOperationNotAllowed

  datatype DriftConfig = DriftConfig(
    arming_ms: u32, window_ms: u32, minimum_window_samples: u32, deadband_ug: i64, maximum_step_ug: i64,
    maximum_offset_ug: i64, load_change_guard_ug: i64, load_change_samples: u8)

  predicate ConfigAccepted(c: DriftConfig) {
    && c.arming_ms != 0 && c.window_ms != 0 && c.minimum_window_samples != 0 && c.deadband_ug >= 0
    && c.maximum_step_ug > 0 && c.maximum_offset_ug > 0 && c.load_change_guard_ug > 0 && c.load_change_samples != 0
  }

  const DEFAULT_CONFIG: DriftConfig := DriftConfig(300000, 60000, 300, 10000, 500, 500000, 100000, 3)

  datatype DriftInput = DriftInput(uncompensated_mass_ug: i64, now_ms: u32, stable: bool, learning_allowed: bool)

  // ---- the arithmetic of one correction ------------------------------------------------------

  function Distance(left: i64, right: i64): u64 {
    match Subtract(left, right)
    case None => UINT64_MAX
    case Some(delta) => Magnitude(delta)
  }

  // The saturated distance compares with a guard like the true one.
  lemma DistanceBeyond(left: i64, right: i64, guard: i64)
    requires guard > 0
    ensures Distance(left, right) > guard <==> Abs(left - right) > guard
  {}

  function ClampTo(x: int, limit: int): int {
    if x > limit then limit else if x < -limit then -limit else x
  }

  // Offset after a window whose plateau moved by `error`.
  function Corrected(c: DriftConfig, offset: int, error: int): int {
    if Abs(error) <= c.deadband_ug then offset
    else ClampTo(offset + ClampTo(error, c.maximum_step_ug), c.maximum_offset_ug)
  }

  // The sum behind the correction exists.
  predicate CorrectionAdds(c: DriftConfig, offset: int, error: int) {
    Abs(error) <= c.deadband_ug || FitsI64(offset + ClampTo(error, c.maximum_step_ug))
  }

  // The mass that a correction leaves exists no more.
  predicate CorrectionOverflows(c: DriftConfig, offset: int, error: int, uncompensated: int) {
    FitsI64(error) && CorrectionAdds(c, offset, error) && !FitsI64(uncompensated - Corrected(c, offset, error))
  }

  predicate CorrectionFails(c: DriftConfig, offset: int, error: int, uncompensated: int) {
    !FitsI64(error) || !CorrectionAdds(c, offset, error) || !FitsI64(uncompensated - Corrected(c, offset, error))
  }

  // Within the deadband the offset stays.  Beyond it the offset moves towards the
  // error by the smaller of error and step, cut at the limit.
  lemma CorrectedIs(c: DriftConfig, offset: int, error: int)
    requires ConfigAccepted(c) && Abs(offset) <= c.maximum_offset_ug
    ensures Abs(error) <= c.deadband_ug ==> Corrected(c, offset, error) == offset
    ensures error > c.deadband_ug ==>
              Corrected(c, offset, error) ==
              Least(offset + Least(error, c.maximum_step_ug), c.maximum_offset_ug)
    ensures -error > c.deadband_ug ==>
              -Corrected(c, offset, error) ==
              Least(-offset + Least(-error, c.maximum_step_ug), c.maximum_offset_ug)
  {}

  function Least(a: int, b: int): int { if a <= b then a else b }

  // One correction moves the offset by at most one step, never past the limit.
  lemma CorrectedStep(c: DriftConfig, offset: int, error: int)
    requires ConfigAccepted(c) && Abs(offset) <= c.maximum_offset_ug
    ensures Abs(Corrected(c, offset, error)) <= c.maximum_offset_ug
    ensures Abs(Corrected(c, offset, error) - offset) <= c.maximum_step_ug
    ensures error > 0 ==> Corrected(c, offset, error) >= offset
    ensures error < 0 ==> Corrected(c, offset, error) <= offset
  {}

  // Truncation never leaves an interval of integers.
  lemma TruncBetween(n: int, d: nat, low: int, high: int)
    requires d > 0 && d * low <= n <= d * high
    ensures low <= WeightMath.TruncQuotient(n, d) <= high
  {
    var q: int := Abs(n) / d;
    var r: int := Abs(n) - q * d;
    assert 0 <= r < d by { DivisionIs(Abs(n), d, q, Abs(n) % d); }
    if n >= 0 {
      WithinMultiples(d, q, r, low, high);
    } else {
      assert d * (-high) == -(d * high) && d * (-low) == -(d * low);
      WithinMultiples(d, q, r, -high, -low);
    }
  }

  lemma WithinMultiples(d: nat, q: int, r: int, low: int, high: int)
    requires 0 <= r < d && d * low <= q * d + r <= d * high
    ensures low <= q <= high
  {
    if q > high { MulLess(d, high, q); }
    if q < low { MulLess(d, q, low); }
  }

  lemma QuotientFits(n: i64, d: u32)
    requires d > 0
    ensures FitsI64(WeightMath.TruncQuotient(n, d))
  {
    assert d * INT64_MIN <= INT64_MIN by { MulLe(d, INT64_MIN, -1); MulLe(0x8000_0000_0000_0000, 1, d); }
    assert d * INT64_MAX >= INT64_MAX by { MulLe(INT64_MAX, 1, d); }
    TruncBetween(n, d, INT64_MIN, INT64_MAX);
  }

  // Every one of `count` samples adding up to `sum` may lie within the guard.
  predicate WithinGuard(sum: int, count: nat, reference: int, guard: nat) {
    Abs(sum - count * reference) <= count * guard
  }

  // A window whose samples all lie within the guard averages within the guard.
  lemma AverageWithinGuard(sum: int, count: nat, reference: int, guard: nat)
    requires count > 0 && WithinGuard(sum, count, reference, guard)
    ensures Abs(WeightMath.TruncQuotient(sum, count) - reference) <= guard
  {
    assert count * (reference - guard) == count * reference - count * guard;
    assert count * (reference + guard) == count * reference + count * guard;
    TruncBetween(sum, count, reference - guard, reference + guard);
  }

  lemma NoSamples(reference: int, guard: nat)
    ensures WithinGuard(0, 0, reference, guard)
  {}

  // One more sample within the guard.
  lemma OneMoreSample(sum: int, count: nat, reference: int, guard: nat, sample: int)
    requires WithinGuard(sum, count, reference, guard) && Abs(sample - reference) <= guard
    ensures WithinGuard(sum + sample, count + 1, reference, guard)
  {
    assert (count + 1) * reference == count * reference + reference;
    assert (count + 1) * guard == count * guard + guard;
  }

  // ---- settings that cannot overflow -----------------------------------------------------------

  // The guard and the step together stay below 2^62, 4.6 million kilograms.
  predicate Tame(c: DriftConfig) {
    c.load_change_guard_ug + c.maximum_step_ug < 0x4000_0000_0000_0000
  }

  // The samples before the last one and the last one lie within the guard.
  predicate LastWithin(before: int, count: nat, reference: int, guard: nat, last: int) {
    WithinGuard(before, count, reference, guard) && Abs(last - reference) <= guard
  }

  // Then the last sample is far from the end of int64 when another one was summed
  // with it ...
  lemma LastIsBelow(before: int, count: nat, reference: int, guard: nat, last: int, step: nat, bound: int)
    requires count > 0 && LastWithin(before, count, reference, guard, last)
    requires before + last <= bound && 2 * guard + 2 * step <= bound
    ensures last <= bound - step
  {
    var least := reference - guard;
    assert count * least == count * reference - count * guard;
    if least >= 0 { MulLe(least, 1, count); }
  }

  // ... and from the other end.
  lemma LastIsModerate(c: DriftConfig, before: int, count: nat, reference: int, last: int)
    requires ConfigAccepted(c) && Tame(c) && count > 0
    requires LastWithin(before, count, reference, Abs(c.load_change_guard_ug), last) && FitsI64(before + last)
    ensures INT64_MIN + c.maximum_step_ug <= last <= INT64_MAX - c.maximum_step_ug
  {
    var g := Abs(c.load_change_guard_ug);
    LastIsBelow(before, count, reference, g, last, Abs(c.maximum_step_ug), INT64_MAX);
    assert -before - count * (-reference) == -(before - count * reference);
    LastIsBelow(-before, count, -reference, g, -last, Abs(c.maximum_step_ug), -INT64_MIN);
  }

  // The correction that a window calls for never takes its last sample out of int64.
  lemma CorrectionFits(c: DriftConfig, before: int, count: nat, reference: int, last: i64, plateau: i64, offset: int)
    requires ConfigAccepted(c) && Tame(c) && Abs(offset) <= c.maximum_offset_ug
    requires LastWithin(before, count, reference, Abs(c.load_change_guard_ug), last) && FitsI64(before + last)
    ensures FitsI64(last + offset - Corrected(c, offset, WeightMath.TruncQuotient(before + last, count + 1) - plateau))
  {
    var error := WeightMath.TruncQuotient(before + last, count + 1) - plateau;
    CorrectedStep(c, offset, error);
    if count > 0 {
      LastIsModerate(c, before, count, reference, last);
    } else {
      assert before == 0;
      assert WeightMath.TruncQuotient(last, 1) == last;
    }
  }

  // The most that a number of updates can have moved the offset, and the time
  // that they must have taken at least.
  function Learnable(c: DriftConfig, updates: nat): int { c.maximum_step_ug * updates }

  function Earned(c: DriftConfig, updates: nat): nat { c.arming_ms + updates * c.window_ms }

  lemma NothingLearned(c: DriftConfig)
    ensures Learnable(c, 0) == 0 && Earned(c, 0) == c.arming_ms
  {}

  lemma OneMoreUpdate(c: DriftConfig, updates: nat)
    ensures Learnable(c, updates + 1) == Learnable(c, updates) + c.maximum_step_ug
    ensures Earned(c, updates + 1) == Earned(c, updates) + c.window_ms
  {}

  // The rate promised by the settings: the offset per time learned.
  lemma LearningRate(c: DriftConfig, updates: nat, offset: int, time: nat)
    requires ConfigAccepted(c)
    requires Abs(offset) <= Learnable(c, updates) && (updates > 0 ==> time >= Earned(c, updates))
    ensures Abs(offset) * c.window_ms <= c.maximum_step_ug * time
    ensures offset != 0 ==> time >= c.arming_ms + c.window_ms
  {
    var w: int, s: int := c.window_ms, c.maximum_step_ug;
    if updates == 0 {
      assert offset == 0;
    } else {
      MulLe(w, Abs(offset), s * updates);
      MulLe(s, updates * w, time);
      assert w * (s * updates) == s * (updates * w);
      MulLe(w, 1, updates);
    }
  }

  // ---- the compensator ------------------------------------------------------------------------

  datatype DriftSnapshot = DriftSnapshot(
    state: DriftState, offset_ug: i64, compensated_mass_ug: i64, plateau_reference_ug: i64,
    latest_plateau_error_ug: i64,
    arming_elapsed_ms: u32, window_elapsed_ms: u32, stable_sample_count: u32, enabled: bool, limited: bool,
    last_reset_reason: ResetReason, last_freeze_reason: FreezeReason)

  // True time, which the millisecond counter gives modulo 2^32, now, at the
  // start of the phase and at the last reset; the offset updates since the
  // reset; and whether one of them was followed by an overflow, so that the
  // phase was not started again.
  datatype DriftPast = DriftPast(clock: nat, phase_at: nat, reset_at: nat, updates: nat, overran: bool)

  predicate Bounded(c: DriftConfig, s: DriftSnapshot, updates: nat) {
    && (s.enabled <==> s.state != Disabled)
    && (s.limited <==> s.state == Limited)
    && (s.limited <==> Abs(s.offset_ug) == c.maximum_offset_ug) && Abs(s.offset_ug) <= c.maximum_offset_ug
    && (!s.enabled ==> s.offset_ug == 0)
    && Abs(s.offset_ug) <= Learnable(c, updates)
  }

  // The masses shown have no part in the bounds.
  lemma SameBounds(c: DriftConfig, s: DriftSnapshot, t: DriftSnapshot, updates: nat)
    requires Bounded(c, s, updates)
    requires t == s.(compensated_mass_ug := t.compensated_mass_ug, latest_plateau_error_ug := t.latest_plateau_error_ug)
    ensures Bounded(c, t, updates)
  {
    hide Learnable;
  }

  predicate Timed(c: DriftConfig, state: DriftState, phase_start_ms: u32, past: DriftPast) {
    && past.reset_at <= past.phase_at <= past.clock && phase_start_ms == past.phase_at % 0x1_0000_0000
    && (past.overran || (
          && (state == Tracking ==> past.phase_at - past.reset_at >= Earned(c, past.updates))
          && (past.updates > 0 ==>
                (if state == Limited then past.clock else past.phase_at) - past.reset_at >= Earned(c, past.updates))))
  }

  // The true times of the inputs, from a time on.
  ghost predicate Ticking(inputs: seq<DriftInput>, ticks: seq<nat>, from: nat) {
    && |ticks| == |inputs|
    && (forall k :: 0 <= k < |inputs| ==> from <= ticks[k] && inputs[k].now_ms == ticks[k] % 0x1_0000_0000)
    && (forall j, k :: 0 <= j < k < |ticks| ==> ticks[j] <= ticks[k])
  }

  class RuntimeDriftCompensator {
    var config: DriftConfig
    var snapshot: DriftSnapshot
    var window_sum_ug: i64
    var guard_reference_ug: i64
    var phase_start_ms: u32
    var window_count: u32
    var load_change_count: u8
    var initialized: bool
    var have_guard_reference: bool
    ghost var past: DriftPast
    // The inputs of all Process calls.
    ghost var seen: seq<DriftInput>

    ghost predicate Valid()
      reads this`config, this`snapshot, this`window_sum_ug, this`window_count, this`phase_start_ms
      reads this`guard_reference_ug, this`have_guard_reference, this`load_change_count, this`past, this`initialized
    {
      initialized ==>
        && ConfigAccepted(config) && load_change_count < config.load_change_samples
        && Bounded(config, snapshot, past.updates) && Guarded() && Timed(config, snapshot.state, phase_start_ms, past)
        && (Tame(config) ==> !past.overran)
    }

    // Every sample summed lies within the guard of the reference.
    ghost predicate Guarded()
      reads this`config, this`window_sum_ug, this`window_count, this`guard_reference_ug, this`have_guard_reference
    {
      if have_guard_reference
      then WithinGuard(window_sum_ug, window_count, guard_reference_ug, Abs(config.load_change_guard_ug))
      else window_sum_ug == 0 && window_count == 0
    }

    constructor ()
      ensures Valid() && !initialized && past == DriftPast(0, 0, 0, 0, false) && seen == []
      ensures snapshot == ResetSnapshot(false, ResetPowerOn) && window_count == 0
    {
      config, initialized, window_sum_ug, guard_reference_ug, phase_start_ms := DEFAULT_CONFIG, false, 0, 0, 0;
      window_count, load_change_count, have_guard_reference := 0, 0, false;
      snapshot := ResetSnapshot(false, ResetPowerOn);
      past, seen := DriftPast(0, 0, 0, 0, false), [];
    }

    // Tick is the true time of now_ms, and time does not run back.
    ghost predicate Now(now_ms: u32, tick: nat)
      reads this`past
    {
      now_ms == tick % 0x1_0000_0000 && past.clock <= tick
    }

    // Just reset, nothing learned.
    ghost predicate Fresh(enabled: bool, reason: ResetReason, tick: nat)
      reads this
    {
      && snapshot == ResetSnapshot(enabled, reason).(compensated_mass_ug := snapshot.compensated_mass_ug)
      && window_sum_ug == 0 && window_count == 0 && load_change_count == 0 && !have_guard_reference
      && past == DriftPast(tick, tick, tick, 0, false)
    }

    // Everything is cleared, so the time may also be set back.
    method Init(config: DriftConfig, enabled: bool, now_ms: u32, ghost tick: nat) returns (ok: bool)
      requires Valid() && now_ms == tick % 0x1_0000_0000
      modifies this
      ensures Valid() && ok == ConfigAccepted(config) && seen == old(seen)
      ensures ok ==>
                initialized && this.config == config && Fresh(enabled, ResetPowerOn, tick) && phase_start_ms == now_ms
      ensures ok <==>
        && config.arming_ms > 0 && config.window_ms > 0 && config.minimum_window_samples > 0
        && config.load_change_samples > 0 && config.deadband_ug >= 0 && config.maximum_step_ug > 0
        && config.maximum_offset_ug > 0 && config.load_change_guard_ug > 0
      ensures ok ==>
        && snapshot.enabled == enabled && snapshot.state == (if enabled then Arming else Disabled)
        && snapshot.offset_ug == 0 && snapshot.plateau_reference_ug == 0 && !snapshot.limited && window_count == 0
      ensures !ok ==> unchanged(this)
    {
      hide Learnable, Earned, WithinGuard;
      if !ConfigAccepted(config) { return false; }
      this.config, initialized, snapshot, guard_reference_ug := config, true, ResetSnapshot(enabled, ResetPowerOn), 0;
      past := DriftPast(tick, tick, tick, 0, false);
      StartPhase(if enabled then Arming else Disabled, now_ms);
      NothingLearned(config);
      return true;
    }

    method StartPhase(state: DriftState, now_ms: u32)
      requires now_ms == past.clock % 0x1_0000_0000
      modifies this`snapshot, this`phase_start_ms, this`window_sum_ug, this`window_count, this`load_change_count
      modifies this`have_guard_reference, this`past
      ensures snapshot == old(snapshot).(
                            state := state, stable_sample_count := 0, arming_elapsed_ms := 0, window_elapsed_ms := 0)
      ensures phase_start_ms == now_ms && window_sum_ug == 0 && window_count == 0 && load_change_count == 0
      ensures !have_guard_reference && past == old(past).(phase_at := past.clock)
    {
      snapshot := snapshot.(state := state, stable_sample_count := 0, arming_elapsed_ms := 0, window_elapsed_ms := 0);
      phase_start_ms, window_sum_ug, window_count, load_change_count := now_ms, 0, 0, 0;
      have_guard_reference := false;
      past := past.(phase_at := past.clock);
    }

    method SetEnabled(enabled: bool, now_ms: u32, ghost tick: nat) returns (ok: bool)
      requires Valid() && Now(now_ms, tick)
      modifies this`snapshot, this`phase_start_ms, this`window_sum_ug, this`window_count, this`load_change_count
      modifies this`have_guard_reference, this`past
      ensures Valid() && ok == initialized
      ensures ok ==> Fresh(enabled, ResetExplicitControl, tick)
    {
      hide Learnable, Earned, WithinGuard;
      if !initialized { return false; }
      snapshot := snapshot.(enabled := enabled, offset_ug := 0, plateau_reference_ug := 0, latest_plateau_error_ug := 0,
      limited := false, last_reset_reason := ResetExplicitControl, last_freeze_reason := FreezeNone);
      past := DriftPast(tick, tick, tick, 0, false);
      StartPhase(if enabled then Arming else Disabled, now_ms);
      NothingLearned(config);
      return true;
    }

    method Reset(now_ms: u32, reason: ResetReason, ghost tick: nat)
      requires Valid() && Now(now_ms, tick)
      modifies this`snapshot, this`phase_start_ms, this`window_sum_ug, this`window_count, this`load_change_count
      modifies this`have_guard_reference, this`past
      ensures Valid()
      ensures initialized ==> Fresh(old(snapshot.enabled), reason, tick)
      ensures !initialized ==> unchanged(this)
    {
      if !initialized { return; }
      var _ := SetEnabled(snapshot.enabled, now_ms, tick);
      snapshot := snapshot.(last_reset_reason := reason);
    }

    // Learning starts over; what was learned stays.
    method Freeze(now_ms: u32, reason: FreezeReason, ghost tick: nat)
      requires Valid() && Now(now_ms, tick)
      modifies this`snapshot, this`phase_start_ms, this`window_sum_ug, this`window_count, this`load_change_count
      modifies this`have_guard_reference, this`past
      ensures Valid() && past.clock == tick
      ensures if initialized && snapshot.enabled && old(snapshot.state) != Limited
              then snapshot == FrozenSnapshot(old(snapshot), reason) && window_count == 0 && !have_guard_reference
              else snapshot == old(snapshot)
      ensures past == old(past).(clock := tick, phase_at := past.phase_at)
    {
      hide Learnable, Earned, WithinGuard;
      past := past.(clock := tick);
      if !initialized || !snapshot.enabled || snapshot.state == Limited { return; }
      StartPhase(Frozen, now_ms);
      snapshot := snapshot.(last_freeze_reason := reason);
    }

    // A new load: the next plateau is a new reference.
    method Rearm(now_ms: u32, reason: FreezeReason, ghost tick: nat)
      requires Valid() && Now(now_ms, tick)
      modifies this`snapshot, this`phase_start_ms, this`window_sum_ug, this`window_count, this`load_change_count
      modifies this`have_guard_reference, this`past
      ensures Valid() && past.clock == tick
      ensures initialized && snapshot.enabled ==>
                var s := old(snapshot).(plateau_reference_ug := 0, latest_plateau_error_ug := 0);
                snapshot == if s.state == Limited then s else FrozenSnapshot(s, reason)
      ensures !(initialized && snapshot.enabled) ==> snapshot == old(snapshot)
      ensures past == old(past).(clock := tick, phase_at := past.phase_at)
    {
      hide Learnable, Earned, WithinGuard;
      if initialized && snapshot.enabled {
        snapshot := snapshot.(plateau_reference_ug := 0, latest_plateau_error_ug := 0);
      }
      Freeze(now_ms, reason, tick);
    }

    method AddSample(sample: i64) returns (ok: bool)
      modifies this`window_sum_ug, this`window_count, this`snapshot
      ensures ok == (FitsI64(old(window_sum_ug) + sample) && old(window_count) < UINT32_MAX)
      ensures if ok
              then window_sum_ug == old(window_sum_ug) + sample && window_count == old(window_count) + 1
                   && snapshot == old(snapshot).(stable_sample_count := window_count)
              else unchanged(this)
    {
      var count := if window_count == UINT32_MAX then 0 else window_count + 1;
      var next := Add(window_sum_ug, sample);
      if count == 0 || next.None? { return false; }
      window_sum_ug, window_count := next.value, count;
      snapshot := snapshot.(stable_sample_count := count);
      return true;
    }

    function WindowAverage(): (average: Option<i64>)
      reads this`window_sum_ug, this`window_count
    {
      if window_count == 0 then None
      else
        QuotientFits(window_sum_ug, window_count);
        Some(WeightMath.TruncQuotient(window_sum_ug, window_count))
    }

    // Moves the offset by the plateau error, at most one step.
    method ApplyOffset() returns (ok: bool)
      requires ConfigAccepted(config) && Bounded(config, snapshot, past.updates) && snapshot.state == Tracking
      modifies this`snapshot, this`past
      ensures Bounded(config, snapshot, past.updates)
      ensures var c := Corrected(config, old(snapshot.offset_ug), snapshot.latest_plateau_error_ug);
              if ok
              then snapshot == old(snapshot).(offset_ug := c, limited := Abs(c) == config.maximum_offset_ug,
                                              state := if Abs(c) == config.maximum_offset_ug then Limited else Tracking)
                   && past == old(past).(updates := old(past.updates) + 1)
              else unchanged(this)
      ensures ok == CorrectionAdds(config, old(snapshot.offset_ug), snapshot.latest_plateau_error_ug)
    {
      hide Learnable;
      OneMoreUpdate(config, past.updates);
      var error := snapshot.latest_plateau_error_ug;
      if Magnitude(error) <= config.deadband_ug {
        past := past.(updates := past.updates + 1);
        return true;
      }
      var step := error;
      if step > config.maximum_step_ug { step := config.maximum_step_ug; }
      else if step < -config.maximum_step_ug { step := -config.maximum_step_ug; }
      var sum := Add(snapshot.offset_ug, step);
      if sum.None? { return false; }
      var next := sum.value;
      if next >= config.maximum_offset_ug {
        next := config.maximum_offset_ug;
        snapshot := snapshot.(limited := true, state := Limited);
      } else if next <= -config.maximum_offset_ug {
        next := -config.maximum_offset_ug;
        snapshot := snapshot.(limited := true, state := Limited);
      }
      snapshot := snapshot.(offset_ug := next);
      past := past.(updates := past.updates + 1);
      return true;
    }

    // ---- what one input does ------------------------------------------------------------------

    // The input is one to learn from.
    ghost predicate Learns(input: DriftInput)
      reads this`snapshot
    {
      snapshot.enabled && snapshot.state != Limited && input.learning_allowed && input.stable
    }

    // The compensated mass has left the guard.
    ghost predicate Jumps(input: DriftInput)
      reads this`config, this`snapshot, this`have_guard_reference, this`guard_reference_ug
    {
      && Learns(input) && snapshot.state != Frozen && have_guard_reference
      && Abs(input.uncompensated_mass_ug - snapshot.offset_ug - guard_reference_ug) > config.load_change_guard_ug
    }

    // The input completes a tracking window.
    ghost predicate Closes(input: DriftInput)
      reads this`config, this`snapshot, this`have_guard_reference, this`guard_reference_ug, this`phase_start_ms
      reads this`window_count
    {
      && Learns(input) && snapshot.state == Tracking && !Jumps(input)
      && Elapsed(input.now_ms, phase_start_ms) >= config.window_ms && window_count + 1 >= config.minimum_window_samples
    }

    // The input completes arming: its window gives the plateau.
    ghost predicate Arms(input: DriftInput)
      reads this`config, this`snapshot, this`have_guard_reference, this`guard_reference_ug, this`phase_start_ms
    {
      Learns(input) && snapshot.state == Arming && !Jumps(input) && Elapsed(input.now_ms,
                                                                            phase_start_ms) >= config.arming_ms
    }

    // The error of the window's average, this input included, from the plateau.
    ghost function PlateauError(input: DriftInput): int
      reads this`snapshot, this`window_sum_ug, this`window_count
    {
      WeightMath.TruncQuotient(window_sum_ug + input.uncompensated_mass_ug - snapshot.offset_ug, window_count + 1)
      - snapshot.plateau_reference_ug
    }

    // The input is summed into the window.
    ghost predicate Gathers(input: DriftInput)
      reads this`config, this`snapshot, this`have_guard_reference, this`guard_reference_ug, this`window_count
      reads this`window_sum_ug
    {
      var compensated: int := input.uncompensated_mass_ug - snapshot.offset_ug;
      && Learns(input) && snapshot.state != Frozen && !Jumps(input)
      && FitsI64(compensated) && FitsI64(window_sum_ug + compensated) && window_count < UINT32_MAX
    }

    // The input completes a window, and the offset moves without the mass that would follow.
    ghost predicate Overruns(input: DriftInput)
      reads this`config, this`snapshot, this`have_guard_reference, this`guard_reference_ug, this`phase_start_ms
      reads this`window_count, this`window_sum_ug
    {
      var compensated: int := input.uncompensated_mass_ug - snapshot.offset_ug;
      && Closes(input) && FitsI64(compensated) && FitsI64(window_sum_ug + compensated) && window_count < UINT32_MAX
      && CorrectionOverflows(config, snapshot.offset_ug, PlateauError(input), input.uncompensated_mass_ug)
    }

    // A sum or difference that the input calls for does not exist.
    ghost predicate Fails(input: DriftInput)
      reads this`config, this`snapshot, this`have_guard_reference, this`guard_reference_ug, this`phase_start_ms
      reads this`window_count, this`window_sum_ug
    {
      var compensated: int := input.uncompensated_mass_ug - snapshot.offset_ug;
      || !FitsI64(compensated)
      || (Learns(input) && snapshot.state != Frozen && !Jumps(input) && LearningFails(input))
    }

    ghost predicate LearningFails(input: DriftInput)
      reads this`config, this`snapshot, this`have_guard_reference, this`guard_reference_ug, this`phase_start_ms
      reads this`window_count, this`window_sum_ug
    {
      || !FitsI64(window_sum_ug + input.uncompensated_mass_ug - snapshot.offset_ug) || window_count == UINT32_MAX
      || (Closes(input)
          && CorrectionFails(config, snapshot.offset_ug, PlateauError(input), input.uncompensated_mass_ug))
    }

    // The window that an input completes is done, and its error.
    ghost predicate WindowDone(input: DriftInput)
      reads this`config, this`snapshot, this`phase_start_ms, this`window_count
    {
      && snapshot.state == Tracking && Elapsed(input.now_ms, phase_start_ms) >= config.window_ms
      && window_count >= config.minimum_window_samples
    }

    ghost function WindowError(): int
      requires window_count > 0
      reads this`snapshot, this`window_sum_ug, this`window_count
    {
      WeightMath.TruncQuotient(window_sum_ug, window_count) - snapshot.plateau_reference_ug
    }

    // The input is the last sample of the window.
    ghost predicate LastIs(input: DriftInput)
      reads this`config, this`snapshot, this`window_sum_ug, this`window_count, this`guard_reference_ug
    {
      var last: int := input.uncompensated_mass_ug - snapshot.offset_ug;
      && window_count > 0 && FitsI64(last)
      && LastWithin(window_sum_ug - last, window_count - 1, guard_reference_ug, Abs(config.load_change_guard_ug), last)
    }

    // Tame settings leave room for the correction.
    lemma TameFits(input: DriftInput)
      requires ConfigAccepted(config) && Tame(config) && Abs(snapshot.offset_ug) <= config.maximum_offset_ug
      requires LastIs(input)
      ensures FitsI64(input.uncompensated_mass_ug - Corrected(config, snapshot.offset_ug, WindowError()))
    {
      hide Corrected, Tame, LastWithin, WeightMath.TruncQuotient;
      var last := input.uncompensated_mass_ug - snapshot.offset_ug;
      CorrectionFits(config, window_sum_ug - last, window_count - 1, guard_reference_ug, last,
                     snapshot.plateau_reference_ug,
                     snapshot.offset_ug);
    }

    // The offset after a correction from `offset` for this error, and the state it leaves.
    ghost predicate Applied(offset: int, error: int)
      reads this`config, this`snapshot
    {
      && snapshot.offset_ug == Corrected(config, offset, error) && snapshot.enabled
      && snapshot.state == if Abs(snapshot.offset_ug) == config.maximum_offset_ug then Limited else Tracking
    }

    // A window that was done is closed: the offset moves by the correction for
    // its error, and the next window starts, unless a sum or difference fails.
    twostate predicate Closed(input: DriftInput, ok: bool)
      requires old(window_count) > 0
      reads this`config, this`snapshot, this`window_sum_ug, this`window_count, this`phase_start_ms
      reads this`guard_reference_ug, this`have_guard_reference, this`load_change_count, this`past
    {
      var offset, error := old(snapshot.offset_ug), old(WindowError());
      var overflows := CorrectionOverflows(config, offset, error, input.uncompensated_mass_ug);
      && past.overran == (old(past.overran) || (!ok && snapshot.offset_ug != offset))
      && past.overran == (old(past.overran) || overflows) && (overflows ==> Applied(offset, error))
      && (!ok && snapshot.offset_ug != offset ==> overflows)
      && ok == !CorrectionFails(config, offset, error, input.uncompensated_mass_ug)
      && (!ok ==> unchanged(this`window_sum_ug, this`window_count, this`phase_start_ms, this`guard_reference_ug,
                            this`have_guard_reference))
      && (ok ==>
            && Applied(offset, error)
            && snapshot.compensated_mass_ug == input.uncompensated_mass_ug - snapshot.offset_ug
            && past.updates == old(past.updates) + 1
            && (snapshot.state == Tracking ==> NewPhase(input.now_ms, snapshot.compensated_mass_ug)))
    }

    // What an input to learn from moves, and what it leaves alone.
    twostate predicate Taught(input: DriftInput, ok: bool)
      reads this`config, this`snapshot, this`window_sum_ug, this`window_count, this`phase_start_ms
      reads this`guard_reference_ug, this`have_guard_reference, this`load_change_count, this`past
    {
      && past.reset_at == old(past.reset_at)
      && (ok ==> snapshot.compensated_mass_ug == input.uncompensated_mass_ug - snapshot.offset_ug)
      && Corrects(input, ok) && SetsPlateau(input, ok) && Sums(input, ok) && CountsJump(input, ok)
    }

    // The offset moves only when a window closes, by the correction for its
    // error.  The call is false after the offset moved only by overflow of the
    // last subtraction.
    twostate predicate Corrects(input: DriftInput, ok: bool)
      reads this`config, this`snapshot, this`window_sum_ug, this`window_count, this`phase_start_ms
      reads this`guard_reference_ug, this`have_guard_reference, this`load_change_count, this`past
    {
      var offset, error := old(snapshot.offset_ug), old(PlateauError(input));
      && (snapshot.offset_ug != offset ==> old(Closes(input)))
      && (ok && old(Closes(input)) ==>
            && Applied(offset, error) && past.updates == old(past.updates) + 1
            && (snapshot.state == Tracking ==> NewPhase(input.now_ms, snapshot.compensated_mass_ug)))
      && (ok && !old(Closes(input)) ==> past.updates == old(past.updates))
      && (old(Overruns(input)) ==> Applied(offset, error))
      && (!ok && snapshot.offset_ug != offset ==> old(Overruns(input)))
      && past.overran == (old(past.overran) || (!ok && snapshot.offset_ug != offset))
      && past.overran == (old(past.overran) || old(Overruns(input)))
    }

    // The plateau is the average of the arming window.
    twostate predicate SetsPlateau(input: DriftInput, ok: bool)
      reads this`config, this`snapshot, this`window_sum_ug, this`window_count, this`phase_start_ms
      reads this`guard_reference_ug, this`have_guard_reference, this`load_change_count, this`past
    {
      if ok && old(Arms(input))
      then && snapshot.state == Tracking && snapshot.enabled && snapshot.offset_ug == old(snapshot.offset_ug)
           && snapshot.plateau_reference_ug == old(PlateauError(input) + snapshot.plateau_reference_ug)
           && NewPhase(input.now_ms, snapshot.compensated_mass_ug)
      else !old(Arms(input)) ==> snapshot.plateau_reference_ug == old(snapshot.plateau_reference_ug)
    }

    // Until a window ends its samples are summed; a correction that overflows leaves it open.
    twostate predicate Sums(input: DriftInput, ok: bool)
      reads this`config, this`snapshot, this`window_sum_ug, this`window_count, this`phase_start_ms
      reads this`guard_reference_ug, this`have_guard_reference, this`load_change_count, this`past
    {
      old(Gathers(input)) && !old(Arms(input)) ==>
        && (!(ok && old(Closes(input))) ==>
              && window_sum_ug == old(window_sum_ug + input.uncompensated_mass_ug - snapshot.offset_ug)
              && window_count == old(window_count) + 1 && phase_start_ms == old(phase_start_ms)
              && have_guard_reference
              && (old(have_guard_reference) ==> guard_reference_ug == old(guard_reference_ug)))
        && (!old(Closes(input)) ==>
              && snapshot.state == old(snapshot.state) && snapshot.enabled
              && snapshot.offset_ug == old(snapshot.offset_ug) && snapshot.stable_sample_count == window_count
              && (if snapshot.state == Arming then snapshot.arming_elapsed_ms else snapshot.window_elapsed_ms)
                 == (input.now_ms - phase_start_ms) % 0x1_0000_0000)
    }

    // A load change leaves the window alone until it has lasted long enough to freeze.
    twostate predicate CountsJump(input: DriftInput, ok: bool)
      reads this`config, this`snapshot, this`window_sum_ug, this`window_count, this`phase_start_ms
      reads this`guard_reference_ug, this`have_guard_reference, this`load_change_count, this`past
    {
      old(Jumps(input)) && FitsI64(input.uncompensated_mass_ug - old(snapshot.offset_ug)) ==>
        && ok
        && if old(load_change_count) + 1 < config.load_change_samples
           then snapshot.state == old(snapshot.state) && load_change_count == old(load_change_count) + 1
                && guard_reference_ug == old(guard_reference_ug) && have_guard_reference && snapshot.enabled
                && window_sum_ug == old(window_sum_ug) && window_count == old(window_count)
           else snapshot.state == Frozen && snapshot.last_freeze_reason == FreezeLoadChange
    }

    // ---- the rules in terms of the fields ------------------------------------------------------

    // The input is stable, allowed, near enough to the reference, and the time of
    // the phase is up.
    ghost predicate Due(input: DriftInput, state: DriftState, time_ms: u32)
      reads this`config, this`snapshot, this`have_guard_reference, this`guard_reference_ug, this`phase_start_ms
    {
      && input.stable && input.learning_allowed && snapshot.enabled && snapshot.state == state
      && (have_guard_reference ==>
            Abs(input.uncompensated_mass_ug - snapshot.offset_ug - guard_reference_ug) <= config.load_change_guard_ug)
      && (input.now_ms - phase_start_ms) % 0x1_0000_0000 >= time_ms
    }

    // The mean of the window with this input in it, truncated.
    ghost function MeanWith(input: DriftInput): int
      reads this`snapshot, this`window_sum_ug, this`window_count
    {
      WeightMath.TruncQuotient(window_sum_ug + input.uncompensated_mass_ug - snapshot.offset_ug, window_count + 1)
    }

    twostate predicate Ruled(input: DriftInput, ok: bool)
      reads this`config, this`snapshot, this`window_sum_ug, this`window_count, this`phase_start_ms
      reads this`guard_reference_ug, this`have_guard_reference, this`load_change_count, this`past
    {
      OffsetRule(input, ok) && PlateauRule(input, ok) && FreezeRule(input, ok) && GuardRule(input, ok)
    }

    // The offset moves only with the input that completes a tracking window of
    // enough samples whose mean is beyond the deadband away from the plateau, and
    // then by the smaller of that error and the step, cut at the limit.
    twostate predicate OffsetRule(input: DriftInput, ok: bool)
      reads this`config, this`snapshot, this`window_sum_ug, this`window_count, this`phase_start_ms
      reads this`guard_reference_ug, this`have_guard_reference, this`load_change_count, this`past
    {
      var now: int, offset: int := snapshot.offset_ug, old(snapshot.offset_ug);
      var error := old(MeanWith(input) - snapshot.plateau_reference_ug);
      var complete := old(Due(input, Tracking, config.window_ms) && window_count + 1 >= config.minimum_window_samples);
      && (now != offset ==> complete && Abs(error) > config.deadband_ug)
      && (now != offset || (ok && complete) ==>
            && (Abs(error) <= config.deadband_ug ==> now == offset)
            && (error > config.deadband_ug ==>
                  now == Least(offset + Least(error, config.maximum_step_ug), config.maximum_offset_ug))
            && (-error > config.deadband_ug ==>
                  -now == Least(-offset + Least(-error, config.maximum_step_ug), config.maximum_offset_ug)))
      && (ok && complete && snapshot.state == Tracking ==> NewPhase(input.now_ms, input.uncompensated_mass_ug - now))
    }

    // Arming ends with the first input at or after its time; the plateau is the mean.
    twostate predicate PlateauRule(input: DriftInput, ok: bool)
      reads this`config, this`snapshot, this`window_sum_ug, this`window_count, this`phase_start_ms
      reads this`guard_reference_ug, this`have_guard_reference, this`load_change_count, this`past
    {
      if ok && old(Due(input, Arming, config.arming_ms))
      then && snapshot.state == Tracking && snapshot.plateau_reference_ug == old(MeanWith(input))
           && NewPhase(input.now_ms, input.uncompensated_mass_ug - old(snapshot.offset_ug))
      else !old(Due(input, Arming, config.arming_ms)) ==>
             snapshot.plateau_reference_ug == old(snapshot.plateau_reference_ug)
    }

    // An input that is not stable or not allowed freezes, unless switched off or at the limit.
    twostate predicate FreezeRule(input: DriftInput, ok: bool)
      reads this`config, this`snapshot, this`window_sum_ug, this`window_count, this`phase_start_ms
      reads this`guard_reference_ug, this`have_guard_reference, this`load_change_count, this`past
    {
      ok && old(snapshot.enabled && snapshot.state != Limited) && !(input.stable && input.learning_allowed) ==>
        && snapshot.state == Frozen && snapshot.offset_ug == old(snapshot.offset_ug)
        && snapshot.last_freeze_reason == if input.stable then FreezeOperationNotAllowed else FreezeUnstable
    }

    // A sample beyond the guard is only counted, and freezes when it has come often enough in a row.
    twostate predicate GuardRule(input: DriftInput, ok: bool)
      reads this`config, this`snapshot, this`window_sum_ug, this`window_count, this`phase_start_ms
      reads this`guard_reference_ug, this`have_guard_reference, this`load_change_count, this`past
    {
      ok && input.stable && input.learning_allowed && old(snapshot.enabled && have_guard_reference)
      && old(snapshot.state == Arming || snapshot.state == Tracking)
      && old(Abs(input.uncompensated_mass_ug - snapshot.offset_ug - guard_reference_ug) > config.load_change_guard_ug)
      ==>
        && snapshot.offset_ug == old(snapshot.offset_ug)
        && if old(load_change_count) + 1 >= config.load_change_samples
           then snapshot.state == Frozen && snapshot.last_freeze_reason == FreezeLoadChange
           else snapshot.state == old(snapshot.state) && load_change_count == old(load_change_count) + 1
                && window_sum_ug == old(window_sum_ug) && window_count == old(window_count)
    }

    // Without a compensated mass nothing moves.
    twostate lemma NothingMoved(input: DriftInput)
      requires old(!FitsI64(input.uncompensated_mass_ug - snapshot.offset_ug))
      requires unchanged(this`config, this`snapshot, this`window_sum_ug, this`window_count, this`phase_start_ms)
      requires unchanged(this`guard_reference_ug, this`have_guard_reference, this`load_change_count, this`past)
      ensures Taught(input, false)
    {
      hide Closes, Arms, PlateauError, CorrectionOverflows, Elapsed;
    }

    twostate lemma RulesFollow(input: DriftInput)
      requires old(Valid() && initialized) && config == old(config)
      ensures forall ok :: Taught(input, ok) && FreezeRule(input, ok) ==> Ruled(input, ok)
    {
      hide Learnable, Earned, WithinGuard, WeightMath.TruncQuotient, Corrected, Timed, Sums, CorrectionOverflows;
      CorrectedIs(config, old(snapshot.offset_ug), old(PlateauError(input)));
    }

    // A phase just begun, with this reference.
    ghost predicate NewPhase(now_ms: u32, reference: int)
      reads this`window_sum_ug, this`window_count, this`phase_start_ms, this`guard_reference_ug
      reads this`have_guard_reference
    {
      && window_sum_ug == 0 && window_count == 0 && phase_start_ms == now_ms
      && have_guard_reference && guard_reference_ug == reference
    }

    method CloseWindow(input: DriftInput) returns (ok: bool)
      requires Valid() && initialized && snapshot.enabled && snapshot.state == Tracking && LastIs(input)
      requires have_guard_reference && load_change_count == 0
      requires input.now_ms == past.clock % 0x1_0000_0000 && past.clock - past.phase_at >= config.window_ms
      modifies this`snapshot, this`phase_start_ms, this`window_sum_ug, this`window_count, this`load_change_count
      modifies this`guard_reference_ug, this`have_guard_reference, this`past
      ensures Valid() && Closed(input, ok)
      ensures past.reset_at == old(past.reset_at) && past.clock == old(past.clock)
      ensures snapshot.plateau_reference_ug == old(snapshot.plateau_reference_ug)
    {
      hide Learnable, Earned, Guarded, WeightMath.TruncQuotient, Corrected, LastWithin, Tame;
      if Tame(config) { TameFits(input); }
      hide Bounded, LastIs;
      var average := WindowAverage();
      var error := Subtract(average.value, snapshot.plateau_reference_ug);
      if error.None? { return false; }
      SameBounds(config, snapshot, snapshot.(latest_plateau_error_ug := error.value), past.updates);
      snapshot := snapshot.(latest_plateau_error_ug := error.value);
      OneMoreUpdate(config, past.updates);
      var applied := ApplyOffset();
      if !applied { return false; }
      var compensated := Subtract(input.uncompensated_mass_ug, snapshot.offset_ug);
      if compensated.None? {
        past := past.(overran := true);
        return false;
      }
      SameBounds(config, snapshot, snapshot.(compensated_mass_ug := compensated.value), past.updates);
      snapshot := snapshot.(compensated_mass_ug := compensated.value);
      NextWindow(input.now_ms);
      return true;
    }

    // Corrected: tracking goes on with a new window, unless the limit is reached.
    method NextWindow(now_ms: u32)
      requires initialized && ConfigAccepted(config) && load_change_count == 0
      requires Bounded(config, snapshot, past.updates) && (snapshot.state == Tracking || snapshot.state == Limited)
      requires Guarded() && now_ms == past.clock % 0x1_0000_0000 && past.reset_at <= past.phase_at <= past.clock
      requires phase_start_ms == past.phase_at % 0x1_0000_0000 && (Tame(config) ==> !past.overran)
      requires past.overran || past.clock - past.reset_at >= Earned(config, past.updates)
      modifies this`snapshot, this`phase_start_ms, this`window_sum_ug, this`window_count, this`load_change_count
      modifies this`guard_reference_ug, this`have_guard_reference, this`past
      ensures Valid() && past == old(past).(phase_at := past.phase_at)
      ensures snapshot == old(snapshot).(
                            stable_sample_count := snapshot.stable_sample_count,
                            arming_elapsed_ms := snapshot.arming_elapsed_ms,
                            window_elapsed_ms := snapshot.window_elapsed_ms)
      ensures snapshot.state == Tracking ==> NewPhase(now_ms, snapshot.compensated_mass_ug)
    {
      hide Learnable, Earned, WithinGuard, Tame;
      if snapshot.state != Limited {
        StartPhase(Tracking, now_ms);
        guard_reference_ug, have_guard_reference := snapshot.compensated_mass_ug, true;
        NoSamples(guard_reference_ug, config.load_change_guard_ug);
      }
    }

    // The part of Process after the sample is added.
    method Learn(input: DriftInput, compensated: i64) returns (ok: bool)
      requires Valid() && initialized && snapshot.enabled && (snapshot.state == Arming || snapshot.state == Tracking)
      requires have_guard_reference && load_change_count == 0 && LastIs(input)
      requires input.now_ms == past.clock % 0x1_0000_0000
      modifies this`snapshot, this`phase_start_ms, this`window_sum_ug, this`window_count, this`load_change_count
      modifies this`guard_reference_ug, this`have_guard_reference, this`past
      ensures Valid()
      ensures past.reset_at == old(past.reset_at) && past.clock == old(past.clock)
      ensures if old(WindowDone(input)) then Closed(input, ok)
              else && ok && snapshot.enabled && snapshot.offset_ug == old(snapshot.offset_ug)
                   && snapshot.compensated_mass_ug == old(snapshot.compensated_mass_ug)
                   && past.updates == old(past.updates) && past.overran == old(past.overran)
      ensures if old(snapshot.state) == Arming && Elapsed(input.now_ms, old(phase_start_ms)) >= config.arming_ms
              then && snapshot.state == Tracking && NewPhase(input.now_ms, compensated)
                   && snapshot.plateau_reference_ug == old(WindowError() + snapshot.plateau_reference_ug)
              else && snapshot.plateau_reference_ug == old(snapshot.plateau_reference_ug)
                   && (!old(WindowDone(input)) ==>
                         && snapshot.state == old(snapshot.state)
                         && snapshot.stable_sample_count == old(snapshot.stable_sample_count)
                         && (if snapshot.state == Arming then snapshot.arming_elapsed_ms
                             else snapshot.window_elapsed_ms) == Elapsed(input.now_ms, phase_start_ms)
                         && unchanged(this`window_sum_ug, this`window_count, this`phase_start_ms,
                                      this`guard_reference_ug, this`have_guard_reference))
    {
      hide Learnable, Earned, WithinGuard, WeightMath.TruncQuotient, Corrected;
      NoSamples(compensated, config.load_change_guard_ug);
      ElapsedAtMost(past.clock, past.phase_at);
      var elapsed := Elapsed(input.now_ms, phase_start_ms);
      if snapshot.state == Arming {
        snapshot := snapshot.(arming_elapsed_ms := elapsed);
        if elapsed >= config.arming_ms {
          var average := WindowAverage();
          snapshot := snapshot.(plateau_reference_ug := average.value);
          NothingLearned(config);
          StartPhase(Tracking, input.now_ms);
          guard_reference_ug, have_guard_reference := compensated, true;
        }
        return true;
      }
      snapshot := snapshot.(window_elapsed_ms := elapsed);
      if elapsed >= config.window_ms && window_count >= config.minimum_window_samples {
        ok := CloseWindow(input);
        return;
      }
      return true;
    }

    // One more sample beyond the guard: the last one freezes.
    method CountLoadChange(now_ms: u32)
      requires Valid() && initialized && snapshot.enabled && snapshot.state != Limited && have_guard_reference
      requires now_ms == past.clock % 0x1_0000_0000
      modifies this`snapshot, this`phase_start_ms, this`window_sum_ug, this`window_count, this`load_change_count
      modifies this`have_guard_reference, this`past
      ensures Valid() && past == old(past).(phase_at := past.phase_at)
      ensures if old(load_change_count) + 1 < config.load_change_samples
              then load_change_count == old(load_change_count) + 1 && snapshot == old(snapshot) && have_guard_reference
                   && window_sum_ug == old(window_sum_ug) && window_count == old(window_count)
              else snapshot == FrozenSnapshot(old(snapshot), FreezeLoadChange)
    {
      hide Learnable, Earned, WithinGuard, Timed, Bounded;
      if load_change_count + 1 >= config.load_change_samples {
        Freeze(now_ms, FreezeLoadChange, past.clock);
      } else {
        load_change_count := load_change_count + 1;
      }
    }

    // One more sample within the guard; the first one is the reference.
    method AddGuarded(compensated: i64) returns (ok: bool)
      requires Valid() && initialized
      requires have_guard_reference ==> Abs(compensated - guard_reference_ug) <= config.load_change_guard_ug
      modifies this`window_sum_ug, this`window_count, this`snapshot, this`load_change_count
      modifies this`guard_reference_ug, this`have_guard_reference
      ensures Valid() && have_guard_reference && load_change_count == 0
      ensures guard_reference_ug == if old(have_guard_reference) then old(guard_reference_ug) else compensated
      ensures snapshot == old(snapshot).(stable_sample_count := snapshot.stable_sample_count)
      ensures ok ==> window_sum_ug == old(window_sum_ug) + compensated && window_count == old(window_count) + 1
      ensures ok ==> snapshot.stable_sample_count == window_count
      ensures ok == (FitsI64(old(window_sum_ug) + compensated) && old(window_count) < UINT32_MAX)
      ensures LastWithin(old(window_sum_ug), old(window_count), guard_reference_ug, Abs(config.load_change_guard_ug),
                         compensated)
    {
      hide Learnable, Earned, WithinGuard, Timed, Tame;
      if !have_guard_reference {
        guard_reference_ug, have_guard_reference := compensated, true;
        NoSamples(guard_reference_ug, config.load_change_guard_ug);
      }
      load_change_count := 0;
      OneMoreSample(window_sum_ug, window_count, guard_reference_ug, config.load_change_guard_ug, compensated);
      ok := AddSample(compensated);
    }

    // The part of Process for a stable input.
    method ProcessStable(input: DriftInput, compensated: i64) returns (ok: bool)
      requires Valid() && initialized && Learns(input) && (snapshot.state == Arming || snapshot.state == Tracking)
      requires compensated == snapshot.compensated_mass_ug == input.uncompensated_mass_ug - snapshot.offset_ug
      requires input.now_ms == past.clock % 0x1_0000_0000
      modifies this`snapshot, this`phase_start_ms, this`window_sum_ug, this`window_count, this`load_change_count
      modifies this`guard_reference_ug, this`have_guard_reference, this`past
      ensures Valid() && Taught(input, ok) && past.clock == old(past.clock)
      ensures ok == (old(Jumps(input)) || !old(LearningFails(input)))
    {
      hide Learnable, Earned, WithinGuard, WeightMath.TruncQuotient, Corrected, Timed, Distance, Bounded;
      DistanceBeyond(compensated, guard_reference_ug, config.load_change_guard_ug);
      if have_guard_reference && Distance(compensated, guard_reference_ug) > config.load_change_guard_ug {
        CountLoadChange(input.now_ms);
        return true;
      }
      var added := AddGuarded(compensated);
      if !added { return false; }
      ok := Learn(input, compensated);
    }

    method Process(input: DriftInput, ghost tick: nat) returns (ok: bool)
      requires Valid() && Now(input.now_ms, tick)
      modifies this`snapshot, this`phase_start_ms, this`window_sum_ug, this`window_count, this`load_change_count
      modifies this`guard_reference_ug, this`have_guard_reference, this`past
      modifies this`seen
      ensures Valid() && seen == old(seen) + [input]
      // A call fails exactly when a difference or a sum that it needs does not exist.
      ensures ok <==> initialized && !old(Fails(input))
      ensures if initialized then Taught(input, ok) else snapshot == old(snapshot) && past == old(past)
      // An input that teaches nothing fails only when the offset cannot be subtracted.
      ensures initialized && !old(Learns(input)) ==>
                ok == FitsI64(input.uncompensated_mass_ug - old(snapshot.offset_ug))
      ensures ok && snapshot.enabled && old(snapshot.state) != Limited && !old(Learns(input)) ==>
                snapshot.state == Frozen
      // The same in terms of the fields.
      ensures initialized ==> Ruled(input, ok)
      ensures past.clock == if initialized && FitsI64(input.uncompensated_mass_ug - old(snapshot.offset_ug))
                            then tick else old(past.clock)
    {
      hide *;
      if initialized {
        ok := Take(input, tick);
        RulesFollow(input);
      } else {
        ok := false;
      }
      seen := seen + [input];
    }

    // What an initialised compensator does with an input.
    method Take(input: DriftInput, ghost tick: nat) returns (ok: bool)
      requires Valid() && initialized && Now(input.now_ms, tick)
      modifies this`snapshot, this`phase_start_ms, this`window_sum_ug, this`window_count, this`load_change_count
      modifies this`guard_reference_ug, this`have_guard_reference, this`past
      ensures Valid() && ok == !old(Fails(input)) && Taught(input, ok) && FreezeRule(input, ok)
      ensures !old(Learns(input)) ==> ok == FitsI64(input.uncompensated_mass_ug - old(snapshot.offset_ug))
      ensures ok && snapshot.enabled && old(snapshot.state) != Limited && !old(Learns(input)) ==>
                snapshot.state == Frozen
      ensures past.clock == if FitsI64(input.uncompensated_mass_ug - old(snapshot.offset_ug))
                            then tick else old(past.clock)
    {
      hide Learnable, Earned, WithinGuard, Timed, Tame, Bounded, Fails, Corrects, SetsPlateau, Sums, CountsJump;
      var compensated := Subtract(input.uncompensated_mass_ug, snapshot.offset_ug);
      if compensated.None? {
        NothingToTeach(input);
        NothingMoved(input);
        return false;
      }
      if snapshot.enabled && input.learning_allowed && input.stable && snapshot.state != Limited {
        ok := Teach(input, compensated.value, tick);
      } else {
        TeachesNothing(input);
        Pass(input, compensated.value, tick);
        ok := true;
      }
    }

    // The part of Process for any other input.
    method Pass(input: DriftInput, compensated: i64, ghost tick: nat)
      requires Valid() && initialized && !Learns(input) && Now(input.now_ms, tick)
      requires compensated == input.uncompensated_mass_ug - snapshot.offset_ug
      modifies this`snapshot, this`phase_start_ms, this`window_sum_ug, this`window_count, this`load_change_count
      modifies this`have_guard_reference, this`past
      ensures Valid() && snapshot.compensated_mass_ug == compensated && snapshot.offset_ug == old(snapshot.offset_ug)
      ensures past == old(past).(clock := tick, phase_at := past.phase_at)
      ensures snapshot.plateau_reference_ug == old(snapshot.plateau_reference_ug)
      ensures Taught(input, true) && snapshot.enabled == old(snapshot.enabled)
      ensures snapshot.enabled && old(snapshot.state) != Limited ==>
                && snapshot.state == Frozen
                && snapshot.last_freeze_reason == if input.stable then FreezeOperationNotAllowed else FreezeUnstable
    {
      hide Learnable, Earned, WithinGuard, Tame, PlateauError, Closes, Arms, Jumps, Overruns, Gathers;
      TeachesNothing(input);
      snapshot := snapshot.(compensated_mass_ug := compensated);
      past := past.(clock := tick);
      if snapshot.enabled && snapshot.state != Limited {
        Freeze(input.now_ms, if input.stable then FreezeOperationNotAllowed else FreezeUnstable, tick);
      }
    }

    lemma TeachesNothing(input: DriftInput)
      requires !Learns(input)
      ensures !Jumps(input) && !Closes(input) && !Arms(input) && !Overruns(input) && !Gathers(input)
      ensures Fails(input) <==> !FitsI64(input.uncompensated_mass_ug - snapshot.offset_ug)
    {
      hide CorrectionOverflows, Elapsed, WeightMath.TruncQuotient;
    }

    lemma NothingToTeach(input: DriftInput)
      requires !FitsI64(input.uncompensated_mass_ug - snapshot.offset_ug)
      ensures Fails(input) && !Overruns(input) && !Gathers(input)
    {
      hide CorrectionOverflows, Elapsed, WeightMath.TruncQuotient;
    }

    // The part of Process for an input to learn from.
    method Teach(input: DriftInput, compensated: i64, ghost tick: nat) returns (ok: bool)
      requires Valid() && initialized && Learns(input) && Now(input.now_ms, tick)
      requires compensated == input.uncompensated_mass_ug - snapshot.offset_ug
      modifies this`snapshot, this`phase_start_ms, this`window_sum_ug, this`window_count, this`load_change_count
      modifies this`guard_reference_ug, this`have_guard_reference, this`past
      ensures Valid() && ok == !old(Fails(input)) && Taught(input, ok) && past.clock == tick
    {
      hide Learnable, Earned, WithinGuard, WeightMath.TruncQuotient, Corrected, Elapsed, CorrectionFails,
        CorrectionOverflows, Tame;
      if snapshot.state == Frozen {
        ok := Awaken(input, compensated, tick);
        return;
      }
      snapshot := snapshot.(compensated_mass_ug := compensated);
      past := past.(clock := tick);
      ok := ProcessStable(input, compensated);
    }

    // The first input to learn from after a freeze opens an arming window.
    method Awaken(input: DriftInput, compensated: i64, ghost tick: nat) returns (ok: bool)
      requires Valid() && initialized && Learns(input) && snapshot.state == Frozen && Now(input.now_ms, tick)
      requires compensated == input.uncompensated_mass_ug - snapshot.offset_ug
      modifies this`snapshot, this`phase_start_ms, this`window_sum_ug, this`window_count, this`load_change_count
      modifies this`guard_reference_ug, this`have_guard_reference, this`past
      ensures Valid() && ok && snapshot.state == Arming && snapshot.compensated_mass_ug == compensated
      ensures snapshot.offset_ug == old(snapshot.offset_ug)
      ensures snapshot.plateau_reference_ug == old(snapshot.plateau_reference_ug)
      ensures past.reset_at == old(past.reset_at) && past.clock == tick
      ensures past.overran == old(past.overran) && past.updates == old(past.updates)
      ensures window_sum_ug == compensated && window_count == 1 && phase_start_ms == input.now_ms
    {
      hide Learnable, Earned, WithinGuard, WeightMath.TruncQuotient, Corrected, CorrectionFails, CorrectionOverflows,
        Tame;
      snapshot := snapshot.(compensated_mass_ug := compensated);
      past := past.(clock := tick);
      StartPhase(Arming, input.now_ms);
      ElapsedAtMost(tick, tick);
      ok := ProcessStable(input, compensated);
    }

    // What the settings promise of the offset, in every state since the reset.
    // Tame settings rule out the one way in which a phase is not started again.
    lemma Rate()
      requires Valid() && initialized && (Tame(config) || !past.overran)
      ensures Abs(snapshot.offset_ug) * config.window_ms <= config.maximum_step_ug * (past.clock - past.reset_at)
      ensures snapshot.offset_ug != 0 ==> past.clock - past.reset_at >= config.arming_ms + config.window_ms
    {
      hide Learnable, Earned;
      if past.updates == 0 {
        NothingLearned(config);
      }
      LearningRate(config, past.updates, snapshot.offset_ug, past.clock - past.reset_at);
    }

    // A whole run of inputs, whatever the calls answer.
    method Run(inputs: seq<DriftInput>, ghost ticks: seq<nat>) returns (answers: seq<bool>)
      requires Valid() && initialized && Tame(config) && Ticking(inputs, ticks, past.clock)
      modifies this`snapshot, this`phase_start_ms, this`window_sum_ug, this`window_count, this`load_change_count
      modifies this`guard_reference_ug, this`have_guard_reference, this`past
      modifies this`seen
      ensures Valid() && |answers| == |inputs| && seen == old(seen) + inputs
      ensures past.reset_at == old(past.reset_at) && old(past.clock) <= past.clock
      ensures inputs != [] ==>
                past.clock <= ticks[|ticks| - 1] && (answers[|answers| - 1] ==> past.clock == ticks[|ticks| - 1])
      ensures Abs(snapshot.offset_ug) <= config.maximum_offset_ug
      ensures Abs(snapshot.offset_ug) * config.window_ms <= config.maximum_step_ug * (past.clock - past.reset_at)
      ensures snapshot.offset_ug != 0 ==> past.clock - past.reset_at >= config.arming_ms + config.window_ms
    {
      hide Learnable, Earned, WithinGuard, Timed, WeightMath.TruncQuotient, Corrected, Tame, CorrectionOverflows;
      answers := [];
      for k := 0 to |inputs|
        invariant Valid() && |answers| == k && past.reset_at == old(past.reset_at) && old(past.clock) <= past.clock
        invariant seen == old(seen) + inputs[..k]
        invariant k > 0 ==> past.clock <= ticks[k - 1] && (answers[k - 1] ==> past.clock == ticks[k - 1])
        invariant forall j :: k <= j < |ticks| ==> past.clock <= ticks[j]
      {
        var done := Process(inputs[k], ticks[k]);
        answers := answers + [done];
      }
      Rate();
    }

    // A load step held beyond the guard freezes learning with its
    // load_change_samples-th sample, and the offset has not moved.
    method HoldLoadChange(inputs: seq<DriftInput>, ghost ticks: seq<nat>) returns (ok: bool)
      requires Valid() && initialized && (snapshot.state == Arming || snapshot.state == Tracking)
      requires have_guard_reference
      requires Ticking(inputs, ticks, past.clock) && |inputs| == config.load_change_samples - load_change_count
      requires forall k :: 0 <= k < |inputs| ==> Jumps(inputs[k])
      requires forall k :: 0 <= k < |inputs| ==> FitsI64(inputs[k].uncompensated_mass_ug - snapshot.offset_ug)
      modifies this`snapshot, this`phase_start_ms, this`window_sum_ug, this`window_count, this`load_change_count
      modifies this`guard_reference_ug, this`have_guard_reference, this`past, this`seen
      ensures Valid() && ok && snapshot.offset_ug == old(snapshot.offset_ug)
      ensures snapshot.state == Frozen && snapshot.last_freeze_reason == FreezeLoadChange
    {
      hide Learnable, Earned, WithinGuard, Timed, WeightMath.TruncQuotient, Corrected;
      ok := true;
      for k := 0 to |inputs|
        invariant Valid() && ok
        invariant forall j :: k <= j < |ticks| ==> past.clock <= ticks[j]
        invariant snapshot.offset_ug == old(snapshot.offset_ug)
        invariant k < |inputs| ==>
                    && snapshot.state == old(snapshot.state) && snapshot.enabled && have_guard_reference
                    && guard_reference_ug == old(guard_reference_ug) && load_change_count == old(load_change_count) + k
        invariant k == |inputs| ==> snapshot.state == Frozen && snapshot.last_freeze_reason == FreezeLoadChange
      {
        assert Jumps(inputs[k]);
        ok := Process(inputs[k], ticks[k]);
      }
    }
  }

  // Accepted settings that are not tame: the guard lets one window hold both 0 and
  // the greatest mass.
  const HUGE_GUARD: DriftConfig := DriftConfig(1, 10, 2, 0, 1, 100, 0x7FFF_FFFF_FFFF_FFFF, 1)

  // Tracking with them since 1 ms, at the greatest mass.
  ghost predicate AtGreatest(c: RuntimeDriftCompensator, offset: int, sum: int, count: nat, clock: nat)
    reads c
  {
    && c.Valid() && c.initialized && c.config == HUGE_GUARD && c.snapshot.enabled && c.snapshot.state == Tracking
    && c.snapshot.plateau_reference_ug == INT64_MAX && c.snapshot.offset_ug == offset && c.phase_start_ms == 1
    && c.have_guard_reference && c.guard_reference_ug == INT64_MAX && c.window_sum_ug == sum && c.window_count == count
    && c.past.clock == clock && c.past.reset_at == 0
  }

  // With them the rate fails.  The first window ends on the greatest mass, from
  // which the corrected offset cannot be subtracted; it stays open, and the very
  // next sample, 1 ms later, corrects again.
  method HugeGuardBreaksRate() returns (c: RuntimeDriftCompensator, answers: seq<bool>)
    ensures fresh(c) && c.Valid() && c.initialized && c.config == HUGE_GUARD && ConfigAccepted(HUGE_GUARD)
    ensures c.past.reset_at == 0 && c.past.clock == 12 && answers == [true, true, false, true]
    ensures c.seen == [DriftInput(INT64_MAX, 1, true, true), DriftInput(0, 2, true, true),
                       DriftInput(INT64_MAX, 11, true, true), DriftInput(-1, 12, true, true)]
    ensures c.snapshot.offset_ug == -2
    ensures Abs(c.snapshot.offset_ug) * c.config.window_ms > c.config.maximum_step_ug * (c.past.clock - c.past.reset_at)
  {
    hide RuntimeDriftCompensator.Valid;
    c := new RuntimeDriftCompensator();
    var ok := c.Init(HUGE_GUARD, true, 0, 0);
    var a := ArmAtGreatest(c);
    var b := SampleNothing(c);
    var d := CloseAtGreatest(c);
    var e := CloseAgain(c);
    answers := [a, b, d, e];
  }

  method ArmAtGreatest(c: RuntimeDriftCompensator) returns (ok: bool)
    requires c.Valid() && c.initialized && c.config == HUGE_GUARD && c.Fresh(true, ResetPowerOn, 0)
    requires c.phase_start_ms == 0
    modifies c
    ensures ok && AtGreatest(c, 0, 0, 0, 1) && c.seen == old(c.seen) + [DriftInput(INT64_MAX, 1, true, true)]
  {
    hide Learnable, Earned, WithinGuard, Timed, Bounded, RuntimeDriftCompensator.Valid;
    assert WeightMath.TruncQuotient(INT64_MAX, 1) == INT64_MAX;
    ok := c.Process(DriftInput(INT64_MAX, 1, true, true), 1);
  }

  method SampleNothing(c: RuntimeDriftCompensator) returns (ok: bool)
    requires AtGreatest(c, 0, 0, 0, 1)
    modifies c
    ensures ok && AtGreatest(c, 0, 0, 1, 2) && c.seen == old(c.seen) + [DriftInput(0, 2, true, true)]
  {
    hide Learnable, Earned, WithinGuard, Timed, Bounded, RuntimeDriftCompensator.Valid, WeightMath.TruncQuotient;
    ok := c.Process(DriftInput(0, 2, true, true), 2);
  }

  method CloseAtGreatest(c: RuntimeDriftCompensator) returns (ok: bool)
    requires AtGreatest(c, 0, 0, 1, 2)
    modifies c
    ensures !ok && AtGreatest(c, -1, INT64_MAX, 2, 11)
    ensures c.seen == old(c.seen) + [DriftInput(INT64_MAX, 11, true, true)]
  {
    hide Learnable, Earned, WithinGuard, Timed, Bounded, RuntimeDriftCompensator.Valid;
    assert WeightMath.TruncQuotient(INT64_MAX, 2) - INT64_MAX < -1;
    ok := c.Process(DriftInput(INT64_MAX, 11, true, true), 11);
  }

  method CloseAgain(c: RuntimeDriftCompensator) returns (ok: bool)
    requires AtGreatest(c, -1, INT64_MAX, 2, 11)
    modifies c
    ensures ok && c.Valid() && c.initialized && c.config == HUGE_GUARD && c.snapshot.offset_ug == -2
    ensures c.past.clock == 12 && c.past.reset_at == 0 && c.seen == old(c.seen) + [DriftInput(-1, 12, true, true)]
  {
    hide Learnable, Earned, WithinGuard, Timed, Bounded, RuntimeDriftCompensator.Valid;
    assert WeightMath.TruncQuotient(INT64_MAX, 3) - INT64_MAX < -1;
    ok := c.Process(DriftInput(-1, 12, true, true), 12);
  }

  // The snapshot after a reset, and after a freeze.
  function ResetSnapshot(enabled: bool, reason: ResetReason): DriftSnapshot {
    DriftSnapshot(if enabled then Arming else Disabled, 0, 0, 0, 0, 0, 0, 0, enabled, false, reason, FreezeNone)
  }

  function FrozenSnapshot(s: DriftSnapshot, reason: FreezeReason): DriftSnapshot {
    s.(state := Frozen, stable_sample_count := 0, arming_elapsed_ms := 0, window_elapsed_ms := 0,
       last_freeze_reason := reason)
  }
}
