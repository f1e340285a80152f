// Domain/measurement/display_conditioner.c: holds a steady number on the display.
module DisplayConditioner {
  import opened FixedWidth
  import opened RingBuffer
  import opened Median
  import opened MassMath

  const DISPLAY_CONDITIONER_WINDOW_SIZE: nat := 9
  const DISPLAY_CONDITIONER_RELEASE_SAMPLES: u8 := 3
  const DISPLAY_CONDITIONER_DEFAULT_HOLD_MS: u32 := 1000
  const DISPLAY_CONDITIONER_OPERATOR_UNSTABLE_TIMEOUT_MS: u32 := 3000

  datatype DisplayConditionState = Tracking | Candidate | Locked

  datatype ReleaseReason =
    | ReleaseNone | ReleaseUnstable | ReleaseDeviation | ReleaseOverload | ReleaseCalibration | ReleaseNotAllowed
    | ReleaseForced

  datatype DisplayConditionInput = DisplayConditionInput(
    authoritative_mass_ug: i64, now_ms: u32, display_division_ug: i64, hold_ms: u32, capacity_ug: i64, stable: bool,
    overload: bool, calibrating: bool, allow_lock: bool, force_reset: bool)

  datatype DisplayConditionSnapshot = DisplayConditionSnapshot(
    state: DisplayConditionState, display_mass_ug: i64, anchor_mass_ug: i64, release_threshold_ug: i64,
    candidate_elapsed_ms: u32, last_release_reason: ReleaseReason, locked: bool, operator_zero_anchor: bool)

  function PositiveMultiplySaturated(value: i64, multiplier: u32): (product: i64)
    requires multiplier > 0
    ensures product == if value <= 0 then 0
                       else if value * multiplier <= INT64_MAX then value * multiplier else INT64_MAX
  {
    if value <= 0 then 0
    else
      FitsProduct(value, multiplier);
      if value > INT64_MAX / multiplier then INT64_MAX else value * multiplier
  }

  lemma FitsProduct(value: nat, multiplier: nat)
    requires multiplier > 0
    ensures value > INT64_MAX / multiplier <==> value * multiplier > INT64_MAX
  {
    var q: int, r: int := INT64_MAX / multiplier, INT64_MAX % multiplier;
    assert INT64_MAX == q * multiplier + r;
    if value > q { MulLess(multiplier, q, value); } else { MulLe(multiplier, value, q); }
  }

  function MassDistance(left: i64, right: i64): (d: u64)
    ensures d == Abs(left - right)
  {
    // Both operands as uint64, so the difference wraps.
    AsUnsigned(left);
    AsUnsigned(right);
    if left >= right then (left % TWO_64 - right % TWO_64) % TWO_64 else (right % TWO_64 - left % TWO_64) % TWO_64
  }

  lemma AsUnsigned(x: i64)
    ensures x % TWO_64 == if x >= 0 then x else x + TWO_64
  {}

  function ComputeReleaseThreshold(display_division_ug: i64, capacity_ug: i64): i64 {
    var division := if display_division_ug > 0 then display_division_ug else 10000;
    var threshold := PositiveMultiplySaturated(division, 8);
    var limited :=
      if capacity_ug > 0 then
        var capacity_limit := if capacity_ug / 100 <= 0 then 1 else capacity_ug / 100;
        if threshold > capacity_limit then capacity_limit else threshold
      else threshold;
    if limited > 0 then limited else 1
  }

  // At most eight display divisions and at most 1 % of the capacity, and the
  // largest such distance up to saturation; never zero.
  lemma ReleaseThresholdIs(division: i64, capacity: i64)
    ensures var t := ComputeReleaseThreshold(division, capacity);
            var d: int := if division > 0 then division else 10000;
            && 1 <= t <= 8 * d && (capacity > 0 && t > 1 ==> 100 * t <= capacity)
            && (t == 8 * d || t == INT64_MAX || (capacity > 0 && 100 * (t + 1) > capacity))
  {}

  // ---- what an action does, seen from outside -------------------------------------------------

  // The snapshot, the samples of the candidate phase, those that the lock was made
  // from, the starts of both and the deviations in a row.
  datatype DisplayView = DisplayView(
    snapshot: DisplayConditionSnapshot, candidate: seq<i64>, locked_on: seq<i64>, candidate_start_ms: u32,
    operator_anchor_start_ms: u32, release_sample_count: u8)

  datatype Action =
    | Updated(input: DisplayConditionInput) | TrackingForced(mass_ug: i64, reason: ReleaseReason)
    | ZeroAnchored(now_ms: u32)

  function Cleared(mass_ug: i64): DisplayConditionSnapshot {
    DisplayConditionSnapshot(Tracking, mass_ug, 0, 0, 0, ReleaseNone, false, false)
  }

  predicate Forced(input: DisplayConditionInput) {
    input.force_reset || input.overload || input.calibrating || !input.allow_lock
  }

  function ForcedReason(input: DisplayConditionInput): ReleaseReason {
    if input.force_reset then ReleaseForced else if input.overload then ReleaseOverload
    else if input.calibrating then ReleaseCalibration else ReleaseNotAllowed
  }

  function Threshold(input: DisplayConditionInput): i64 {
    ComputeReleaseThreshold(input.display_division_ug, input.capacity_ug)
  }

  function HoldTime(input: DisplayConditionInput): u32 {
    if input.hold_ms != 0 then input.hold_ms else DISPLAY_CONDITIONER_DEFAULT_HOLD_MS
  }

  // The input is further from the anchor than the release threshold.
  predicate Deviates(s: DisplayConditionSnapshot, input: DisplayConditionInput) {
    Abs(input.authoritative_mass_ug - s.anchor_mass_ug) > Threshold(input)
  }

  // An unstable input releases the lock, an operator's anchor only later.
  predicate Unsettled(v: DisplayView, input: DisplayConditionInput) {
    && !input.stable
    && (!v.snapshot.operator_zero_anchor
        || Elapsed(input.now_ms, v.operator_anchor_start_ms) >= DISPLAY_CONDITIONER_OPERATOR_UNSTABLE_TIMEOUT_MS)
  }

  // Following the scale again, with an empty candidate phase.
  function Released(v: DisplayView, mass_ug: i64, reason: ReleaseReason): DisplayView {
    v.(snapshot := v.snapshot.(
       state := Tracking, display_mass_ug := mass_ug, anchor_mass_ug := 0, locked := false,
       operator_zero_anchor := false, last_release_reason := reason, candidate_elapsed_ms := 0),
       candidate := [], release_sample_count := 0)
  }

  function Anchored(v: DisplayView, now_ms: u32): DisplayView {
    v.(snapshot := v.snapshot.(
       state := Locked, display_mass_ug := 0, anchor_mass_ug := 0, locked := true, operator_zero_anchor := true,
       last_release_reason := ReleaseNone, candidate_elapsed_ms := 0),
       candidate := [], release_sample_count := 0, operator_anchor_start_ms := now_ms)
  }

  function Tracked(v: DisplayView, input: DisplayConditionInput): DisplayView {
    var mass := input.authoritative_mass_ug;
    if !input.stable then v.(snapshot := v.snapshot.(display_mass_ug := mass))
    else
      v.(snapshot := v.snapshot.(display_mass_ug := mass, state := Candidate, candidate_elapsed_ms := 0),
         candidate := [mass], release_sample_count := 0, candidate_start_ms := input.now_ms)
  }

  // One more candidate sample; with enough of them for long enough, a lock on
  // the median of the last nine.
  ghost predicate CandidateMoves(v: DisplayView, input: DisplayConditionInput, w: DisplayView) {
    var mass := input.authoritative_mass_ug;
    if !input.stable then w == Released(v, mass, ReleaseUnstable)
    else
      var elapsed := Elapsed(input.now_ms, v.candidate_start_ms);
      var n := v.(snapshot := v.snapshot.(display_mass_ug := mass, candidate_elapsed_ms := elapsed),
                  candidate := v.candidate + [mass]);
      if elapsed < HoldTime(input) || |n.candidate| < 9 then w == n
      else
        var anchor := w.snapshot.anchor_mass_ug;
        && IsMedian(anchor, Recent(n.candidate, 9))
        && w == n.(snapshot := n.snapshot.(
                   anchor_mass_ug := anchor, display_mass_ug := anchor, state := Locked, locked := true),
                   release_sample_count := 0, locked_on := Recent(n.candidate, 9))
  }

  function LockedNext(v: DisplayView, input: DisplayConditionInput): DisplayView {
    var held := v.(snapshot := v.snapshot.(display_mass_ug := v.snapshot.anchor_mass_ug));
    if Unsettled(v, input) then Released(held, input.authoritative_mass_ug, ReleaseUnstable)
    else if !Deviates(v.snapshot, input) then held.(release_sample_count := 0)
    else if v.release_sample_count >= 2 then Released(held, input.authoritative_mass_ug, ReleaseDeviation)
    else held.(release_sample_count := v.release_sample_count + 1)
  }

  ghost predicate UpdateMoves(v: DisplayView, input: DisplayConditionInput, w: DisplayView) {
    var u := v.(snapshot := v.snapshot.(release_threshold_ug := Threshold(input)));
    if Forced(input) then w == Released(u, input.authoritative_mass_ug, ForcedReason(input))
    else
      match v.snapshot.state
      case Tracking => w == Tracked(u, input)
      case Candidate => CandidateMoves(u, input, w)
      case Locked => w == LockedNext(u, input)
  }

  ghost predicate ActionMoves(v: DisplayView, action: Action, w: DisplayView) {
    match action
    case Updated(input) => UpdateMoves(v, input, w)
    case TrackingForced(mass_ug, reason) => w == Released(v, mass_ug, reason)
    case ZeroAnchored(now_ms) => w == Anchored(v, now_ms)
  }

  // What every view satisfies.
  ghost predicate Shown(v: DisplayView) {
    var s := v.snapshot;
    && (s.locked <==> s.state == Locked)
    && (s.operator_zero_anchor ==> s.locked && s.anchor_mass_ug == 0)
    && (s.locked ==> s.display_mass_ug == s.anchor_mass_ug && v.release_sample_count < 3)
    && (s.locked && !s.operator_zero_anchor ==> |v.locked_on| == 9 && IsMedian(s.anchor_mass_ug, v.locked_on))
  }

  lemma ShownKept(v: DisplayView, action: Action, w: DisplayView)
    requires Shown(v) && ActionMoves(v, action, w)
    ensures Shown(w)
  {
    hide IsMedian, ComputeReleaseThreshold, Elapsed;
  }

  // Unlocked, the display follows the scale; locked, it stays on its anchor until
  // an unstable input or the third deviation in a row.
  lemma UpdateShows(v: DisplayView, input: DisplayConditionInput, w: DisplayView)
    requires Shown(v) && UpdateMoves(v, input, w)
    ensures w.snapshot.release_threshold_ug == Threshold(input)
    ensures !w.snapshot.locked ==> w.snapshot.display_mass_ug == input.authoritative_mass_ug
    ensures w.snapshot.locked && !v.snapshot.locked ==>
              && v.snapshot.state == Candidate && w.locked_on == Recent(w.candidate, 9) && |w.candidate| >= 9
              && Elapsed(input.now_ms, w.candidate_start_ms) >= HoldTime(input)
              && IsMedian(w.snapshot.display_mass_ug, w.locked_on)
    ensures v.snapshot.locked && !Forced(input) ==>
              (w.snapshot.locked <==>
                 !Unsettled(v, input) && (Deviates(v.snapshot, input) ==> v.release_sample_count < 2))
    ensures v.snapshot.locked && w.snapshot.locked ==>
              w.snapshot.display_mass_ug == v.snapshot.display_mass_ug
              && w.snapshot.operator_zero_anchor == v.snapshot.operator_zero_anchor
  {
    hide IsMedian, ComputeReleaseThreshold, Elapsed;
  }

  // The same in the fields of input and view, phase by phase.  An overload, a
  // calibration, a reset or a ban on locks lets go of everything.
  lemma ForcedLetsGo(v: DisplayView, input: DisplayConditionInput, w: DisplayView)
    requires UpdateMoves(v, input, w)
    requires input.force_reset || input.overload || input.calibrating || !input.allow_lock
    ensures w.snapshot.state == Tracking && !w.snapshot.locked && !w.snapshot.operator_zero_anchor
    ensures w.snapshot.display_mass_ug == input.authoritative_mass_ug && w.candidate == []
    ensures w.snapshot.last_release_reason == if input.force_reset then ReleaseForced
                                              else if input.overload then ReleaseOverload
                                              else if input.calibrating then ReleaseCalibration else ReleaseNotAllowed
  {
    hide ComputeReleaseThreshold;
  }

  // Otherwise a stable mass begins or goes on with a candidate phase and an
  // unstable one ends it; a lock needs nine samples and the hold time, a second
  // when none is set.
  lemma UnlockedPhases(v: DisplayView, input: DisplayConditionInput, w: DisplayView)
    requires UpdateMoves(v, input, w) && v.snapshot.state != Locked
    requires !input.force_reset && !input.overload && !input.calibrating && input.allow_lock
    ensures !input.stable ==> w.snapshot.state == Tracking && w.candidate == (if v.snapshot.state == Tracking
                                                                              then v.candidate else [])
    ensures input.stable && v.snapshot.state == Tracking ==>
              && w.snapshot.state == Candidate && w.candidate == [input.authoritative_mass_ug]
              && w.candidate_start_ms == input.now_ms
    ensures input.stable && v.snapshot.state == Candidate ==>
              && w.candidate == v.candidate + [input.authoritative_mass_ug]
              && w.candidate_start_ms == v.candidate_start_ms
              && var held, hold := (input.now_ms - v.candidate_start_ms) % 0x1_0000_0000,
                                   if input.hold_ms == 0 then 1000 else input.hold_ms;
                 w.snapshot.state == if |w.candidate| >= 9 && held >= hold then Locked else Candidate
  {
    hide ComputeReleaseThreshold, IsMedian, Recent;
  }

  // A lock ends with an unstable mass, one on the operator's zero only three
  // seconds after it was set, or with the third mass in a row that is further away
  // than the threshold.
  lemma LockEnds(v: DisplayView, input: DisplayConditionInput, w: DisplayView)
    requires Shown(v) && UpdateMoves(v, input, w) && v.snapshot.locked
    requires !input.force_reset && !input.overload && !input.calibrating && input.allow_lock
    ensures var loose := !input.stable
                         && (v.snapshot.operator_zero_anchor ==>
                               (input.now_ms - v.operator_anchor_start_ms) % 0x1_0000_0000 >= 3000);
            var away := Abs(input.authoritative_mass_ug - v.snapshot.anchor_mass_ug) > w.snapshot.release_threshold_ug;
            && (w.snapshot.locked <==> !loose && (away ==> v.release_sample_count < 2))
            && (w.snapshot.locked ==> w.release_sample_count == if away then v.release_sample_count + 1 else 0)
            && (!w.snapshot.locked ==>
                  w.snapshot.state == Tracking && w.candidate == [] && w.release_sample_count == 0
                  && w.snapshot.last_release_reason == if loose then ReleaseUnstable else ReleaseDeviation)
  {
    hide IsMedian, ComputeReleaseThreshold;
  }

  // ---- runs --------------------------------------------------------------------------------------

  ghost predicate Moved(views: seq<DisplayView>, actions: seq<Action>) {
    |views| == |actions| + 1 && forall k :: 0 <= k < |actions| ==> ActionMoves(views[k], actions[k], views[k + 1])
  }

  // The lock was held although action k was a deviating update.
  predicate Held(views: seq<DisplayView>, actions: seq<Action>, k: int) {
    && 0 <= k < |actions| && k + 1 < |views| && actions[k].Updated? && views[k].snapshot.locked
    && views[k + 1].snapshot.locked
    && Deviates(views[k].snapshot, actions[k].input)
  }

  lemma {:induction false} ShownAlways(views: seq<DisplayView>, actions: seq<Action>, k: nat)
    requires Moved(views, actions) && Shown(views[0]) && k < |views|
    ensures Shown(views[k])
  {
    if k > 0 {
      ShownAlways(views, actions, k - 1);
      ShownKept(views[k - 1], actions[k - 1], views[k]);
    }
  }

  // A deviation held counts, and two are the most that can be counted.
  lemma HeldCounts(views: seq<DisplayView>, actions: seq<Action>, k: nat)
    requires Moved(views, actions) && Shown(views[0])
    ensures Held(views, actions, k) ==> views[k + 1].release_sample_count == views[k].release_sample_count + 1 <= 2
  {
    hide IsMedian, ComputeReleaseThreshold, Elapsed;
    if Held(views, actions, k) {
      ShownAlways(views, actions, k);
      assert ActionMoves(views[k], actions[k], views[k + 1]);
    }
  }

  // No run of actions keeps the lock through three deviations in a row.
  lemma NeverThreeDeviations(views: seq<DisplayView>, actions: seq<Action>, k: nat)
    requires Moved(views, actions) && Shown(views[0])
    ensures !(Held(views, actions, k) && Held(views, actions, k + 1) && Held(views, actions, k + 2))
  {
    HeldCounts(views, actions, k);
    HeldCounts(views, actions, k + 1);
    HeldCounts(views, actions, k + 2);
  }

  // An operator's anchor shows 0 at every moment of every run.
  lemma OperatorShowsZero(views: seq<DisplayView>, actions: seq<Action>, k: nat)
    requires Moved(views, actions) && Shown(views[0]) && k < |views|
    ensures views[k].snapshot.operator_zero_anchor ==>
              views[k].snapshot.locked && views[k].snapshot.display_mass_ug == 0
  {
    ShownAlways(views, actions, k);
    hide IsMedian;
  }

  class DisplayConditioner {
    var snapshot: DisplayConditionSnapshot
    const sample_buffer: array<i64>
    var candidate_start_ms: u32
    var operator_anchor_start_ms: u32
    var last_update_ms: u32
    var sample_count: u8
    var sample_index: u8
    var release_sample_count: u8
    var initialized: bool
    // The samples of the candidate phase, and those that the lock was made from.
    ghost var candidate: seq<i64>
    ghost var locked_on: seq<i64>

    ghost predicate Valid()
      reads this, sample_buffer
    {
      sample_buffer.Length == 9 && (initialized ==> Filled() && Shown(View()))
    }

    ghost function View(): DisplayView
      reads this`snapshot, this`candidate, this`locked_on, this`candidate_start_ms, this`operator_anchor_start_ms,
        this`release_sample_count
    {
      DisplayView(snapshot, candidate, locked_on, candidate_start_ms, operator_anchor_start_ms, release_sample_count)
    }

    ghost predicate Filled()
      reads this`sample_index, this`sample_count, this`candidate, sample_buffer
    {
      && sample_index == |candidate| % 9 && sample_count == |Recent(candidate, 9)|
      && Holds(sample_buffer[..], candidate, 9)
    }

    constructor ()
      ensures Valid() && !initialized && fresh(sample_buffer)
    {
      snapshot := Cleared(0);
      candidate_start_ms, operator_anchor_start_ms, last_update_ms := 0, 0, 0;
      sample_count, sample_index, release_sample_count, initialized := 0, 0, 0, false;
      candidate, locked_on := [], [];
      sample_buffer := new i64[9];
    }

    method Init(initial_mass_ug: i64, now_ms: u32)
      requires Valid()
      modifies this, sample_buffer
      ensures Valid() && initialized && snapshot == Cleared(initial_mass_ug) && candidate == []
    {
      ClearCandidate();
      snapshot := Cleared(initial_mass_ug);
      candidate_start_ms, operator_anchor_start_ms, last_update_ms, initialized := 0, 0, now_ms, true;
    }

    method ClearCandidate()
      requires sample_buffer.Length == 9
      modifies this`sample_count, this`sample_index, this`release_sample_count, this`snapshot, this`candidate
      modifies sample_buffer
      ensures Filled() && candidate == [] && release_sample_count == 0
      ensures snapshot == old(snapshot).(candidate_elapsed_ms := 0)
    {
      sample_count, sample_index, release_sample_count := 0, 0, 0;
      forall i | 0 <= i < 9 { sample_buffer[i] := 0; }
      snapshot := snapshot.(candidate_elapsed_ms := 0);
      candidate := [];
    }

    method AddSample(mass_ug: i64)
      requires sample_buffer.Length == 9 && Filled()
      modifies this`sample_count, this`sample_index, this`candidate, sample_buffer
      ensures Filled() && candidate == old(candidate) + [mass_ug]
    {
      hide Holds;
      Written(sample_buffer[..], candidate, 9, mass_ug);
      assert sample_buffer[..][|candidate| % 9 := mass_ug] == sample_buffer[..][sample_index := mass_ug];
      Advance(|candidate|, 9);
      sample_buffer[sample_index] := mass_ug;
      candidate := candidate + [mass_ug];
      sample_index := (sample_index + 1) % 9;
      if sample_count < 9 { sample_count := sample_count + 1; }
    }

    // The median of the last nine samples, wherever the ring stands.
    method MedianAnchor() returns (anchor: i64)
      requires sample_buffer.Length == 9 && Filled() && |candidate| >= 9
      ensures IsMedian(anchor, Recent(candidate, 9))
    {
      anchor := MiddleOfSorted(sample_buffer[..]);
      FullRing(sample_buffer[..], candidate, 9);
      MedianPermuted(anchor, sample_buffer[..], Recent(candidate, 9));
    }

    method ForceTracking(current_mass_ug: i64, now_ms: u32, reason: ReleaseReason)
      requires Valid()
      modifies this, sample_buffer
      ensures Valid() && initialized == old(initialized)
      ensures View() == if initialized then Released(old(View()), current_mass_ug, reason) else old(View())
    {
      if !initialized { return; }
      snapshot := snapshot.(state := Tracking, display_mass_ug := current_mass_ug, anchor_mass_ug := 0, locked := false,
      operator_zero_anchor := false, last_release_reason := reason);
      last_update_ms := now_ms;
      ClearCandidate();
    }

    method RequestOperatorZeroAnchor(now_ms: u32) returns (ok: bool)
      requires Valid()
      modifies this, sample_buffer
      ensures Valid() && ok == initialized == old(initialized)
      ensures View() == if ok then Anchored(old(View()), now_ms) else old(View())
    {
      if !initialized { return false; }
      ClearCandidate();
      snapshot := snapshot.(state := Locked, display_mass_ug := 0, anchor_mass_ug := 0, locked := true,
      operator_zero_anchor := true, last_release_reason := ReleaseNone);
      operator_anchor_start_ms, last_update_ms := now_ms, now_ms;
      return true;
    }

    method Update(input: DisplayConditionInput) returns (ok: bool)
      requires Valid()
      modifies this, sample_buffer
      ensures Valid() && ok == initialized == old(initialized)
      ensures if ok then UpdateMoves(old(View()), input, View()) else View() == old(View())
    {
      hide Holds, ComputeReleaseThreshold, IsMedian, Recent, CandidateMoves, LockedNext, Tracked;
      if !initialized { return false; }
      last_update_ms := input.now_ms;
      snapshot :=
        snapshot.(release_threshold_ug := ComputeReleaseThreshold(input.display_division_ug, input.capacity_ug));
      if input.force_reset {
        ForceTracking(input.authoritative_mass_ug, input.now_ms, ReleaseForced);
        return true;
      }
      if input.overload || input.calibrating || !input.allow_lock {
        ForceTracking(input.authoritative_mass_ug, input.now_ms,
                      if input.overload then ReleaseOverload
                      else if input.calibrating then ReleaseCalibration else ReleaseNotAllowed);
        return true;
      }
      if snapshot.state == Tracking {
        UpdateTracking(input);
        return true;
      }
      if snapshot.state == Candidate {
        UpdateCandidate(input);
        return true;
      }
      UpdateLocked(input);
      return true;
    }

    method UpdateTracking(input: DisplayConditionInput)
      requires Valid() && initialized && snapshot.state == Tracking
      modifies this, sample_buffer
      ensures Valid() && initialized && View() == Tracked(old(View()), input)
    {
      hide Holds, IsMedian, Recent;
      snapshot := snapshot.(display_mass_ug := input.authoritative_mass_ug);
      if input.stable {
        ClearCandidate();
        candidate_start_ms := input.now_ms;
        snapshot := snapshot.(state := Candidate);
        AddSample(input.authoritative_mass_ug);
      }
    }

    method UpdateCandidate(input: DisplayConditionInput)
      requires Valid() && initialized && snapshot.state == Candidate
      modifies this, sample_buffer
      ensures Valid() && initialized && CandidateMoves(old(View()), input, View())
    {
      hide Holds, IsMedian, Elapsed, Recent, ComputeReleaseThreshold;
      snapshot := snapshot.(display_mass_ug := input.authoritative_mass_ug);
      if !input.stable {
        ForceTracking(input.authoritative_mass_ug, input.now_ms, ReleaseUnstable);
        return;
      }
      AddSample(input.authoritative_mass_ug);
      snapshot := snapshot.(candidate_elapsed_ms := Elapsed(input.now_ms, candidate_start_ms));
      if snapshot.candidate_elapsed_ms >= HoldTime(input) && sample_count >= DISPLAY_CONDITIONER_WINDOW_SIZE {
        LockOnMedian();
      }
    }

    method LockOnMedian()
      requires sample_buffer.Length == 9 && Filled() && |candidate| >= 9
      modifies this`snapshot, this`locked_on, this`release_sample_count
      ensures Filled() && IsMedian(snapshot.anchor_mass_ug, Recent(candidate, 9)) && release_sample_count == 0
      ensures locked_on == Recent(candidate, 9)
      ensures snapshot
           == old(snapshot).(anchor_mass_ug := snapshot.anchor_mass_ug, display_mass_ug := snapshot.anchor_mass_ug,
                                         state := Locked, locked := true)
    {
      hide Holds, IsMedian;
      var anchor := MedianAnchor();
      snapshot := snapshot.(anchor_mass_ug := anchor, display_mass_ug := anchor, state := Locked, locked := true);
      locked_on := Recent(candidate, 9);
      release_sample_count := 0;
    }

    method UpdateLocked(input: DisplayConditionInput)
      requires Valid() && initialized && snapshot.state == Locked && snapshot.release_threshold_ug == Threshold(input)
      modifies this, sample_buffer
      ensures Valid() && initialized && View() == LockedNext(old(View()), input)
    {
      hide Holds, IsMedian, Recent, ComputeReleaseThreshold, Elapsed;
      ghost var before := View();
      snapshot := snapshot.(display_mass_ug := snapshot.anchor_mass_ug);
      if !input.stable
         && (!snapshot.operator_zero_anchor
             || Elapsed(input.now_ms, operator_anchor_start_ms) >= DISPLAY_CONDITIONER_OPERATOR_UNSTABLE_TIMEOUT_MS) {
        ForceTracking(input.authoritative_mass_ug, input.now_ms, ReleaseUnstable);
        return;
      }
      var anchor := if snapshot.operator_zero_anchor then 0 else snapshot.anchor_mass_ug;
      if MassDistance(input.authoritative_mass_ug, anchor) > snapshot.release_threshold_ug {
        if release_sample_count + 1 >= DISPLAY_CONDITIONER_RELEASE_SAMPLES {
          ForceTracking(input.authoritative_mass_ug, input.now_ms, ReleaseDeviation);
        } else {
          release_sample_count := release_sample_count + 1;
        }
      } else {
        release_sample_count := 0;
      }
    }

    // Any run of actions moves the view as stated, step by step.
    method Run(actions: seq<Action>) returns (ghost views: seq<DisplayView>)
      requires Valid() && initialized
      modifies this, sample_buffer
      ensures Valid() && initialized && Moved(views, actions)
      ensures views[0] == old(View()) && views[|actions|] == View() && Shown(views[0])
    {
      hide ActionMoves, Shown, Filled;
      views := [View()];
      for k := 0 to |actions|
        invariant Valid() && initialized && |views| == k + 1 && views[0] == old(View()) && views[k] == View()
        invariant forall j :: 0 <= j < k ==> ActionMoves(views[j], actions[j], views[j + 1])
      {
        Act(actions[k]);
        views := views + [View()];
      }
    }

    method Act(action: Action)
      requires Valid() && initialized
      modifies this, sample_buffer
      ensures Valid() && initialized && ActionMoves(old(View()), action, View())
    {
      hide Valid, UpdateMoves, Released, Anchored;
      match action {
        case Updated(input) => var _ := Update(input);
        case TrackingForced(mass_ug, reason) => ForceTracking(mass_ug, 0, reason);
        case ZeroAnchored(now_ms) => var _ := RequestOperatorZeroAnchor(now_ms);
      }
    }
  }
}
