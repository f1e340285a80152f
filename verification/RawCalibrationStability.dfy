// Domain/calibration/raw_calibration_stability.c: when raw counts are steady
// enough to calibrate on, and their rounded mean.
module RawCalibrationStability {
  import opened FixedWidth
  import opened MassMath
  import opened RingBuffer
  import opened Averages
  import WeightMath

  // No two values of the window are further apart than the limit.
  ghost predicate Steady(window: seq<i32>, limit: int) {
    forall i, j :: 0 <= i < |window| && 0 <= j < |window| ==> window[i] - window[j] <= limit
  }

  // A ring and the window it holds are steady alike.
  lemma SteadyRing(cells: seq<i32>, history: seq<i32>, size: nat, limit: int)
    requires Holds(cells, history, size)
    ensures |Recent(history, size)| <= |cells|
    ensures Steady(cells[..|Recent(history, size)|], limit) <==> Steady(Recent(history, size), limit)
  {
    var recent := Recent(history, size);
    var used := cells[..|recent|];
    HoldsRecent(cells, history, size);
    RecentHeld(cells, history, size);
    SteadyWithin(used, recent, limit);
    SteadyWithin(recent, used, limit);
  }

  lemma SteadyWithin(a: seq<i32>, b: seq<i32>, limit: int)
    requires forall k :: 0 <= k < |a| ==> a[k] in b
    ensures Steady(b, limit) ==> Steady(a, limit)
  {
    if Steady(b, limit) {
      forall i, j | 0 <= i < |a| && 0 <= j < |a| ensures a[i] - a[j] <= limit {
        var x :| 0 <= x < |b| && b[x] == a[i];
        var y :| 0 <= y < |b| && b[y] == a[j];
      }
    }
  }

  // The mean that a calibration point is.
  function Mean(window: seq<i32>): int
    requires window != []
  {
    RoundHalfAway(Sum(window), |window|)
  }

  // What was fed since the last reset, with true times.
  datatype Past = Past(samples: seq<i32>, times: seq<nat>)

  // All windows of `size` that end with the samples from k on are steady.
  ghost predicate SteadyFrom(p: Past, k: nat, size: nat, limit: int) {
    && size <= k + 1 && k < |p.samples|
    && forall n :: k < n <= |p.samples| ==> Steady(Recent(p.samples[..n], size), limit)
  }

  // A candidate has been steady since it began, a stable one for the hold time.
  ghost predicate Shown(p: Past, candidate: bool, stable: bool, start_ms: u32, began: nat, size: nat, limit: int,
                        hold: nat) {
    && |p.times| == |p.samples| && (stable ==> candidate)
    && (candidate ==> SteadyFrom(p, began, size, limit) && start_ms == p.times[began] % 0x1_0000_0000)
    && (stable ==> p.times[|p.times| - 1] - p.times[began] >= hold)
  }

  // A full hold time of steady windows ends with the last sample.
  ghost predicate SteadyFor(p: Past, size: nat, limit: int, hold: nat) {
    && |p.times| == |p.samples|
    && exists k: nat :: SteadyFrom(p, k, size, limit) && p.times[|p.times| - 1] - p.times[k] >= hold
  }

  // Time does not run back, and no pause comes near a turn of the clock.
  ghost predicate Regular(p: Past, hold: nat) {
    forall k :: 0 < k < |p.times| ==> p.times[k - 1] <= p.times[k] && p.times[k] + hold < p.times[k - 1] + 0x1_0000_0000
  }

  // The last window is not full or not steady.
  ghost predicate Broken(p: Past, size: nat, limit: int) {
    |p.samples| < size || !Steady(Recent(p.samples, size), limit)
  }

  // The first full window, or the first after one that is not steady.
  ghost predicate Earliest(p: Past, k: nat, size: nat, limit: int) {
    k < |p.samples| && (k + 1 == size || !Steady(Recent(p.samples[..k], size), limit))
  }

  // Nothing steady is missed.
  ghost predicate Prompt(p: Past, candidate: bool, stable: bool, began: nat, size: nat, limit: int, hold: nat) {
    && |p.times| == |p.samples|
    && if candidate
       then Earliest(p, began, size, limit)
            && (!stable && Regular(p, hold) ==> p.times[|p.times| - 1] - p.times[began] < hold)
       else Broken(p, size, limit)
  }

  // So a detector is stable exactly when the history has such a stretch behind it.
  lemma PromptIsExact(p: Past, candidate: bool, stable: bool, start_ms: u32, began: nat, size: nat, limit: int,
                      hold: nat)
    requires Shown(p, candidate, stable, start_ms, began, size, limit, hold)
    requires Prompt(p, candidate, stable, began, size, limit, hold)
    ensures stable ==> SteadyFor(p, size, limit, hold)
    ensures Regular(p, hold) && SteadyFor(p, size, limit, hold) ==> stable
  {
    hide Steady, Recent;
    if Regular(p, hold) && SteadyFor(p, size, limit, hold) {
      var k: nat :| SteadyFrom(p, k, size, limit) && p.times[|p.times| - 1] - p.times[k] >= hold;
      assert p.samples[..|p.samples|] == p.samples;
      if k < began { assert false; }
      NotEarlier(p, began, k, hold);
    }
  }

  lemma {:induction false} NotEarlier(p: Past, j: nat, k: nat, hold: nat)
    requires Regular(p, hold) && j <= k < |p.times|
    ensures p.times[j] <= p.times[k]
  {
    if j < k { NotEarlier(p, j, k - 1, hold); }
  }

  class RawCalibrationStability {
    const samples: array<i32>
    var window_size: u8
    var count: u8
    var head: u8
    var minimum: i32
    var maximum: i32
    var spread: u32
    var enter_threshold_counts: u32
    var stable_hold_ms: u32
    var candidate_start_ms: u32
    var candidate: bool
    var stable: bool
    ghost var past: Past
    // The sample that began the candidate.
    ghost var began: nat

    ghost predicate Valid()
      reads this, samples
    {
      && samples.Length == 32
      && (window_size >= 2 ==> window_size <= 32 && stable_hold_ms > 0 && Filled() && Justified(past))
    }

    ghost predicate Filled()
      reads this`window_size, this`count, this`head, this`past, samples
    {
      && window_size > 0 && |past.times| == |past.samples|
      && head == |past.samples| % window_size && count == |Recent(past.samples, window_size)|
      && Holds(samples[..], past.samples, window_size)
    }

    ghost predicate Justified(p: Past)
      reads this`window_size, this`enter_threshold_counts, this`stable_hold_ms, this`candidate_start_ms, this`candidate
      reads this`stable, this`began
    {
      && Shown(p, candidate, stable, candidate_start_ms, began, window_size, enter_threshold_counts, stable_hold_ms)
      && Prompt(p, candidate, stable, began, window_size, enter_threshold_counts, stable_hold_ms)
    }

    // The detector is stable exactly when its history has been steady for the hold time.
    lemma StableExactly()
      requires Valid() && window_size >= 2
      ensures stable ==> SteadyFor(past, window_size, enter_threshold_counts, stable_hold_ms)
      ensures Regular(past, stable_hold_ms) && SteadyFor(past, window_size, enter_threshold_counts, stable_hold_ms) ==>
                stable
    {
      hide Shown, Prompt, SteadyFor, Regular;
      PromptIsExact(past, candidate, stable, candidate_start_ms, began, window_size, enter_threshold_counts,
                    stable_hold_ms);
    }

    constructor ()
      ensures Valid() && window_size == 0 == count && !stable && !candidate && past == Past([], []) && fresh(samples)
    {
      window_size, count, head, minimum, maximum, spread, enter_threshold_counts := 0, 0, 0, 0, 0, 0, 0;
      stable_hold_ms, candidate_start_ms, candidate, stable := 0, 0, false, false;
      past, began := Past([], []), 0;
      samples := new i32[32];
    }

    method Init(window_size: u8, enter_threshold_counts: u32, stable_hold_ms: u32) returns (ok: bool)
      requires Valid()
      modifies this, samples
      ensures Valid() && ok == (2 <= window_size <= 32 && stable_hold_ms != 0)
      ensures ok ==>
                && this.window_size == window_size && this.enter_threshold_counts == enter_threshold_counts
                && this.stable_hold_ms == stable_hold_ms && past == Past([], []) && !stable && !candidate && spread == 0
      ensures !ok ==> unchanged(this) && unchanged(samples)
    {
      if window_size < 2 || window_size > 32 || stable_hold_ms == 0 { return false; }
      ClearSamples();
      EmptyRing(samples[..], window_size as nat);
      hide Holds, Recent;
      count, head, minimum, maximum, spread, candidate_start_ms, candidate, stable := 0, 0, 0, 0, 0, 0, false, false;
      this.window_size, this.enter_threshold_counts, this.stable_hold_ms :=
        window_size, enter_threshold_counts, stable_hold_ms;
      past, began := Past([], []), 0;
      return true;
    }

    method ClearSamples()
      requires samples.Length == 32
      modifies samples
    {
      forall i | 0 <= i < 32 { samples[i] := 0; }
    }

    method Reset()
      requires Valid()
      modifies this, samples
      ensures Valid() && window_size == old(window_size)
      ensures enter_threshold_counts == old(enter_threshold_counts) && stable_hold_ms == old(stable_hold_ms)
      ensures window_size >= 2 ==> past == Past([], []) && !stable && !candidate && spread == 0
      ensures window_size < 2 ==> unchanged(this) && unchanged(samples)
    {
      if window_size < 2 { return; }
      var _ := Init(window_size, enter_threshold_counts, stable_hold_ms);
    }

    method StoreSample(filtered_raw: i32, ghost tick: nat)
      requires samples.Length == 32 && 2 <= window_size <= 32 && Filled()
      modifies this`head, this`count, this`past, samples
      ensures Filled() && past == Past(old(past).samples + [filtered_raw], old(past).times + [tick])
    {
      hide Holds, Recent;
      ghost var size := window_size as nat;
      ghost var cells := samples[..];
      Written(cells, past.samples, size, filtered_raw);
      Advance(|past.samples|, size);
      samples[head] := filtered_raw;
      assert samples[..] == cells[head := filtered_raw];
      past := Past(past.samples + [filtered_raw], past.times + [tick]);
      head := (head + 1) % window_size;
      if count < window_size { count := count + 1; }
    }

    // The spread of the cells in use.
    method UpdateSpread()
      requires 0 < count <= samples.Length
      modifies this`minimum, this`maximum, this`spread
      ensures forall limit :: spread <= limit <==> Steady(samples[..count], limit)
    {
      minimum, maximum := samples[0], samples[0];
      ghost var low, high := 0, 0;
      for index := 1 to count
        invariant 0 <= low < index && 0 <= high < index && minimum == samples[low] && maximum == samples[high]
        invariant forall k :: 0 <= k < index ==> minimum <= samples[k] <= maximum
      {
        if samples[index] < minimum { minimum, low := samples[index], index; }
        if samples[index] > maximum { maximum, high := samples[index], index; }
      }
      spread := maximum - minimum;
      forall limit ensures spread <= limit <==> Steady(samples[..count], limit) {
        if Steady(samples[..count], limit) {
          assert samples[..count][high] - samples[..count][low] <= limit;
        }
      }
    }

    method Process(filtered_raw: i32, timestamp_ms: u32, ghost tick: nat) returns (result: bool)
      requires Valid() && timestamp_ms == tick % 0x1_0000_0000
      requires forall k :: 0 <= k < |past.times| ==> past.times[k] <= tick
      modifies this, samples
      ensures Valid() && window_size == old(window_size)
      ensures enter_threshold_counts == old(enter_threshold_counts) && stable_hold_ms == old(stable_hold_ms)
      ensures window_size < 2 ==> !result
      ensures window_size >= 2 ==>
                result == stable && past == Past(old(past).samples + [filtered_raw], old(past).times + [tick])
      ensures result ==> SteadyFor(past, window_size, enter_threshold_counts, stable_hold_ms)
      ensures (window_size >= 2 && Regular(past, stable_hold_ms)
               && SteadyFor(past, window_size, enter_threshold_counts, stable_hold_ms)) ==> result
    {
      hide Holds, Recent, Elapsed, Steady, Shown, Prompt, SteadyFor, Regular;
      if window_size < 2 { return false; }
      ghost var before := past;
      StoreSample(filtered_raw, tick);
      UpdateSpread();
      assert samples[..count] == samples[..][..count];
      SteadyRing(samples[..], past.samples, window_size, enter_threshold_counts);
      assert spread <= enter_threshold_counts <==> Steady(samples[..count], enter_threshold_counts);
      Judge(timestamp_ms, before, tick);
      StableExactly();
      return stable;
    }

    // The part of Process after the spread is known.
    method Judge(timestamp_ms: u32, ghost before: Past, ghost tick: nat)
      requires window_size >= 2 && |past.times| == |past.samples| == |before.samples| + 1
      requires before.samples <= past.samples && before.times <= past.times
      requires timestamp_ms == tick % 0x1_0000_0000 && past.times[|past.times| - 1] == tick
      requires forall k :: 0 <= k < |past.times| ==> past.times[k] <= tick
      requires count == |Recent(past.samples, window_size)|
      requires spread <= enter_threshold_counts <==> Steady(Recent(past.samples, window_size), enter_threshold_counts)
      requires Justified(before)
      modifies this`candidate, this`stable, this`candidate_start_ms, this`began
      ensures Justified(past)
    {
      hide Holds, Elapsed, Steady, Regular, Recent;
      if count < window_size || spread > enter_threshold_counts {
        candidate, stable := false, false;
        return;
      }
      if !candidate {
        candidate, candidate_start_ms := true, timestamp_ms;
        began := |past.samples| - 1;
        SteadyBegins(past, window_size, enter_threshold_counts);
        BeganEarliest(before, past, window_size, enter_threshold_counts);
      } else {
        SteadyGoesOn(before, past, began, window_size, enter_threshold_counts);
        assert past.samples[..began] == before.samples[..began];
        StillWaiting(before, past, stable, began, stable_hold_ms);
      }
      ElapsedAtMost(tick, past.times[began]);
      if Elapsed(timestamp_ms, candidate_start_ms) >= stable_hold_ms { stable := true; }
    }

    // The rounded mean of the window, wherever the ring stands.
    method GetAverage() returns (average: Option<i32>)
      requires Valid() && window_size >= 2
      ensures average.Some? <==> stable
      ensures average.Some? ==>
                && |past.samples| >= window_size
                && average.value == Mean(Recent(past.samples, window_size))
                && Steady(Recent(past.samples, window_size), enter_threshold_counts)
    {
      hide Holds, Sum, RoundHalfAway, Steady;
      StableWindow();
      if !stable || count != window_size { return None; }
      var sum: int := 0;
      SumNothing();
      assert samples[..0] == [];
      for index := 0 to count
        invariant sum == Sum(samples[..index])
      {
        SumAppend(samples[..index], [samples[index]]);
        SumOne(samples[index]);
        assert samples[..index + 1] == samples[..index] + [samples[index]];
        sum := sum + samples[index];
      }
      RingSum(samples[..], past.samples, window_size);
      SumFits(samples[..count]);
      WeightMath.DivideRoundNearestIs(sum, count);
      AverageBetween(Recent(past.samples, window_size), INT32_MIN, INT32_MAX);
      var rounded := WeightMath.DivideRoundNearest(sum, count);
      average := WeightMath.ClampInt64ToInt32(rounded.value);
    }

    lemma StableWindow()
      requires Valid() && window_size >= 2
      ensures stable ==>
                |past.samples| >= window_size && Steady(Recent(past.samples, window_size), enter_threshold_counts)
    {
      assert past.samples[..|past.samples|] == past.samples;
    }
  }

  lemma SumNothing()
    ensures Sum([]) == 0
  {}

  lemma SumOne(v: i32)
    ensures Sum([v]) == v
  {
    assert [v][..0] == [];
  }

  // The ring's sum does not depend on where it is turned to.
  lemma RingSum(cells: seq<i32>, history: seq<i32>, size: nat)
    requires Holds(cells, history, size) && size <= |history|
    ensures Sum(cells[..size]) == Sum(Recent(history, size))
  {
    hide Sum;
    var used, head := cells[..size], |history| % size;
    assert Holds(used, history, size);
    FullRing(used, history, size);
    assert used == used[..head] + used[head..];
    SumAppend(used[..head], used[head..]);
    SumAppend(used[head..], used[..head]);
  }

  lemma SteadyBegins(p: Past, size: nat, limit: int)
    requires p.samples != [] && size <= |p.samples| && Steady(Recent(p.samples, size), limit)
    ensures SteadyFrom(p, |p.samples| - 1, size, limit)
  {
    assert p.samples[..|p.samples|] == p.samples;
  }

  lemma BeganEarliest(p: Past, q: Past, size: nat, limit: int)
    requires |q.samples| == |p.samples| + 1 && p.samples <= q.samples && size <= |q.samples| && Broken(p, size, limit)
    ensures Earliest(q, |p.samples|, size, limit)
  {
    assert q.samples[..|p.samples|] == p.samples;
  }

  // With regular times the clock shows all of the time since a candidate began.
  lemma StillWaiting(p: Past, q: Past, stable: bool, began: nat, hold: nat)
    requires began < |p.times| && |q.times| == |p.times| + 1 && p.times <= q.times
    requires !stable && Regular(p, hold) ==> p.times[|p.times| - 1] < p.times[began] + hold
    ensures !stable && Regular(q, hold) ==>
              && q.times[|q.times| - 1] < q.times[began] + 0x1_0000_0000
              && q.times[began] <= q.times[|q.times| - 1]
  {
    if Regular(q, hold) {
      assert forall k :: 0 <= k < |p.times| ==> p.times[k] == q.times[k];
      NotEarlier(q, began, |q.times| - 1, hold);
    }
  }

  lemma SteadyGoesOn(p: Past, q: Past, k: nat, size: nat, limit: int)
    requires SteadyFrom(p, k, size, limit) && |q.samples| == |p.samples| + 1 && p.samples <= q.samples
    requires Steady(Recent(q.samples, size), limit)
    ensures SteadyFrom(q, k, size, limit)
  {
    hide Steady, Recent;
    assert q.samples[..|q.samples|] == q.samples;
    forall n | k < n <= |q.samples| ensures Steady(Recent(q.samples[..n], size), limit) {
      if n <= |p.samples| { assert q.samples[..n] == p.samples[..n]; }
    }
  }
}
