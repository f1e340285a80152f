// Domain/stability/stability_detector.c: when a weight counts as stable.
module StabilityDetector {
  import opened FixedWidth
  import opened MassMath
  import opened RingBuffer

  datatype StabilityState = Unavailable | Unstable | Candidate | Stable

  const STABILITY_MAX_WINDOW: nat := 32

  // ---- the spread of a window -----------------------------------------------------------------

  function Lowest(s: seq<i64>): (low: i64)
    requires s != []
    ensures low in s && forall k :: 0 <= k < |s| ==> low <= s[k]
  {
    if |s| == 1 then s[0]
    else
      var rest := Lowest(s[..|s| - 1]);
      if s[|s| - 1] < rest then s[|s| - 1] else rest
  }

  function Highest(s: seq<i64>): (high: i64)
    requires s != []
    ensures high in s && forall k :: 0 <= k < |s| ==> s[k] <= high
  {
    if |s| == 1 then s[0]
    else
      var rest := Highest(s[..|s| - 1]);
      if s[|s| - 1] > rest then s[|s| - 1] else rest
  }

  function Spread(s: seq<i64>): nat
    requires s != []
  {
    assert Lowest(s) in s;
    Highest(s) - Lowest(s)
  }

  // Order does not matter to the extremes.
  lemma SameExtremes(s: seq<i64>, t: seq<i64>)
    requires s != [] && t != []
    requires forall k :: 0 <= k < |s| ==> s[k] in t
    requires forall k :: 0 <= k < |t| ==> t[k] in s
    ensures Lowest(s) == Lowest(t) && Highest(s) == Highest(t)
  {
    var a :| 0 <= a < |s| && s[a] == Lowest(s);
    var b :| 0 <= b < |t| && t[b] == Lowest(t);
    var c :| 0 <= c < |s| && s[c] == Highest(s);
    var d :| 0 <= d < |t| && t[d] == Highest(t);
    assert s[a] in t && t[b] in s && s[c] in t && t[d] in s;
  }

  // A ring in any rotation has the extremes of the last values written.
  lemma RingExtremes(cells: seq<i64>, samples: seq<i64>, size: nat)
    requires Holds(cells, samples, size) && samples != []
    ensures var n := |Recent(samples, size)|;
            && 0 < n <= |cells|
            && Lowest(cells[..n]) == Lowest(Recent(samples, size))
            && Highest(cells[..n]) == Highest(Recent(samples, size))
  {
    HoldsRecent(cells, samples, size);
    RecentHeld(cells, samples, size);
    SameExtremes(cells[..|Recent(samples, size)|], Recent(samples, size));
  }

  // ---- histories --------------------------------------------------------------------------------

  // The settings, and what was fed since they were set.  Times are true times.
  datatype Settings = Settings(window: nat, enter: i64, exit: i64, hold: u32)
  datatype Past = Past(samples: seq<i64>, times: seq<nat>)

  predicate Accepted(c: Settings) {
    2 <= c.window <= STABILITY_MAX_WINDOW && 0 <= c.enter <= c.exit && 10 <= c.hold <= 10000
  }

  ghost predicate Ordered(p: Past) {
    |p.times| == |p.samples| && forall j, k :: 0 <= j < k < |p.times| ==> p.times[j] <= p.times[k]
  }

  // The spread of the window that ends with sample k.
  function SpreadAt(c: Settings, p: Past, k: nat): nat
    requires Accepted(c) && k < |p.samples|
  {
    Spread(Recent(p.samples[..k + 1], c.window))
  }

  // The full windows that end with the samples from `from` up to before `to`
  // all lie within a threshold.
  ghost predicate Within(c: Settings, p: Past, from: nat, to: nat, limit: int)
    requires Accepted(c)
  {
    to <= |p.samples| && c.window <= from + 1 && forall k :: from <= k < to ==> SpreadAt(c, p, k) <= limit
  }

  // Samples since the candidate or stable state was entered.
  datatype Marks = Marks(candidate: nat, stable: nat)

  // What the state says of the history.
  ghost predicate Justified(c: Settings, p: Past, state: StabilityState, start_ms: u32, m: Marks)
    requires Accepted(c) && |p.times| == |p.samples|
  {
    var n := |p.samples|;
    match state
    case Unavailable => n < c.window || SpreadAt(c, p, n - 1) > INT64_MAX
    case Unstable => n >= c.window && SpreadAt(c, p, n - 1) > c.enter
    case Candidate =>
      && m.candidate < n && Within(c, p, m.candidate, n, c.enter)
      && start_ms == p.times[m.candidate] % 0x1_0000_0000
      && Elapsed(p.times[n - 1] % 0x1_0000_0000, start_ms) < c.hold
    case Stable => Steady(c, p, m.candidate, m.stable, n)
  }

  // Windows within the enter threshold for the hold time, and then within the
  // exit threshold up to before sample n.
  ghost predicate Steady(c: Settings, p: Past, from: nat, entry: nat, n: nat)
    requires Accepted(c) && |p.times| == |p.samples|
  {
    && from <= entry < n && Within(c, p, from, entry + 1, c.enter)
    && p.times[entry] - p.times[from] >= c.hold && Within(c, p, entry + 1, n, c.exit - 1)
  }

  // The thresholds differ and no pause comes near a turn of the clock.
  ghost predicate Regular(c: Settings, p: Past) {
    && c.enter < c.exit && |p.times| == |p.samples|
    && forall k :: 0 < k < |p.times| ==> p.times[k] - p.times[k - 1] < 0x1_0000_0000 - c.hold
  }

  // Nothing steady is missed.
  ghost predicate Prompt(c: Settings, p: Past, state: StabilityState, m: Marks)
    requires Accepted(c) && |p.times| == |p.samples|
  {
    Regular(c, p) ==>
      && (state == Candidate ==> Waiting(c, p, m.candidate))
      && forall from, entry :: Steady(c, p, from, entry, |p.times|) ==> state == Stable
  }

  ghost predicate Waiting(c: Settings, p: Past, k: nat)
    requires Accepted(c) && |p.times| == |p.samples|
  {
    Earliest(c, p, k) && p.times[|p.times| - 1] - p.times[k] < c.hold
  }

  // The first full window, or the first after one beyond the enter threshold.
  ghost predicate Earliest(c: Settings, p: Past, k: nat)
    requires Accepted(c)
  {
    0 < k < |p.samples| && (k == c.window - 1 || SpreadAt(c, p, k - 1) > c.enter)
  }

  // More history does not change the windows already seen.
  lemma SameWindows(c: Settings, p: Past, q: Past, k: nat)
    requires Accepted(c) && k < |p.samples| && p.samples <= q.samples
    ensures SpreadAt(c, p, k) == SpreadAt(c, q, k)
  {
    assert p.samples[..k + 1] == q.samples[..k + 1];
  }

  lemma WithinGrows(c: Settings, p: Past, q: Past, from: nat, to: nat, limit: int)
    requires Accepted(c) && p.samples <= q.samples && Within(c, p, from, to, limit)
    ensures Within(c, q, from, to, limit)
  {
    hide SpreadAt;
    forall k | from <= k < to ensures SpreadAt(c, q, k) <= limit { SameWindows(c, p, q, k); }
  }

  // ---- one more sample ----------------------------------------------------------------------------

  function Extended(p: Past, value: i64, tick: nat): Past { Past(p.samples + [value], p.times + [tick]) }

  lemma SpreadShown(c: Settings, p: Past, state: StabilityState, start_ms: u32, m: Marks)
    requires Accepted(c) && Ordered(p) && p.samples != []
    requires state == Unavailable || state == Unstable
    requires state == Unavailable ==> |p.samples| < c.window || SpreadAt(c, p, |p.samples| - 1) > INT64_MAX
    requires state == Unstable ==> |p.samples| >= c.window && SpreadAt(c, p, |p.samples| - 1) > c.enter
    ensures Justified(c, p, state, start_ms, m)
  {}

  lemma CandidateStarts(c: Settings, p: Past, tick: nat)
    requires Accepted(c) && Ordered(p) && |p.samples| >= c.window
    requires SpreadAt(c, p, |p.samples| - 1) <= c.enter && p.times[|p.samples| - 1] == tick
    ensures Justified(c, p, Candidate, tick % 0x1_0000_0000, Marks(|p.samples| - 1, 0))
  {
    hide SpreadAt, Elapsed;
    ElapsedAtMost(tick, tick);
  }

  lemma CandidateContinues(c: Settings, p: Past, start_ms: u32, m: Marks, value: i64, tick: nat)
    requires Accepted(c) && Ordered(p) && Justified(c, p, Candidate, start_ms, m)
    requires SpreadAt(c, Extended(p, value, tick), |p.samples|) <= c.enter
    requires forall k :: 0 <= k < |p.times| ==> p.times[k] <= tick
    ensures var q := Extended(p, value, tick);
            if Elapsed(tick % 0x1_0000_0000, start_ms) >= c.hold
            then Justified(c, q, Stable, start_ms, Marks(m.candidate, |p.samples|))
            else Justified(c, q, Candidate, start_ms, m)
  {
    hide SpreadAt, Elapsed;
    var q := Extended(p, value, tick);
    ElapsedAtMost(tick, p.times[m.candidate]);
    WithinGrows(c, p, q, m.candidate, |p.samples|, c.enter);
  }

  lemma StableContinues(c: Settings, p: Past, start_ms: u32, m: Marks, value: i64, tick: nat)
    requires Accepted(c) && Ordered(p) && Justified(c, p, Stable, start_ms, m)
    requires SpreadAt(c, Extended(p, value, tick), |p.samples|) < c.exit
    ensures Justified(c, Extended(p, value, tick), Stable, start_ms, m)
  {
    hide SpreadAt;
    var q := Extended(p, value, tick);
    WithinGrows(c, p, q, m.candidate, m.stable + 1, c.enter);
    WithinGrows(c, p, q, m.stable + 1, |p.samples|, c.exit - 1);
  }

  lemma RegularBefore(c: Settings, p: Past, value: i64, tick: nat)
    requires |p.times| == |p.samples| && Regular(c, Extended(p, value, tick))
    ensures Regular(c, p) && (p.times != [] ==> tick - p.times[|p.times| - 1] < 0x1_0000_0000 - c.hold)
  {
    var q := Extended(p, value, tick);
    if p.times != [] {
      assert q.times[|p.times|] == tick && q.times[|p.times| - 1] == p.times[|p.times| - 1];
    }
    forall k | 0 < k < |p.times| ensures p.times[k] - p.times[k - 1] < 0x1_0000_0000 - c.hold {
      assert q.times[k] == p.times[k] && q.times[k - 1] == p.times[k - 1];
    }
  }

  // Steady history either was steady before the last sample, or is so with it.
  lemma SteadyBefore(c: Settings, p: Past, value: i64, tick: nat, from: nat, entry: nat)
    requires Accepted(c) && Ordered(p)
    requires Steady(c, Extended(p, value, tick), from, entry, |p.samples| + 1)
    ensures var n, q := |p.samples|, Extended(p, value, tick);
            c.window <= from + 1 &&
            if entry < n then Steady(c, p, from, entry, n) && SpreadAt(c, q, n) < c.exit
            else SpreadAt(c, q, n) <= c.enter && from < n && Within(c, p, from, n, c.enter)
  {
    hide SpreadAt;
    var n, q := |p.samples|, Extended(p, value, tick);
    forall k | from <= k < n ensures SpreadAt(c, p, k) == SpreadAt(c, q, k) { SameWindows(c, p, q, k); }
    assert entry < n ==> SpreadAt(c, q, n) <= c.exit - 1;
  }

  // The last sample leaves no full window, or one beyond what its state allows.
  ghost predicate BreaksOff(c: Settings, q: Past, s: StabilityState)
    requires Accepted(c)
  {
    |q.samples| < c.window || LastSpread(c, q) > (if s == Stable && c.exit > c.enter then c.exit - 1 else c.enter)
  }

  ghost function LastSpread(c: Settings, q: Past): nat
    requires Accepted(c) && q.samples != []
  {
    SpreadAt(c, q, |q.samples| - 1)
  }

  // A sample that leaves the state at unstable or unavailable.
  lemma PromptlyUnsteady(c: Settings, p: Past, s: StabilityState, m: Marks, value: i64, tick: nat, next: StabilityState)
    requires Accepted(c) && Ordered(p) && Prompt(c, p, s, m)
    requires next == Unstable || next == Unavailable
    requires BreaksOff(c, Extended(p, value, tick), s)
    ensures Prompt(c, Extended(p, value, tick), next, m)
  {
    hide SpreadAt;
    var q := Extended(p, value, tick);
    if Regular(c, q) {
      RegularBefore(c, p, value, tick);
      forall from: nat, entry: nat | Steady(c, q, from, entry, |q.times|) ensures false {
        SteadyBefore(c, p, value, tick, from, entry);
      }
    }
  }

  lemma PromptWhenStable(c: Settings, p: Past, m: Marks)
    requires Accepted(c) && |p.times| == |p.samples|
    ensures Prompt(c, p, Stable, m)
  {}

  // A sample that begins a candidate.
  lemma PromptlyCandidate(c: Settings, p: Past, s: StabilityState, start_ms: u32, m: Marks, value: i64, tick: nat)
    requires Accepted(c) && Ordered(p) && Justified(c, p, s, start_ms, m) && Prompt(c, p, s, m) && s != Candidate
    requires var q, n := Extended(p, value, tick), |p.samples|;
             n + 1 >= c.window && SpreadAt(c, q, n) <= c.enter && (s != Stable || SpreadAt(c, q, n) >= c.exit)
    ensures Prompt(c, Extended(p, value, tick), Candidate, Marks(|p.samples|, 0))
  {
    hide SpreadAt;
    var q, n := Extended(p, value, tick), |p.samples|;
    if Regular(c, q) {
      RegularBefore(c, p, value, tick);
      if n >= c.window { SameWindows(c, p, q, n - 1); }
      forall from: nat, entry: nat | Steady(c, q, from, entry, |q.times|) ensures false {
        SteadyBefore(c, p, value, tick, from, entry);
      }
    }
  }

  // A sample that keeps a candidate waiting.
  lemma PromptlyWaiting(c: Settings, p: Past, start_ms: u32, m: Marks, value: i64, tick: nat)
    requires Accepted(c) && Ordered(p) && Justified(c, p, Candidate, start_ms, m) && Prompt(c, p, Candidate, m)
    requires Elapsed(tick % 0x1_0000_0000, start_ms) < c.hold
    requires forall k :: 0 <= k < |p.times| ==> p.times[k] <= tick
    ensures Prompt(c, Extended(p, value, tick), Candidate, m)
  {
    hide SpreadAt, Elapsed;
    var q, n := Extended(p, value, tick), |p.samples|;
    if Regular(c, q) {
      RegularBefore(c, p, value, tick);
      ElapsedAtMost(tick, p.times[m.candidate]);
      SameWindows(c, p, q, m.candidate - 1);
      forall from: nat, entry: nat | Steady(c, q, from, entry, |q.times|) ensures false {
        SteadyBefore(c, p, value, tick, from, entry);
      }
    }
  }

  // Nothing fed yet.
  lemma NothingFed(c: Settings, m: Marks)
    requires Accepted(c)
    ensures var p := Past([], []); Ordered(p) && Justified(c, p, Unavailable, 0, m) && Prompt(c, p, Unavailable, m)
  {}

  // ---- the detector -----------------------------------------------------------------------------

  class StabilityDetector {
    var window_size: u8
    var enter_threshold_ug: i64
    var exit_threshold_ug: i64
    var stable_hold_ms: u32
    const samples: array<i64>
    var head: u8
    var count: u8
    var minimum: i64
    var maximum: i64
    var spread: i64
    var state: StabilityState
    var candidate_start_ms: u32
    var initialized: bool
    ghost var past: Past
    ghost var marks: Marks

    function Config(): Settings
      reads this`window_size, this`enter_threshold_ug, this`exit_threshold_ug, this`stable_hold_ms
    {
      Settings(window_size, enter_threshold_ug, exit_threshold_ug, stable_hold_ms)
    }

    ghost predicate Valid()
      reads this, samples
    {
      && samples.Length == 32
      && (initialized ==>
            && Accepted(Config()) && Ordered(past)
            && Filled() && Justified(Config(), past, state, candidate_start_ms, marks)
            && Prompt(Config(), past, state, marks))
    }

    // The ring holds the last samples.
    ghost predicate Filled()
      reads this`window_size, this`head, this`count, this`past, samples
    {
      && window_size > 0 && head == |past.samples| % window_size && count == |Recent(past.samples, window_size)|
      && Holds(samples[..], past.samples, window_size)
    }

    constructor ()
      ensures Valid() && !initialized && fresh(samples)
    {
      window_size, enter_threshold_ug, exit_threshold_ug, stable_hold_ms, head, count := 0, 0, 0, 0, 0, 0;
      minimum, maximum, spread, state, candidate_start_ms, initialized := 0, 0, 0, Unavailable, 0, false;
      past, marks := Past([], []), Marks(0, 0);
      samples := new i64[32];
    }

    method InitMass(window_size: u8, enter_threshold_ug: i64, exit_threshold_ug: i64, stable_hold_ms: u32)
      returns (ok: bool)
      requires Valid()
      modifies this, samples
      ensures Valid() && ok == Accepted(Settings(window_size, enter_threshold_ug, exit_threshold_ug, stable_hold_ms))
      ensures ok <==> 1 < window_size < 33 && enter_threshold_ug >= 0 && exit_threshold_ug >= enter_threshold_ug
                      && 9 < stable_hold_ms < 10001
      ensures ok ==>
                && initialized && state == Unavailable && past == Past([], []) && spread == 0
                && Config() == Settings(window_size, enter_threshold_ug, exit_threshold_ug, stable_hold_ms)
      ensures !ok ==> unchanged(this) && unchanged(samples)
    {
      if window_size < 2 || window_size > 32 || enter_threshold_ug < 0 || enter_threshold_ug > exit_threshold_ug
         || stable_hold_ms < 10 || stable_hold_ms > 10000 {
        return false;
      }
      hide Justified, Prompt, Ordered, Filled;
      this.window_size, this.enter_threshold_ug, this.exit_threshold_ug :=
        window_size, enter_threshold_ug, exit_threshold_ug;
      this.stable_hold_ms, initialized := stable_hold_ms, true;
      ClearHistory();
      NothingFed(Config(), marks);
      return true;
    }

    method ClearHistory()
      requires 0 < window_size <= 32 == samples.Length
      modifies this`head, this`count, this`minimum, this`maximum, this`spread, this`state, this`candidate_start_ms
      modifies this`past, this`marks, samples
      ensures Filled() && past == Past([], []) && state == Unavailable && candidate_start_ms == 0 == spread
    {
      ClearSamples();
      EmptyRing(samples[..], window_size as nat);
      hide Holds, Recent;
      head, count, minimum, maximum, spread, candidate_start_ms, state := 0, 0, 0, 0, 0, 0, Unavailable;
      past, marks := Past([], []), Marks(0, 0);
    }

    // Stable means that the history is steady; with distinct thresholds and no
    // pause near a turn of the clock a steady history means stable.
    lemma StableIsSteady()
      requires Valid() && initialized
      ensures state == Stable ==> exists from, entry :: Steady(Config(), past, from, entry, |past.samples|)
      ensures Regular(Config(), past) && (exists from, entry :: Steady(Config(), past, from, entry, |past.samples|)) ==>
                state == Stable
    {
      hide SpreadAt, Within;
      if state == Stable {
        assert Steady(Config(), past, marks.candidate, marks.stable, |past.samples|);
      }
    }

    // A whole stream of masses since the settings were made or reset.
    method Feed(values: seq<i64>, stamps: seq<u32>, ghost ticks: seq<nat>)
      requires Valid() && initialized && past == Past([], [])
      requires |stamps| == |ticks| == |values|
      requires forall k :: 0 <= k < |ticks| ==> stamps[k] == ticks[k] % 0x1_0000_0000
      requires forall j, k :: 0 <= j < k < |ticks| ==> ticks[j] <= ticks[k]
      modifies this, samples
      ensures Valid() && initialized && Config() == old(Config()) && past == Past(values, ticks)
      ensures Accepted(Config()) && Ordered(past)
      ensures state == Stable ==> exists from, entry :: Steady(Config(), past, from, entry, |values|)
      ensures Regular(Config(), past) && (exists from, entry :: Steady(Config(), past, from, entry, |values|)) ==>
                state == Stable
    {
      hide Justified, Prompt, SpreadAt, Steady, Holds, Recent;
      for k := 0 to |values|
        invariant Valid() && initialized && Config() == old(Config())
        invariant past.samples == values[..k] && past.times == ticks[..k]
      {
        var _ := ProcessMass(values[k], stamps[k], ticks[k]);
      }
      assert values[..|values|] == values && ticks[..|ticks|] == ticks;
      StableIsSteady();
    }

    method ClearSamples()
      modifies samples
    {
      forall i | 0 <= i < samples.Length { samples[i] := 0; }
    }

    method Reset()
      requires Valid()
      modifies this, samples
      ensures Valid() && initialized == old(initialized) && Config() == old(Config())
      ensures initialized ==> state == Unavailable && past == Past([], []) && spread == 0
    {
      if !initialized { return; }
      var _ := InitMass(window_size, enter_threshold_ug, exit_threshold_ug, stable_hold_ms);
    }

    // The extremes of the cells in use, and whether their distance fits.
    method UpdateRange() returns (ok: bool)
      requires 0 < count <= samples.Length
      modifies this`minimum, this`maximum, this`spread
      ensures minimum == Lowest(samples[..count]) && maximum == Highest(samples[..count])
      ensures ok == FitsI64(Spread(samples[..count])) && (ok ==> spread == Spread(samples[..count]))
    {
      minimum, maximum := samples[0], samples[0];
      assert samples[..1][..1] == samples[..1];
      for index := 1 to count
        invariant minimum == Lowest(samples[..index]) && maximum == Highest(samples[..index])
      {
        assert samples[..index + 1][..index] == samples[..index];
        if samples[index] < minimum { minimum := samples[index]; }
        if samples[index] > maximum { maximum := samples[index]; }
      }
      var distance := Subtract(maximum, minimum);
      if distance.None? { return false; }
      spread := distance.value;
      return true;
    }

    method StoreSample(value: i64, ghost tick: nat)
      requires samples.Length == 32 && 2 <= window_size <= 32 && Filled()
      modifies this`head, this`count, this`past, samples
      ensures Filled() && past == Extended(old(past), value, tick)
    {
      hide Holds, Recent;
      ghost var size := window_size as nat;
      ghost var cells := samples[..];
      Written(cells, past.samples, size, value);
      Advance(|past.samples|, size);
      samples[head] := value;
      assert samples[..] == cells[head := value];
      past := Extended(past, value, tick);
      head := (head + 1) % window_size;
      if count < window_size { count := count + 1; }
    }

    // The part of ProcessMass for a full window with a spread that fits.
    method Judge(timestamp_ms: u32, ghost before: Past, ghost value: i64, ghost tick: nat)
      requires Accepted(Config()) && Ordered(before) && Justified(Config(), before, state, candidate_start_ms, marks)
      requires Prompt(Config(), before, state, marks)
      requires past == Extended(before, value, tick) && timestamp_ms == tick % 0x1_0000_0000
      requires forall k :: 0 <= k < |before.times| ==> before.times[k] <= tick
      requires |past.samples| >= window_size && spread == SpreadAt(Config(), past, |past.samples| - 1)
      modifies this`state, this`candidate_start_ms, this`marks
      ensures Justified(Config(), past, state, candidate_start_ms, marks) && Prompt(Config(), past, state, marks)
    {
      hide Justified, Prompt, SpreadAt, Elapsed;
      ghost var c, m := Config(), marks;
      if state == Stable && spread < exit_threshold_ug {
        StableContinues(c, before, candidate_start_ms, m, value, tick);
        PromptWhenStable(c, past, m);
        return;
      }
      if spread <= enter_threshold_ug {
        if state != Candidate {
          PromptlyCandidate(c, before, state, candidate_start_ms, m, value, tick);
          candidate_start_ms, state := timestamp_ms, Candidate;
          CandidateStarts(c, past, tick);
          ElapsedAtMost(tick, tick);
          marks := Marks(|past.samples| - 1, 0);
        } else {
          CandidateContinues(c, before, candidate_start_ms, m, value, tick);
          if Elapsed(timestamp_ms, candidate_start_ms) >= stable_hold_ms {
            marks := Marks(m.candidate, |before.samples|);
            PromptWhenStable(c, past, marks);
          } else {
            PromptlyWaiting(c, before, candidate_start_ms, m, value, tick);
          }
        }
        if Elapsed(timestamp_ms, candidate_start_ms) >= stable_hold_ms { state := Stable; }
      } else {
        PromptlyUnsteady(c, before, state, m, value, tick, Unstable);
        state := Unstable;
        SpreadShown(c, past, state, candidate_start_ms, marks);
      }
    }

    method ProcessMass(value: i64, timestamp_ms: u32, ghost tick: nat) returns (result: StabilityState)
      requires Valid() && timestamp_ms == tick % 0x1_0000_0000
      requires forall k :: 0 <= k < |past.times| ==> past.times[k] <= tick
      modifies this, samples
      ensures Valid() && initialized == old(initialized) && Config() == old(Config())
      ensures result == if initialized then state else Unavailable
      ensures initialized ==> past == Extended(old(past), value, tick)
      ensures initialized && FitsI64(SpreadAt(Config(), past, |past.samples| - 1)) ==>
                spread == SpreadAt(Config(), past, |past.samples| - 1)
    {
      hide Justified, Prompt, SpreadAt, Filled, Elapsed;
      if !initialized { return Unavailable; }
      ghost var c, before := Config(), past;
      var ranged := TakeSample(value, tick);
      if !ranged || count < window_size {
        PromptlyUnsteady(c, before, state, marks, value, tick, Unavailable);
        state := Unavailable;
        SpreadShown(c, past, state, candidate_start_ms, marks);
        return state;
      }
      Judge(timestamp_ms, before, value, tick);
      return state;
    }

    // The sample enters the ring, and the spread of the window is taken.
    method TakeSample(value: i64, ghost tick: nat) returns (ranged: bool)
      requires samples.Length == 32 && Accepted(Config()) && Filled()
      modifies this`head, this`count, this`minimum, this`maximum, this`spread, this`past, samples
      ensures Filled() && past == Extended(old(past), value, tick)
      ensures count < window_size <==> |past.samples| < window_size
      ensures ranged == FitsI64(LastSpread(Config(), past)) && (ranged ==> spread == LastSpread(Config(), past))
    {
      hide SpreadAt, Holds, Spread, Lowest, Highest, Recent;
      StoreSample(value, tick);
      WindowRange(samples[..], past, Config());
      assert samples[..][..count] == samples[..count];
      ranged := UpdateRange();
    }
  }

  lemma WindowRange(cells: seq<i64>, p: Past, c: Settings)
    requires Accepted(c) && p.samples != [] && Holds(cells, p.samples, c.window)
    ensures var n := |Recent(p.samples, c.window)|;
            0 < n <= |cells| && Spread(cells[..n]) == SpreadAt(c, p, |p.samples| - 1)
  {
    RingExtremes(cells, p.samples, c.window);
    assert p.samples[..|p.samples|] == p.samples;
  }
}
