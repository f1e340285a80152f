// Domain/filter/weight_filter.c: the filter between raw counts and the scale.
module WeightFilter {
  import opened FixedWidth
  import opened MassMath
  import opened RingBuffer
  import opened Configuration
  import opened Averages
  import WeightMath

  predicate IsConfigurationValid(mode: u8, strength: u8) {
    if mode == FILTER_MODE_NONE then true
    else if mode == FILTER_MODE_AVERAGE then 2 <= strength <= 32
    else if mode == FILTER_MODE_IIR || mode == FILTER_MODE_MEDIAN3_IIR then 1 <= strength <= 8
    else false
  }

  // ---- what the filter computes ---------------------------------------------------------------

  // The middle one of three, as the source sorts them.
  function Median3(first: i32, second: i32, third: i32): i32 {
    var low := if first > second then second else first;
    var high := if first > second then first else second;
    var upper := if high > third then third else high;
    if low > upper then low else upper
  }

  // One step of the recursive filter.
  function Smoothed(output: int, input: int, strength: u8): int {
    Pow2Positive(strength);
    output + RoundHalfAway(input - output, Pow2(strength))
  }

  lemma Pow2Positive(n: nat)
    ensures Pow2(n) > 0
  {}

  // The output after the inputs.  The sample counter wraps to zero after 2^32
  // inputs, and the recursive filter then starts again.
  function Output(mode: u8, strength: u8, inputs: seq<i32>): int
    requires IsConfigurationValid(mode, strength) && inputs != []
  {
    var n := |inputs|;
    if mode == FILTER_MODE_NONE then inputs[n - 1]
    else if mode == FILTER_MODE_AVERAGE then
      RoundHalfAway(Sum(Recent(inputs, strength)), |Recent(inputs, strength)|)
    else if mode == FILTER_MODE_MEDIAN3_IIR && n < 3 then inputs[0]
    else
      var input :=
        if mode == FILTER_MODE_IIR then inputs[n - 1] else Median3(inputs[n - 3], inputs[n - 2], inputs[n - 1]);
      if (n - 1) % 0x1_0000_0000 == 0 then input else Smoothed(Output(mode, strength, inputs[..n - 1]), input, strength)
  }

  // ---- its properties -----------------------------------------------------------------------------

  lemma RecentMoves(inputs: seq<i32>, size: nat, value: i32)
    requires size > 0
    ensures Recent(inputs + [value], size)
         == (if |inputs| < size then inputs else Recent(inputs, size)[1..]) + [value]
    ensures Sum(Recent(inputs + [value], size))
         == Sum(Recent(inputs, size)) + value - if |inputs| < size then 0 else Recent(inputs, size)[0]
  {
    var kept := if |inputs| < size then inputs else Recent(inputs, size)[1..];
    assert Recent(inputs + [value], size) == kept + [value];
    assert (kept + [value])[..|kept|] == kept;
    if |inputs| >= size { SumWithoutFirst(Recent(inputs, size)); }
  }

  // The median is one of the three, with one on either side.
  lemma Median3IsMedian(a: i32, b: i32, c: i32)
    ensures var m := Median3(a, b, c);
            && m in [a, b, c]
            && (a <= m || b <= m) && (b <= m || c <= m) && (a <= m || c <= m)
            && (a >= m || b >= m) && (b >= m || c >= m) && (a >= m || c >= m)
  {}

  lemma Median3Rotates(a: i32, b: i32, c: i32)
    ensures Median3(a, b, c) == Median3(b, c, a) == Median3(c, a, b)
  {}

  // A step goes towards the input and not past it; it is zero exactly when the
  // input is nearer than half a unit of the divisor.
  lemma SmoothedApproaches(output: int, input: int, strength: u8)
    requires 1 <= strength
    ensures var next := Smoothed(output, input, strength);
            && Abs(input - next) + Abs(next - output) == Abs(input - output)
            && (next == output <==> Abs(input - output) < Pow2(strength - 1))
  {
    hide RoundHalfAway, NearestAwayFromZero;
    Pow2Positive(strength);
    var delta, d := input - output, Pow2(strength);
    RoundHalfAwayExact(0, d);
    RoundHalfAwayExact(delta, 1);
    StepBetween(delta, d);
    StepIsZero(delta, d);
  }

  lemma StepBetween(delta: int, d: nat)
    requires d > 1
    ensures delta >= 0 ==> 0 <= RoundHalfAway(delta, d) <= delta
    ensures delta <= 0 ==> delta <= RoundHalfAway(delta, d) <= 0
  {
    QuotientShrinks(Abs(delta), d);
  }

  lemma StepIsZero(delta: int, d: nat)
    requires d > 1
    ensures RoundHalfAway(delta, d) == 0 <==> 2 * Abs(delta) < d
  {
    RoundedQuotientBounds(Abs(delta), d);
    var q := RoundedQuotient(Abs(delta), d);
    if q == 0 { assert q * d == 0; }
    if q >= 1 { MulLe(d, 1, q); }
  }

  // Every output lies within the bounds of the inputs seen.
  lemma {:induction false} OutputBetween(mode: u8, strength: u8, inputs: seq<i32>, low: int, high: int)
    requires IsConfigurationValid(mode, strength) && inputs != []
    requires Between(inputs, low, high)
    ensures low <= Output(mode, strength, inputs) <= high
    decreases inputs
  {
    hide Smoothed, RoundHalfAway;
    var n := |inputs|;
    if mode == FILTER_MODE_AVERAGE {
      AverageBetween(Recent(inputs, strength), low, high);
    } else if mode != FILTER_MODE_NONE && n > 1 {
      var input := if mode == FILTER_MODE_IIR || n < 3 then inputs[n - 1] else Median3(inputs[n - 3], inputs[n - 2],
                                                                                       inputs[n - 1]);
      assert low <= input <= high;
      OutputBetween(mode, strength, inputs[..n - 1], low, high);
      SmoothedApproaches(Output(mode, strength, inputs[..n - 1]), input, strength);
    }
  }

  // A constant input held for `times` samples.
  function Held(value: i32, times: nat): seq<i32> { seq(times, _ => value) }

  // The recursive filters see a held input at once, behind the median of three
  // from its second sample on.
  predicate Sees(mode: u8, times: nat) {
    mode == FILTER_MODE_IIR || (mode == FILTER_MODE_MEDIAN3_IIR && times >= 1)
  }

  // Under a held input the error of a recursive filter falls with every sample
  // until it is below half of the divisor, and from there on stays.
  lemma HeldInputConverges(mode: u8, strength: u8, inputs: seq<i32>, value: i32, times: nat)
    requires IsConfigurationValid(mode, strength) && inputs != [] && Sees(mode, times)
    ensures var before := Abs(value - Output(mode, strength, inputs + Held(value, times)));
            var after := Abs(value - Output(mode, strength, inputs + Held(value, times + 1)));
            && (before >= Pow2(strength - 1) ==> after < before)
            && (before < Pow2(strength - 1) ==> after <= before)
  {
    hide Smoothed;
    var s, t := inputs + Held(value, times), inputs + Held(value, times + 1);
    var n := |t|;
    assert t[..n - 1] == s && t[n - 1] == value;
    if mode == FILTER_MODE_MEDIAN3_IIR {
      assert t[n - 2] == value;
      assert Median3(t[n - 3], t[n - 2], t[n - 1]) == value;
    }
    SmoothedApproaches(Output(mode, strength, s), value, strength);
  }

  lemma {:induction false} HeldInputSettles(mode: u8, strength: u8, inputs: seq<i32>, value: i32, from: nat, times: nat)
    requires IsConfigurationValid(mode, strength) && inputs != [] && Sees(mode, from)
    requires times >= from + Abs(value - Output(mode, strength, inputs + Held(value, from)))
    ensures Abs(value - Output(mode, strength, inputs + Held(value, times))) < Pow2(strength - 1)
  {
    hide Output;
    Pow2Positive(strength - 1);
    SettlesBy(mode, strength, inputs, value, from, times);
  }

  lemma {:induction false} SettlesBy(mode: u8, strength: u8, inputs: seq<i32>, value: i32, from: nat, times: nat)
    requires IsConfigurationValid(mode, strength) && inputs != [] && Sees(mode, from) && from <= times
    ensures var error := Abs(value - Output(mode, strength, inputs + Held(value, times)));
            || error < Pow2(strength - 1)
            || error + (times - from) <= Abs(value - Output(mode, strength, inputs + Held(value, from)))
  {
    hide Output;
    if times > from {
      SettlesBy(mode, strength, inputs, value, from, times - 1);
      HeldInputConverges(mode, strength, inputs, value, times - 1);
    }
  }

  // The average is the nearest integer to the mean of the last `strength` inputs,
  // or of all of them while there are fewer.
  lemma AverageIsNearest(strength: u8, inputs: seq<i32>)
    requires IsConfigurationValid(FILTER_MODE_AVERAGE, strength) && inputs != []
    ensures var k := if |inputs| < strength then |inputs| else strength;
            NearestAwayFromZero(Sum(inputs[|inputs| - k..]), k, Output(FILTER_MODE_AVERAGE, strength, inputs))
  {
    var k: nat := if |inputs| < strength then |inputs| else strength;
    assert inputs[|inputs| - k..] == Recent(inputs, strength);
    RoundHalfAwayIsNearest(Sum(Recent(inputs, strength)), k);
  }

  // A step is the nearest integer to the error divided by 2^strength.
  lemma SmoothedStep(output: int, input: int, strength: u8)
    requires Pow2(strength) > 0
    ensures NearestAwayFromZero(input - output, Pow2(strength), Smoothed(output, input, strength) - output)
  {
    RoundHalfAwayIsNearest(input - output, Pow2(strength));
  }

  // Behind the median a single spike in a held input leaves no trace, however high.
  lemma {:induction false} SpikeIgnored(strength: u8, value: i32, spike: i32, before: nat, behind: nat)
    requires IsConfigurationValid(FILTER_MODE_MEDIAN3_IIR, strength) && before >= 1
    ensures Output(FILTER_MODE_MEDIAN3_IIR, strength, Held(value, before) + [spike] + Held(value, behind)) == value
    decreases behind, before
  {
    hide Smoothed, Median3;
    var s := Held(value, before) + [spike] + Held(value, behind);
    var n := |s|;
    SettledStays(value, strength);
    if n >= 3 {
      MedianOfTwo(s[n - 3], s[n - 2], s[n - 1], value);
      if behind > 0 {
        assert s[..n - 1] == Held(value, before) + [spike] + Held(value, behind - 1);
        SpikeIgnored(strength, value, spike, before, behind - 1);
      } else {
        assert s[..n - 1] == Held(value, before);
        HeldStays(strength, value, before);
      }
    }
  }

  lemma {:induction false} HeldStays(strength: u8, value: i32, times: nat)
    requires IsConfigurationValid(FILTER_MODE_MEDIAN3_IIR, strength) && times >= 1
    ensures Output(FILTER_MODE_MEDIAN3_IIR, strength, Held(value, times)) == value
  {
    hide Smoothed, Median3;
    SettledStays(value, strength);
    if times >= 3 {
      MedianOfTwo(value, value, value, value);
      assert Held(value, times)[..times - 1] == Held(value, times - 1);
      HeldStays(strength, value, times - 1);
    }
  }

  lemma SettledStays(value: int, strength: u8)
    requires 1 <= strength
    ensures Smoothed(value, value, strength) == value
  {
    hide Smoothed;
    SmoothedApproaches(value, value, strength);
  }

  lemma MedianOfTwo(a: i32, b: i32, c: i32, value: i32)
    requires (a == value && b == value) || (b == value && c == value) || (a == value && c == value)
    ensures Median3(a, b, c) == value
  {}

  lemma OutputFits(mode: u8, strength: u8, inputs: seq<i32>)
    requires IsConfigurationValid(mode, strength) && inputs != []
    ensures FitsI32(Output(mode, strength, inputs))
  {
    OutputBetween(mode, strength, inputs, INT32_MIN, INT32_MAX);
  }

  // The cell about to be written holds the oldest value.
  lemma Oldest(cells: seq<i32>, inputs: seq<i32>, size: nat)
    requires Holds(cells, inputs, size) && |inputs| >= size
    ensures |inputs| % size < |cells| && cells[|inputs| % size] == Recent(inputs, size)[0]
  {
    var n := |inputs|;
    var q: int := n / size;
    assert (q - 1) * size == q * size - size;
    DivisionIs(n - size, size, q - 1, n % size);
  }

  // Wherever the ring stands, its median is that of the last three inputs.
  lemma LastThree(cells: seq<i32>, inputs: seq<i32>)
    requires |cells| == 3 && Holds(cells, inputs, 3) && |inputs| >= 3
    ensures var n := |inputs|; Median3(cells[0], cells[1], cells[2]) == Median3(inputs[n - 3], inputs[n - 2],
                                                                                inputs[n - 1])
  {
    var n := |inputs|;
    assert cells[(n - 3) % 3] == inputs[n - 3] && cells[(n - 2) % 3] == inputs[n - 2];
    assert cells[(n - 1) % 3] == inputs[n - 1];
    Median3Rotates(inputs[n - 3], inputs[n - 2], inputs[n - 1]);
  }

  // What one more input does to the ring, its count and its sum.
  lemma AverageMoves(cells: seq<i32>, inputs: seq<i32>, size: nat, raw: i32)
    requires Holds(cells, inputs, size) && size <= 32
    ensures |inputs| % size < |cells| && Holds(cells[|inputs| % size := raw], inputs + [raw], size)
    ensures var kept := Sum(Recent(inputs, size)) - if |inputs| < size then 0 else cells[|inputs| % size];
            FitsI64(kept) && FitsI64(kept + raw) && Sum(Recent(inputs + [raw], size)) == kept + raw
    ensures |Recent(inputs + [raw], size)| == if |inputs| < size then |inputs| + 1 else size
    ensures |Recent(inputs, size)| == if |inputs| < size then |inputs| else size
  {
    hide Sum;
    Written(cells, inputs, size, raw);
    RecentMoves(inputs, size, raw);
    SumFits(Recent(inputs + [raw], size));
    SumFits(Recent(inputs, size));
    if |inputs| >= size {
      Oldest(cells, inputs, size);
      SumFits(Recent(inputs, size)[1..]);
      SumWithoutFirst(Recent(inputs, size));
    }
  }

  lemma MedianMoves(cells: seq<i32>, inputs: seq<i32>, raw: i32)
    requires |cells| == 3 && Holds(cells, inputs, 3)
    ensures var next := cells[|inputs| % 3 := raw];
            && Holds(next, inputs + [raw], 3) && (|inputs| % 3 + 1) % 3 == |inputs + [raw]| % 3
            && (|inputs| >= 2 ==>
                  Median3(next[0], next[1], next[2]) == Median3(inputs[|inputs| - 2], inputs[|inputs| - 1], raw))
  {
    hide Median3;
    Written(cells, inputs, 3, raw);
    if |inputs| >= 2 { LastThree(cells[|inputs| % 3 := raw], inputs + [raw]); }
  }

  lemma MedianOutput(strength: u8, inputs: seq<i32>, raw: i32)
    requires IsConfigurationValid(FILTER_MODE_MEDIAN3_IIR, strength)
    ensures var n, next := |inputs|, Output(FILTER_MODE_MEDIAN3_IIR, strength, inputs + [raw]);
            && FitsI32(next)
            && (n == 0 ==> next == raw) && (n == 1 ==> next == Output(FILTER_MODE_MEDIAN3_IIR, strength, inputs))
            && (n >= 2 ==>
                  var median := Median3(inputs[n - 2], inputs[n - 1], raw);
                  next == if n % 0x1_0000_0000 == 0 then median
                          else Smoothed(Output(FILTER_MODE_MEDIAN3_IIR, strength, inputs), median, strength))
  {
    hide Median3, Smoothed;
    OutputFits(FILTER_MODE_MEDIAN3_IIR, strength, inputs + [raw]);
    assert (inputs + [raw])[..|inputs|] == inputs;
  }

  lemma IirOutput(strength: u8, inputs: seq<i32>, raw: i32)
    requires IsConfigurationValid(FILTER_MODE_IIR, strength)
    ensures Output(FILTER_MODE_IIR, strength, inputs + [raw]) ==
            if inputs == [] || |inputs| % 0x1_0000_0000 == 0 then raw
            else Smoothed(Output(FILTER_MODE_IIR, strength, inputs), raw, strength)
    ensures FitsI32(Output(FILTER_MODE_IIR, strength, inputs + [raw]))
  {
    hide Smoothed, Output;
    OutputFits(FILTER_MODE_IIR, strength, inputs + [raw]);
    IirStep(strength, inputs + [raw]);
    assert (inputs + [raw])[..|inputs|] == inputs;
  }

  lemma IirStep(strength: u8, inputs: seq<i32>)
    requires IsConfigurationValid(FILTER_MODE_IIR, strength) && inputs != []
    ensures var n := |inputs| - 1;
            Output(FILTER_MODE_IIR, strength, inputs) ==
            if n == 0 || n % 0x1_0000_0000 == 0 then inputs[n]
            else Smoothed(Output(FILTER_MODE_IIR, strength, inputs[..n]), inputs[n], strength)
  {
    hide Smoothed, Median3, Recent, RoundHalfAway;
  }

  lemma LastInput(strength: u8, inputs: seq<i32>)
    requires inputs != []
    ensures Output(FILTER_MODE_NONE, strength, inputs) == inputs[|inputs| - 1]
  {}

  // The sample counter.
  lemma NextCount(n: nat)
    ensures (n + 1) % 0x1_0000_0000 == if n % 0x1_0000_0000 == UINT32_MAX then 0 else n % 0x1_0000_0000 + 1
  {}

  lemma Divisors(strength: nat)
    requires strength <= 8
    ensures 1 <= Pow2(strength) <= 256
  {
    assert Pow2(1) == 2 && Pow2(2) == 4 && Pow2(3) == 8 && Pow2(4) == 16;
    assert Pow2(5) == 32 && Pow2(6) == 64 && Pow2(7) == 128 && Pow2(8) == 256;
  }

  // ---- the filter -------------------------------------------------------------------------------------

  class WeightFilter {
    var mode: u8
    var strength: u8
    const average_buffer: array<i32>
    var average_head: u8
    var average_count: u8
    var average_sum: i64
    const median_history: array<i32>
    var median_count: u8
    var median_head: u8
    var output: i32
    var accepted_count: u32
    var initialized: bool
    var ready: bool
    // The inputs since the filter was set up.
    ghost var inputs: seq<i32>

    ghost predicate Valid()
      reads this, average_buffer, median_history
    {
      && average_buffer.Length == 32 && median_history.Length == 3 && average_buffer != median_history
      && (initialized ==>
            && IsConfigurationValid(mode, strength)
            && accepted_count == |inputs| % 0x1_0000_0000
            && (inputs != [] ==> output == Output(mode, strength, inputs))
            && (mode == FILTER_MODE_AVERAGE ==> AverageRing())
            && (mode == FILTER_MODE_MEDIAN3_IIR ==> MedianRing()))
    }

    ghost predicate AverageRing()
      reads this`strength, this`average_head, this`average_count, this`average_sum, this`inputs, average_buffer
    {
      && strength > 0 && average_head == |inputs| % strength && average_count == |Recent(inputs, strength)|
      && average_sum == Sum(Recent(inputs, strength)) && Holds(average_buffer[..], inputs, strength)
    }

    ghost predicate MedianRing()
      reads this`median_head, this`median_count, this`inputs, median_history
    {
      && median_head == |inputs| % 3 && median_count == |Recent(inputs, 3)| && Holds(median_history[..], inputs, 3)
    }

    constructor ()
      ensures Valid() && !initialized && fresh(average_buffer) && fresh(median_history)
    {
      mode, strength, average_head, average_count, average_sum := 0, 0, 0, 0, 0;
      median_count, median_head, output, accepted_count, initialized, ready := 0, 0, 0, 0, false, false;
      inputs := [];
      average_buffer, median_history := new i32[32], new i32[3];
    }

    method Init(mode: u8, strength: u8) returns (ok: bool)
      requires Valid()
      modifies this, average_buffer, median_history
      ensures Valid() && ok == IsConfigurationValid(mode, strength)
      ensures ok <==> mode == 0 || (mode == 1 && 2 <= strength <= 32)
                      || ((mode == 2 || mode == 3) && 1 <= strength <= 8)
      ensures ok ==>
                && initialized && this.mode == mode && this.strength == strength && inputs == [] && !ready
                && output == 0 == accepted_count
      ensures !ok ==> unchanged(this) && unchanged(average_buffer) && unchanged(median_history)
    {
      hide Output, AverageRing, MedianRing;
      if !IsConfigurationValid(mode, strength) { return false; }
      this.mode, this.strength, initialized := mode, strength, true;
      ClearRings();
      return true;
    }

    method ClearRings()
      requires average_buffer.Length == 32 && median_history.Length == 3
      requires mode == FILTER_MODE_AVERAGE ==> 0 < strength <= 32
      modifies this`average_head, this`average_count, this`average_sum, this`median_count, this`median_head, this`output
      modifies this`accepted_count, this`ready, this`inputs, average_buffer, median_history
      ensures inputs == [] && accepted_count == 0 == output && !ready && MedianRing()
      ensures mode == FILTER_MODE_AVERAGE ==> AverageRing()
    {
      hide AverageRing, MedianRing;
      ClearBuffers();
      average_head, average_count, average_sum := 0, 0, 0;
      median_count, median_head, output, accepted_count, ready := 0, 0, 0, 0, false;
      inputs := [];
      RingsEmpty();
    }

    lemma RingsEmpty()
      requires average_buffer.Length == 32 && median_history.Length == 3 && inputs == []
      requires average_head == 0 && average_count == 0 && average_sum == 0 && median_count == 0 && median_head == 0
      ensures MedianRing() && (0 < strength <= 32 ==> AverageRing())
    {
      hide Holds, Recent;
      EmptyRing(median_history[..], 3);
      if 0 < strength <= 32 { EmptyRing(average_buffer[..], strength); }
    }

    method ClearBuffers()
      requires average_buffer.Length == 32 && median_history.Length == 3
      modifies average_buffer, median_history
    {
      forall i | 0 <= i < 32 { average_buffer[i] := 0; }
      forall i | 0 <= i < 3 { median_history[i] := 0; }
    }

    method Reset()
      requires Valid()
      modifies this, average_buffer, median_history
      ensures Valid() && initialized == old(initialized) && mode == old(mode) && strength == old(strength)
      ensures initialized ==> inputs == [] && !ready
    {
      if !initialized { return; }
      var _ := Init(mode, strength);
    }

    // The filter never fails, and computes Output of all the inputs.
    method Process(raw: i32) returns (filtered: Option<i32>)
      requires Valid()
      modifies this, average_buffer, median_history
      ensures Valid() && initialized == old(initialized)
      ensures !initialized ==> filtered == None
      ensures initialized ==>
                && mode == old(mode) && strength == old(strength) && inputs == old(inputs) + [raw]
                && filtered == Some(output) && output == Output(mode, strength, inputs)
                && ready == (|inputs| >= match mode case 1 => strength case 3 => 3 case _ => 1)
    {
      hide RoundHalfAway, Smoothed, Median3, Sum, Holds, Recent, Output;
      if !initialized { return None; }
      if mode == FILTER_MODE_NONE {
        inputs := inputs + [raw];
        LastInput(strength, inputs);
        output, ready := raw, true;
      } else if mode == FILTER_MODE_AVERAGE {
        Average(raw);
      } else if mode == FILTER_MODE_IIR {
        IirOutput(strength, inputs, raw);
        Iir(raw);
        inputs := inputs + [raw];
        ready := true;
      } else {
        MedianIir(raw);
      }
      NextCount(|old(inputs)|);
      accepted_count := if accepted_count == UINT32_MAX then 0 else accepted_count + 1;
      return Some(output);
    }

    method Average(raw: i32)
      requires initialized && IsConfigurationValid(mode, strength) && mode == FILTER_MODE_AVERAGE
      requires average_buffer.Length == 32 && AverageRing()
      modifies this`average_head, this`average_count, this`average_sum, this`output, this`ready, this`inputs
      modifies average_buffer
      ensures inputs == old(inputs) + [raw] && AverageRing()
      ensures output == Output(mode, strength, inputs) && ready == (|inputs| >= strength)
    {
      hide RoundHalfAway, Sum, Holds, Recent;
      var size := strength as nat;
      ghost var all := inputs + [raw];
      AverageMoves(average_buffer[..], inputs, size, raw);
      Advance(|inputs|, size);
      OutputFits(mode, strength, all);
      inputs := all;
      if average_count == strength {
        average_sum := average_sum - average_buffer[average_head];
      } else {
        average_count := average_count + 1;
      }
      average_buffer[average_head] := raw;
      average_sum := average_sum + raw;
      average_head := (average_head + 1) % strength;
      WeightMath.DivideRoundNearestIs(average_sum, average_count);
      var average := WeightMath.DivideRoundNearest(average_sum, average_count);
      var clamped := WeightMath.ClampInt64ToInt32(average.value);
      output := clamped.value;
      ready := average_count == strength;
    }

    method Iir(input: i32)
      requires IsConfigurationValid(mode, strength) && (mode == FILTER_MODE_IIR || mode == FILTER_MODE_MEDIAN3_IIR)
      requires accepted_count != 0 ==> FitsI32(Smoothed(output, input, strength))
      modifies this`output
      ensures output == if accepted_count == 0 then input else Smoothed(old(output), input, strength)
    {
      if accepted_count == 0 {
        output := input;
      } else {
        Divisors(strength);
        var delta: i64 := input - output;
        WeightMath.DivideRoundNearestIs(delta, Pow2(strength));
        var adjustment := WeightMath.DivideRoundNearest(delta, Pow2(strength));
        var clamped := WeightMath.ClampInt64ToInt32(output + adjustment.value);
        output := clamped.value;
      }
    }

    method MedianIir(raw: i32)
      requires IsConfigurationValid(mode, strength) && mode == FILTER_MODE_MEDIAN3_IIR && median_history.Length == 3
      requires accepted_count == |inputs| % 0x1_0000_0000 && (inputs != [] ==> output == Output(mode, strength, inputs))
      requires MedianRing()
      modifies this`median_head, this`median_count, this`output, this`ready, this`inputs, median_history
      ensures inputs == old(inputs) + [raw] && MedianRing()
      ensures output == Output(mode, strength, inputs) && ready == (|inputs| >= 3)
    {
      hide RoundHalfAway, Smoothed, Median3, Sum, Holds, Recent, Output;
      ghost var all := inputs + [raw];
      MedianOutput(strength, inputs, raw);
      MedianMoves(median_history[..], inputs, raw);
      median_history[median_head] := raw;
      assert median_history[..] == old(median_history[..])[|inputs| % 3 := raw];
      median_head := (median_head + 1) % 3;
      if median_count < 3 { median_count := median_count + 1; }
      inputs := all;
      if median_count < 3 {
        if accepted_count == 0 { output := raw; }
        ready := false;
        return;
      }
      var median_input := Median3(median_history[0], median_history[1], median_history[2]);
      Iir(median_input);
      ready := median_count == 3;
    }
  }
}
