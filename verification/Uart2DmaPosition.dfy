// Drivers/serial/uart2_dma_position.c: how far the circular receive DMA has
// come, from its write position and the count of completed rounds.
module Uart2DmaPosition {
  import opened FixedWidth
  import opened MassMath

  datatype Resolved = Resolved(absolute: u32, wrap_race_compensated: bool)

  function Resolve(previous_absolute: u32, completed_wraps: u32, position: u16, buffer_size: u16): Option<Resolved> {
    if buffer_size == 0 || position >= buffer_size then None
    else Placed(previous_absolute, (completed_wraps * buffer_size + position) % 0x1_0000_0000, buffer_size)
  }

  // A candidate more than half the range ahead is behind.
  function Placed(previous_absolute: u32, candidate: u32, buffer_size: u16): Option<Resolved> {
    if (candidate - previous_absolute) % 0x1_0000_0000 > 0xFFFF_FFFF / 2 then
      if candidate >= previous_absolute || previous_absolute - candidate >= buffer_size then None
      else Some(Resolved((candidate + buffer_size) % 0x1_0000_0000, true))
    else Some(Resolved(candidate, false))
  }

  // The situation of a call: bytes received before and now, and the rounds that
  // the interrupt has not counted yet.
  datatype Situation = Situation(before: nat, now: nat, size: u16, uncounted: nat)

  // Less than one buffer has arrived, and the counter is current or one behind.
  predicate Plausible(s: Situation) {
    && s.size > 0 && s.before <= s.now < s.before + s.size
    && s.uncounted <= 1 && s.uncounted <= s.now / s.size
  }

  // What the call is given.
  function Observed(s: Situation): Option<Resolved>
    requires Plausible(s)
  {
    Resolve(s.before % 0x1_0000_0000, (s.now / s.size - s.uncounted) % 0x1_0000_0000, s.now % s.size, s.size)
  }

  lemma WrappedProduct(wraps: nat, size: nat, position: nat)
    ensures (wraps % 0x1_0000_0000 * size + position) % 0x1_0000_0000 == (wraps * size + position) % 0x1_0000_0000
  {
    var q: int, r: int := wraps / 0x1_0000_0000, wraps % 0x1_0000_0000;
    assert wraps * size == (q * 0x1_0000_0000 + r) * size == (q * size) * 0x1_0000_0000 + r * size;
    WholeTurns(r * size + position, q * size);
  }

  lemma WholeTurns(n: int, turns: int)
    ensures (n + turns * 0x1_0000_0000) % 0x1_0000_0000 == n % 0x1_0000_0000
  {
    DivisionIs(n + turns * 0x1_0000_0000, 0x1_0000_0000, n / 0x1_0000_0000 + turns, n % 0x1_0000_0000);
  }

  // The candidate is the true position, less the rounds not counted.
  lemma CandidateIs(s: Situation)
    requires Plausible(s)
    ensures s.now - s.uncounted * s.size >= 0
    ensures ((s.now / s.size - s.uncounted) % 0x1_0000_0000 * s.size + s.now % s.size) % 0x1_0000_0000
         == (s.now - s.uncounted * s.size) % 0x1_0000_0000
  {
    var b: int := s.size;
    var w: int, p: int := s.now / b, s.now % b;
    assert s.now == w * b + p;
    assert (w - s.uncounted) * b == w * b - s.uncounted * b;
    MulLe(b, 0, w - s.uncounted);
    WrappedProduct(w - s.uncounted, b, p);
  }

  // A current counter gives the true position modulo 2^32.
  lemma CurrentResolves(s: Situation)
    requires Plausible(s) && s.uncounted == 0
    ensures Observed(s) == Some(Resolved(s.now % 0x1_0000_0000, false))
  {
    hide Placed;
    CandidateIs(s);
    Ahead(s.before, s.now, s.size);
  }

  lemma Ahead(before: nat, now: nat, size: u16)
    requires before <= now < before + 0x1_0000
    ensures Placed(before % 0x1_0000_0000, now % 0x1_0000_0000, size) == Some(Resolved(now % 0x1_0000_0000, false))
  {
    Difference(before, now);
  }

  lemma Difference(a: int, b: int)
    ensures (b % 0x1_0000_0000 - a % 0x1_0000_0000) % 0x1_0000_0000 == (b - a) % 0x1_0000_0000
  {
    WholeTurns(b % 0x1_0000_0000 - a % 0x1_0000_0000, b / 0x1_0000_0000 - a / 0x1_0000_0000);
  }

  // A counter one behind: the candidate is one buffer short.
  lemma LaggingResolves(s: Situation)
    requires Plausible(s) && s.uncounted == 1
    ensures s.now >= s.size
    ensures Observed(s) == if s.now == s.before || s.before / 0x1_0000_0000 != (s.now - s.size) / 0x1_0000_0000
              then None
                           else Some(Resolved(s.now % 0x1_0000_0000, true))
  {
    hide Placed;
    CandidateIs(s);
    Behind(s.before, s.now - s.size, s.size);
  }

  lemma Behind(before: nat, short: nat, size: u16)
    requires before - size <= short < before
    ensures Placed(before % 0x1_0000_0000, short % 0x1_0000_0000, size)
         == if short + size == before || before / 0x1_0000_0000 != short / 0x1_0000_0000 then None
            else Some(Resolved((short + size) % 0x1_0000_0000, true))
  {
    Difference(before, short);
    assert (short - before) % 0x1_0000_0000 == 0x1_0000_0000 + (short - before) > 0xFFFF_FFFF / 2;
    ShortOf(before, short);
    Carried(short, size);
  }

  // Below or above the other modulo 2^32, by the block it lies in.
  lemma ShortOf(before: nat, short: nat)
    requires 0 < before - short <= 0xFFFF
    ensures short % 0x1_0000_0000 >= before % 0x1_0000_0000 <==> before / 0x1_0000_0000 != short / 0x1_0000_0000
    ensures before / 0x1_0000_0000 == short / 0x1_0000_0000 ==>
              before % 0x1_0000_0000 - short % 0x1_0000_0000 == before - short
  {}

  lemma Carried(short: int, size: int)
    ensures (short % 0x1_0000_0000 + size) % 0x1_0000_0000 == (short + size) % 0x1_0000_0000
  {
    WholeTurns(short % 0x1_0000_0000 + size, short / 0x1_0000_0000);
  }

  // What is resolved is true; what is not was seen with a late counter, when no
  // byte had arrived or the position modulo 2^32 had started over in between.
  lemma ResolvesTrue(s: Situation)
    requires Plausible(s)
    ensures Observed(s).Some? ==>
              Observed(s).value == Resolved(s.now % 0x1_0000_0000, s.uncounted == 1)
    ensures Observed(s).None? <==>
              s.uncounted == 1 && (s.now == s.before || s.before / 0x1_0000_0000 != (s.now - s.size) / 0x1_0000_0000)
  {
    if s.uncounted == 0 { CurrentResolves(s); } else { LaggingResolves(s); }
  }
}
