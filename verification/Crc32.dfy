// Services/crc32/crc32.c: the reflected CRC-32 as a fold over bytes, and what
// it detects.
module Crc32 {
  const CRC32_INITIAL_STATE: bv32 := 0xFFFFFFFF
  const CRC32_FINAL_XOR: bv32 := 0xFFFFFFFF

  // Named so that proofs above the bit level need not look inside.
  function Xor(s: bv32, t: bv32): bv32 { s ^ t }

  function BitStep(s: bv32): bv32 {
    if s & 1 != 0 then (s >> 1) ^ 0xEDB88320 else s >> 1
  }

  function BitSteps(s: bv32, n: nat): bv32 {
    if n == 0 then s else BitStep(BitSteps(s, n - 1))
  }

  function ByteStep(s: bv32, b: bv8): bv32 {
    BitSteps(Xor(s, b as bv32), 8)
  }

  // The state after the bytes of `data`, last byte last.
  function Folded(s: bv32, data: seq<bv8>): bv32 {
    if data == [] then s else ByteStep(Folded(s, data[..|data| - 1]), data[|data| - 1])
  }

  method Update(initial: bv32, data: seq<bv8>) returns (state: bv32)
    ensures state == Folded(initial, data)
  {
    state := initial;
    for index := 0 to |data|
      invariant state == Folded(initial, data[..index])
    {
      ghost var before := state;
      state := Xor(state, data[index] as bv32);
      for bit := 0 to 8
        invariant state == BitSteps(Xor(before, data[index] as bv32), bit)
      {
        state := if state & 1 != 0 then (state >> 1) ^ 0xEDB88320 else state >> 1;
      }
      assert data[..index + 1][..index] == data[..index];
    }
    assert data[..|data|] == data;
  }

  method Calculate(data: seq<bv8>) returns (crc: bv32)
    ensures crc == Folded(CRC32_INITIAL_STATE, data) ^ CRC32_FINAL_XOR
  {
    var state := Update(CRC32_INITIAL_STATE, data);
    crc := state ^ CRC32_FINAL_XOR;
  }

  // The check value: the digits 1 to 9 give 0xCBF43926.
  lemma CheckValue()
    ensures Xor(Folded(CRC32_INITIAL_STATE, [0x31, 0x32, 0x33, 0x34, 0x35, 0x36, 0x37, 0x38, 0x39]), CRC32_FINAL_XOR)
            == 0xCBF43926
  {
    hide Folded, ByteStep;
    FoldedNothing(CRC32_INITIAL_STATE);
    var d: seq<bv8> := [];
    d := NextDigit(d, 0xFFFFFFFF, 0x31, 0x7C231048);
    d := NextDigit(d, 0x7C231048, 0x32, 0xB0ACBB32);
    d := NextDigit(d, 0xB0ACBB32, 0x33, 0x77B79C2D);
    d := NextDigit(d, 0x77B79C2D, 0x34, 0x641C1F5C);
    d := NextDigit(d, 0x641C1F5C, 0x35, 0x340AC5E3);
    d := NextDigit(d, 0x340AC5E3, 0x36, 0xF68D2C9E);
    d := NextDigit(d, 0xF68D2C9E, 0x37, 0xAFFC9660);
    d := NextDigit(d, 0xAFFC9660, 0x38, 0x651F2550);
    d := NextDigit(d, 0x651F2550, 0x39, 0x340BC6D9);
    assert d == [0x31, 0x32, 0x33, 0x34, 0x35, 0x36, 0x37, 0x38, 0x39];
  }

  lemma EightSteps(x: bv32)
    ensures BitSteps(x, 8)
         == BitStep(BitStep(BitStep(BitStep(BitStep(BitStep(BitStep(BitStep(x))))))))
  {
    hide BitStep;
    assert BitSteps(x, 1) == BitStep(BitSteps(x, 0));
    assert BitSteps(x, 2) == BitStep(BitSteps(x, 1));
    assert BitSteps(x, 3) == BitStep(BitSteps(x, 2));
    assert BitSteps(x, 4) == BitStep(BitSteps(x, 3));
    assert BitSteps(x, 5) == BitStep(BitSteps(x, 4));
    assert BitSteps(x, 6) == BitStep(BitSteps(x, 5));
    assert BitSteps(x, 7) == BitStep(BitSteps(x, 6));
    assert BitSteps(x, 8) == BitStep(BitSteps(x, 7));
  }

  lemma FoldedNothing(s: bv32)
    ensures Folded(s, []) == s
  {}

  // One more digit, worked in bit by bit.
  lemma NextDigit(d: seq<bv8>, s: bv32, b: bv8, t: bv32) returns (e: seq<bv8>)
    requires Folded(CRC32_INITIAL_STATE, d) == s
    requires t == BitStep(BitStep(BitStep(BitStep(BitStep(BitStep(BitStep(BitStep(Xor(s, b as bv32)))))))))
    ensures e == d + [b] && Folded(CRC32_INITIAL_STATE, e) == t
  {
    hide BitStep;
    EightSteps(Xor(s, b as bv32));
    e := d + [b];
    assert e[..|d|] == d;
  }

  // ---- chunking ----------------------------------------------------------------

  // Feeding the bytes in pieces gives the same state as feeding them at once.
  lemma {:induction false} FoldedChunks(s: bv32, a: seq<bv8>, b: seq<bv8>)
    ensures Folded(s, a + b) == Folded(Folded(s, a), b)
  {
    if b == [] {
      assert a + b == a;
    } else {
      assert (a + b)[..|a + b| - 1] == a + b[..|b| - 1];
      FoldedChunks(s, a, b[..|b| - 1]);
    }
  }

  // ---- injectivity ---------------------------------------------------------------

  function BitUnstep(t: bv32): bv32 {
    if t & 0x80000000 != 0 then ((t ^ 0xEDB88320) << 1) | 1 else t << 1
  }

  lemma BitStepInverse(s: bv32)
    ensures BitUnstep(BitStep(s)) == s
  {}

  lemma {:induction false} BitStepsInjective(s: bv32, t: bv32, n: nat)
    requires s != t
    ensures BitSteps(s, n) != BitSteps(t, n)
  {
    if n > 0 {
      BitStepsInjective(s, t, n - 1);
      BitStepInverse(BitSteps(s, n - 1));
      BitStepInverse(BitSteps(t, n - 1));
    }
  }

  lemma XorInjective(s: bv32, t: bv32, u: bv32)
    requires t != u
    ensures Xor(s, t) != Xor(s, u) && Xor(t, s) != Xor(u, s)
  {}

  lemma ByteStepInjective(s: bv32, t: bv32, a: bv8, b: bv8)
    requires (s != t && a == b) || (s == t && a != b)
    ensures ByteStep(s, a) != ByteStep(t, b)
  {
    if s == t { XorInjective(s, a as bv32, b as bv32); } else { XorInjective(a as bv32, s, t); }
    hide Xor;
    BitStepsInjective(Xor(s, a as bv32), Xor(t, b as bv32), 8);
  }

  // Two different states never meet again on the same bytes.
  lemma {:induction false} FoldedInjective(s: bv32, t: bv32, data: seq<bv8>)
    requires s != t
    ensures Folded(s, data) != Folded(t, data)
  {
    if data != [] {
      var rest := data[..|data| - 1];
      FoldedInjective(s, t, rest);
      ByteStepInjective(Folded(s, rest), Folded(t, rest), data[|data| - 1], data[|data| - 1]);
    }
  }

  // ---- bursts --------------------------------------------------------------------

  // The same step without a branch: the form in which it is plainly linear.
  function BitStepMasked(s: bv32): bv32 {
    (s >> 1) ^ (0xEDB88320 & (0 - (s & 1)))
  }

  lemma BitStepIsMasked(s: bv32)
    ensures BitStep(s) == BitStepMasked(s)
  {
    if s & 1 != 0 {
      assert s & 1 == 1;
      assert 0 - (s & 1) == 0xFFFF_FFFF;
    } else {
      assert s & 1 == 0;
    }
  }

  function Half(y: bv32): bv32 { y >> 1 }

  function Halved(y: bv32, n: nat): bv32 {
    if n == 0 then y else Half(Halved(y, n - 1))
  }

  predicate IsEven(y: bv32) { y & 1 == 0 }

  // Bits above the lowest one only move down.
  lemma BitStepDefers(x: bv32, y: bv32)
    requires IsEven(y)
    ensures BitStep(Xor(x, y)) == Xor(BitStep(x), Half(y))
  {
    BitStepIsMasked(x);
    BitStepIsMasked(Xor(x, y));
    MaskedDefers(x, y, Xor(x, y));
  }

  lemma MaskedDefers(x: bv32, y: bv32, z: bv32)
    requires y & 1 == 0 && z == x ^ y
    ensures BitStepMasked(z) == BitStepMasked(x) ^ (y >> 1)
  {
    SameLowBit(x, y, z);
    ShiftSpreads(x, y);
    MaskApart(x >> 1, y >> 1, 0xEDB88320 & (0 - (x & 1)));
  }

  lemma SameLowBit(x: bv32, y: bv32, z: bv32)
    requires y & 1 == 0 && z == x ^ y
    ensures z & 1 == x & 1
  {}

  lemma ShiftSpreads(x: bv32, y: bv32)
    ensures (x ^ y) >> 1 == (x >> 1) ^ (y >> 1)
  {}

  lemma MaskApart(x: bv32, y: bv32, mask: bv32)
    ensures (x ^ y) ^ mask == (x ^ mask) ^ y
  {}

  lemma {:induction false} BitsDefer(x: bv32, y: bv32, n: nat)
    requires forall k: nat :: k < n ==> IsEven(Halved(y, k))
    ensures BitSteps(Xor(x, y), n) == Xor(BitSteps(x, n), Halved(y, n))
  {
    hide Xor, BitStep, Half, IsEven;
    if n > 0 {
      BitsDefer(x, y, n - 1);
      BitStepDefers(BitSteps(x, n - 1), Halved(y, n - 1));
    }
  }

  lemma HalvedSteps(y: bv32)
    requires y & 0xFF == 0
    ensures IsEven(Halved(y, 0)) && IsEven(Halved(y, 1)) && IsEven(Halved(y, 2)) && IsEven(Halved(y, 3))
    ensures IsEven(Halved(y, 4)) && IsEven(Halved(y, 5)) && IsEven(Halved(y, 6)) && IsEven(Halved(y, 7))
    ensures Halved(y, 8) == y >> 8
  {}

  lemma HalvedByte(y: bv32)
    requires y & 0xFF == 0
    ensures forall k: nat :: k < 8 ==> IsEven(Halved(y, k))
    ensures Halved(y, 8) == y >> 8
  {
    HalvedSteps(y);
    hide Halved, IsEven;
  }

  // Named so that the proof over four bytes need not look inside.
  function Wide(b: bv8): bv32 { b as bv32 }

  function Lowered(y: bv32): bv32 { y >> 8 }

  predicate Above(y: bv32) { y & 0xFF == 0 }

  // A later byte may just as well be mixed in one byte earlier, 8 bits higher.
  lemma ByteDefers(x: bv32, b: bv8, y: bv32)
    requires Above(y)
    ensures Xor(ByteStep(x, b), Lowered(y)) == BitSteps(Xor(x, Xor(Wide(b), y)), 8)
  {
    HalvedByte(y);
    XorAssociative(x, b as bv32, y);
    hide Xor;
    BitsDefer(Xor(x, b as bv32), y, 8);
  }

  lemma XorAssociative(a: bv32, b: bv32, c: bv32)
    ensures Xor(Xor(a, b), c) == Xor(a, Xor(b, c))
  {}

  // Four bytes as the little-endian word they spell.
  function Word(b0: bv8, b1: bv8, b2: bv8, b3: bv8): bv32 {
    Xor(Wide(b0), Tail3(b1, b2, b3))
  }

  function Tail3(b1: bv8, b2: bv8, b3: bv8): bv32 {
    ((b1 as bv32) << 8) ^ ((b2 as bv32) << 16) ^ ((b3 as bv32) << 24)
  }

  lemma TailParts(b1: bv8, b2: bv8, b3: bv8)
    ensures Above(Tail3(b1, b2, b3)) && Lowered(Tail3(b1, b2, b3)) == Xor(Wide(b1), Tail3(b2, b3, 0))
  {}

  lemma TailEnds()
    ensures Tail3(0, 0, 0) == 0 && Above(0) && Lowered(0) == 0
  {}

  lemma XorZero(y: bv32)
    ensures Xor(y, 0) == y
  {}

  // Four bytes enter the state as one 32-bit word.
  lemma FourBytes(s: bv32, b0: bv8, b1: bv8, b2: bv8, b3: bv8)
    ensures ByteStep(ByteStep(ByteStep(ByteStep(s, b0), b1), b2), b3)
         == BitSteps(BitSteps(BitSteps(BitSteps(Xor(s, Word(b0, b1, b2, b3)), 8), 8), 8), 8)
  {
    WordIs(b0, b1, b2, b3);
    hide *;
    var s1, t1 := ByteStep(s, b0), Tail3(b1, b2, b3);
    var s2, t2 := ByteStep(s1, b1), Tail3(b2, b3, 0);
    var s3, t3 := ByteStep(s2, b2), Tail3(b3, 0, 0);
    TailParts(b1, b2, b3);
    TailParts(b2, b3, 0);
    TailParts(b3, 0, 0);
    TailEnds();
    ByteDefers(s, b0, t1);
    ByteDefers(s1, b1, t2);
    ByteDefers(s2, b2, t3);
    ByteDefers(s3, b3, 0);
    XorZero(Wide(b3));
    XorZero(ByteStep(s3, b3));
  }

  lemma WordIs(b0: bv8, b1: bv8, b2: bv8, b3: bv8)
    ensures Word(b0, b1, b2, b3) == Xor(Wide(b0), Tail3(b1, b2, b3))
  {}

  lemma WordInjective(a0: bv8, a1: bv8, a2: bv8, a3: bv8, b0: bv8, b1: bv8, b2: bv8, b3: bv8)
    requires Word(a0, a1, a2, a3) == Word(b0, b1, b2, b3)
    ensures a0 == b0 && a1 == b1 && a2 == b2 && a3 == b3
  {}

  lemma FoldedAppend(s: bv32, data: seq<bv8>, last: bv8)
    ensures Folded(s, data + [last]) == ByteStep(Folded(s, data), last)
  {
    assert (data + [last])[..|data|] == data;
  }

  lemma FoldedFour(t: bv32, a: seq<bv8>)
    requires |a| == 4
    ensures Folded(t, a)
         == BitSteps(BitSteps(BitSteps(BitSteps(Xor(t, Word(a[0], a[1], a[2], a[3])), 8), 8), 8), 8)
  {
    FourBytes(t, a[0], a[1], a[2], a[3]);
    hide ByteStep, BitSteps, Word, Xor;
    assert a == [] + [a[0]] + [a[1]] + [a[2]] + [a[3]];
    FoldedAppend(t, [], a[0]);
    FoldedAppend(t, [] + [a[0]], a[1]);
    FoldedAppend(t, [] + [a[0]] + [a[1]], a[2]);
    FoldedAppend(t, [] + [a[0]] + [a[1]] + [a[2]], a[3]);
  }

  lemma FourBytesDiffer(t: bv32, a: seq<bv8>, b: seq<bv8>)
    requires |a| == |b| == 4 && a != b
    ensures Folded(t, a) != Folded(t, b)
  {
    FoldedFour(t, a);
    FoldedFour(t, b);
    var wa, wb := Word(a[0], a[1], a[2], a[3]), Word(b[0], b[1], b[2], b[3]);
    assert wa != wb by {
      if wa == wb { WordInjective(a[0], a[1], a[2], a[3], b[0], b[1], b[2], b[3]); }
    }
    XorInjective(t, wa, wb);
    hide Word, Xor, ByteStep, Folded;
    FourWordStepsInjective(Xor(t, wa), Xor(t, wb));
  }

  // Any change confined to four consecutive bytes changes the checksum.
  lemma BurstDetected(s: bv32, before: seq<bv8>, a: seq<bv8>, b: seq<bv8>, after: seq<bv8>)
    requires |a| == |b| == 4 && a != b
    ensures Folded(s, before + a + after) != Folded(s, before + b + after)
  {
    hide Folded;
    FoldedChunks(s, before + a, after);
    FoldedChunks(s, before + b, after);
    FoldedChunks(s, before, a);
    FoldedChunks(s, before, b);
    FourBytesDiffer(Folded(s, before), a, b);
    FoldedInjective(Folded(s, before + a), Folded(s, before + b), after);
  }

  lemma FourWordStepsInjective(s: bv32, t: bv32)
    requires s != t
    ensures BitSteps(BitSteps(BitSteps(BitSteps(s, 8), 8), 8), 8)
         != BitSteps(BitSteps(BitSteps(BitSteps(t, 8), 8), 8), 8)
  {
    hide BitSteps;
    BitStepsInjective(s, t, 8);
    BitStepsInjective(BitSteps(s, 8), BitSteps(t, 8), 8);
    BitStepsInjective(BitSteps(BitSteps(s, 8), 8), BitSteps(BitSteps(t, 8), 8), 8);
    BitStepsInjective(BitSteps(BitSteps(BitSteps(s, 8), 8), 8), BitSteps(BitSteps(BitSteps(t, 8), 8), 8), 8);
  }

  // One altered byte, wherever it stands.
  lemma OneByteDetected(s: bv32, data: seq<bv8>, index: nat, altered: bv8)
    requires index < |data| && altered != data[index]
    ensures Folded(s, data[index := altered]) != Folded(s, data)
  {
    var before, after := data[..index], data[index + 1..];
    assert data == before + [data[index]] + after && data[index := altered] == before + [altered] + after;
    FoldedChunks(s, before + [data[index]], after);
    FoldedChunks(s, before + [altered], after);
    assert (before + [data[index]])[..index] == before && (before + [altered])[..index] == before;
    ByteStepInjective(Folded(s, before), Folded(s, before), data[index], altered);
    FoldedInjective(Folded(s, before + [data[index]]), Folded(s, before + [altered]), after);
  }
}
