// Protocol/crc16/crc16.c: the CRC-16 of "MODBUS over Serial Line Specification
// V1.02", sections 2.5.1.2 and 6.2.2.
module Crc16 {
  const INITIAL_STATE: bv16 := 0xFFFF

  function BitStep(s: bv16): bv16 {
    if s & 1 != 0 then (s >> 1) ^ 0xA001 else s >> 1
  }

  function BitSteps(s: bv16, n: nat): bv16 {
    if n == 0 then s else BitStep(BitSteps(s, n - 1))
  }

  function ByteStep(s: bv16, b: bv8): bv16 {
    BitSteps(s ^ (b as bv16), 8)
  }

  function Folded(s: bv16, data: seq<bv8>): bv16 {
    if data == [] then s else ByteStep(Folded(s, data[..|data| - 1]), data[|data| - 1])
  }

  method Update(initial: bv16, data: seq<bv8>) returns (state: bv16)
    ensures state == Folded(initial, data)
  {
    state := initial;
    for index := 0 to |data|
      invariant state == Folded(initial, data[..index])
    {
      ghost var before := state;
      state := state ^ (data[index] as bv16);
      for bit := 0 to 8
        invariant state == BitSteps(before ^ (data[index] as bv16), bit)
      {
        state := if state & 1 != 0 then (state >> 1) ^ 0xA001 else state >> 1;
      }
      assert data[..index + 1][..index] == data[..index];
    }
    assert data[..|data|] == data;
  }

  lemma FoldedAppend(s: bv16, data: seq<bv8>, last: bv8)
    ensures Folded(s, data + [last]) == ByteStep(Folded(s, data), last)
  {
    assert (data + [last])[..|data|] == data;
  }

  // The check value: the digits 1 to 9 give 0x4B37.
  lemma CheckValue()
    ensures Folded(INITIAL_STATE, [0x31, 0x32, 0x33, 0x34, 0x35, 0x36, 0x37, 0x38, 0x39]) == 0x4B37
  {
    hide Folded, ByteStep;
    FoldedNothing(INITIAL_STATE);
    var d: seq<bv8> := [];
    d := NextDigit(d, 0xFFFF, 0x31, 0x947E);
    d := NextDigit(d, 0x947E, 0x32, 0xF595);
    d := NextDigit(d, 0xF595, 0x33, 0x7A75);
    d := NextDigit(d, 0x7A75, 0x34, 0x30BA);
    d := NextDigit(d, 0x30BA, 0x35, 0xA471);
    d := NextDigit(d, 0xA471, 0x36, 0x32E4);
    d := NextDigit(d, 0x32E4, 0x37, 0x9D73);
    d := NextDigit(d, 0x9D73, 0x38, 0x37DD);
    d := NextDigit(d, 0x37DD, 0x39, 0x4B37);
    assert d == [0x31, 0x32, 0x33, 0x34, 0x35, 0x36, 0x37, 0x38, 0x39];
  }

  lemma FoldedNothing(s: bv16)
    ensures Folded(s, []) == s
  {}

  // One more digit, worked in bit by bit.
  lemma NextDigit(d: seq<bv8>, s: bv16, b: bv8, t: bv16) returns (e: seq<bv8>)
    requires Folded(INITIAL_STATE, d) == s
    requires t == BitStep(BitStep(BitStep(BitStep(BitStep(BitStep(BitStep(BitStep(s ^ (b as bv16)))))))))
    ensures e == d + [b] && Folded(INITIAL_STATE, e) == t
  {
    hide BitStep;
    EightSteps(s ^ (b as bv16));
    e := d + [b];
    assert e[..|d|] == d;
  }

  function LowByte(s: bv16): bv8 { (s & 0xFF) as bv8 }

  function HighByte(s: bv16): bv8 { (s >> 8) as bv8 }

  // Eight bit steps, written out.
  lemma EightSteps(x: bv16)
    ensures BitSteps(x, 8)
         == BitStep(BitStep(BitStep(BitStep(BitStep(BitStep(BitStep(BitStep(x))))))))
  {
    hide BitStep;
    assert BitSteps(x, 1) == BitStep(BitSteps(x, 0));
    assert BitSteps(x, 2) == BitStep(BitSteps(x, 1));
    assert BitSteps(x, 3) == BitStep(BitSteps(x, 2));
    assert BitSteps(x, 4) == BitStep(BitSteps(x, 3));
    assert BitSteps(x, 5) == BitStep(BitSteps(x, 4));
    assert BitSteps(x, 6) == BitStep(BitSteps(x, 5));
    assert BitSteps(x, 7) == BitStep(BitSteps(x, 6));
    assert BitSteps(x, 8) == BitStep(BitSteps(x, 7));
  }

  // A state mixed with its own low byte only shifts.
  lemma OwnLowByte(s: bv16)
    ensures ByteStep(s, LowByte(s)) == s >> 8
  {
    EightSteps(s ^ (LowByte(s) as bv16));
    hide BitSteps;
  }

  lemma OwnHighByte(s: bv16)
    ensures ByteStep(s >> 8, HighByte(s)) == 0
  {
    EightSteps((s >> 8) ^ (HighByte(s) as bv16));
    hide BitSteps;
  }

  // A message followed by its own CRC, low byte first, leaves residue 0.
  lemma Residue(s: bv16, data: seq<bv8>)
    ensures var crc := Folded(s, data); Folded(s, data + [LowByte(crc), HighByte(crc)]) == 0
  {
    var crc := Folded(s, data);
    OwnLowByte(crc);
    OwnHighByte(crc);
    hide ByteStep, LowByte, HighByte;
    FoldedAppend(s, data, LowByte(crc));
    FoldedAppend(s, data + [LowByte(crc)], HighByte(crc));
    assert data + [LowByte(crc), HighByte(crc)] == data + [LowByte(crc)] + [HighByte(crc)];
  }

  function BitUnstep(t: bv16): bv16 {
    if t & 0x8000 != 0 then ((t ^ 0xA001) << 1) | 1 else t << 1
  }

  lemma BitStepInverse(s: bv16)
    ensures BitUnstep(BitStep(s)) == s
  {}

  lemma {:induction false} BitStepsInjective(s: bv16, t: bv16, n: nat)
    requires s != t
    ensures BitSteps(s, n) != BitSteps(t, n)
  {
    if n > 0 {
      BitStepsInjective(s, t, n - 1);
      BitStepInverse(BitSteps(s, n - 1));
      BitStepInverse(BitSteps(t, n - 1));
    }
  }

  lemma ZeroComesFromZero(x: bv16)
    requires BitSteps(x, 8) == 0
    ensures x == 0
  {
    EightSteps(0);
    assert BitSteps(0, 8) == 0;
    if x != 0 { BitStepsInjective(x, 0, 8); }
  }

  // Only the zero byte leaves the high half of a shifted state untouched.
  lemma HighHalf(x: bv16)
    requires BitSteps(x, 8) & 0xFF00 == 0
    ensures x & 0xFF == 0
  {
    EightSteps(x);
    hide BitSteps;
  }

  lemma LastByteIsOwn(t: bv16, high: bv8)
    requires ByteStep(t, high) == 0
    ensures t == high as bv16 && t & 0xFF00 == 0
  {
    ZeroComesFromZero(t ^ (high as bv16));
    hide BitSteps;
  }

  // Residue 0 means the message carries exactly its own CRC.
  lemma ResidueOnlyOwnCrc(s: bv16, data: seq<bv8>, low: bv8, high: bv8)
    requires Folded(s, data + [low, high]) == 0
    ensures low == LowByte(Folded(s, data)) && high == HighByte(Folded(s, data))
  {
    var crc := Folded(s, data);
    FoldedAppend(s, data, low);
    FoldedAppend(s, data + [low], high);
    assert data + [low, high] == data + [low] + [high];
    hide ByteStep, BitSteps, Folded;
    TwoOwnBytes(crc, low, high);
  }

  lemma TwoOwnBytes(crc: bv16, low: bv8, high: bv8)
    requires ByteStep(ByteStep(crc, low), high) == 0
    ensures low == LowByte(crc) && high == HighByte(crc)
  {
    LastByteIsOwn(ByteStep(crc, low), high);
    HighHalf(crc ^ (low as bv16));
    hide BitSteps;
    MixedOut(crc, low);
    OwnLowByte(crc);
  }

  lemma MixedOut(crc: bv16, low: bv8)
    requires (crc ^ (low as bv16)) & 0xFF == 0
    ensures low == LowByte(crc)
  {}
}
