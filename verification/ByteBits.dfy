// A byte as a number and as a bit vector.  Kept apart: nothing else in the
// project converts between the two.
module ByteNumber {
  import opened FixedWidth

  // Bits from booleans, least significant first.
  function Pack(b0: bool, b1: bool, b2: bool, b3: bool, b4: bool, b5: bool, b6: bool, b7: bool): bv8 {
    (if b0 then 1 else 0) | (if b1 then 2 else 0) | (if b2 then 4 else 0) | (if b3 then 8 else 0)
    | (if b4 then 16 else 0) | (if b5 then 32 else 0) | (if b6 then 64 else 0) | (if b7 then 128 else 0)
  }

  function Digit(b: bool, rest: nat): nat { (if b then 1 else 0) + 2 * rest }

  lemma DigitOf(n: nat)
    ensures Digit(n % 2 == 1, n / 2) == n
  {}

  function Sum(b0: bool, b1: bool, b2: bool, b3: bool, b4: bool, b5: bool, b6: bool, b7: bool): u8 {
    Digit(b0, Digit(b1, Digit(b2, Digit(b3, Digit(b4, Digit(b5, Digit(b6, Digit(b7, 0))))))))
  }

  function Bits(b: u8): bv8 {
    var h1 := b / 2;
    var h2 := h1 / 2;
    var h3 := h2 / 2;
    var h4 := h3 / 2;
    var h5 := h4 / 2;
    var h6 := h5 / 2;
    var h7 := h6 / 2;
    Pack(b % 2 == 1, h1 % 2 == 1, h2 % 2 == 1, h3 % 2 == 1, h4 % 2 == 1, h5 % 2 == 1, h6 % 2 == 1, h7 == 1)
  }

  predicate Has(x: bv8, mask: bv8) { x & mask != 0 }

  function Value(x: bv8): u8 {
    Sum(Has(x, 1), Has(x, 2), Has(x, 4), Has(x, 8), Has(x, 16), Has(x, 32), Has(x, 64), Has(x, 128))
  }

  lemma Unpack(b0: bool, b1: bool, b2: bool, b3: bool, b4: bool, b5: bool, b6: bool, b7: bool)
    ensures var x := Pack(b0, b1, b2, b3, b4, b5, b6, b7);
            && Has(x, 1) == b0 && Has(x, 2) == b1 && Has(x, 4) == b2 && Has(x, 8) == b3
            && Has(x, 16) == b4 && Has(x, 32) == b5 && Has(x, 64) == b6 && Has(x, 128) == b7
  {}

  // The digits of a byte put together again.
  lemma SumOfDigits(b: u8, h1: nat, h2: nat, h3: nat, h4: nat, h5: nat, h6: nat, h7: nat)
    requires h1 == b / 2 && h2 == h1 / 2 && h3 == h2 / 2 && h4 == h3 / 2 && h5 == h4 / 2 && h6 == h5 / 2 && h7 == h6 / 2
    ensures Sum(b % 2 == 1, h1 % 2 == 1, h2 % 2 == 1, h3 % 2 == 1, h4 % 2 == 1, h5 % 2 == 1, h6 % 2 == 1, h7 == 1) == b
  {
    assert Digit(h7 == 1, 0) == h7 by { assert h7 <= 1; }
    DigitOf(h6);
    DigitOf(h5);
    DigitOf(h4);
    DigitOf(h3);
    DigitOf(h2);
    DigitOf(h1);
    DigitOf(b);
    hide Digit;
  }

  lemma ValueOfBits(b: u8)
    ensures Value(Bits(b)) == b
  {
    hide Pack, Has, Sum;
    var h1: nat := b / 2;
    var h2: nat := h1 / 2;
    var h3: nat := h2 / 2;
    var h4: nat := h3 / 2;
    var h5: nat := h4 / 2;
    var h6: nat := h5 / 2;
    var h7: nat := h6 / 2;
    SumOfDigits(b, h1, h2, h3, h4, h5, h6, h7);
    Unpack(b % 2 == 1, h1 % 2 == 1, h2 % 2 == 1, h3 % 2 == 1, h4 % 2 == 1, h5 % 2 == 1, h6 % 2 == 1, h7 == 1);
  }

  lemma SumInjective(a0: bool, a1: bool, a2: bool, a3: bool, a4: bool, a5: bool, a6: bool, a7: bool,
                     b0: bool, b1: bool, b2: bool, b3: bool, b4: bool, b5: bool, b6: bool, b7: bool)
    requires Sum(a0, a1, a2, a3, a4, a5, a6, a7) == Sum(b0, b1, b2, b3, b4, b5, b6, b7)
    ensures a0 == b0 && a1 == b1 && a2 == b2 && a3 == b3 && a4 == b4 && a5 == b5 && a6 == b6 && a7 == b7
  {}

  lemma SameBits(a: bv8, b: bv8)
    requires Has(a, 1) == Has(b, 1) && Has(a, 2) == Has(b, 2) && Has(a, 4) == Has(b, 4) && Has(a, 8) == Has(b, 8)
    requires Has(a, 16) == Has(b, 16) && Has(a, 32) == Has(b, 32) && Has(a, 64) == Has(b, 64)
    requires Has(a, 128) == Has(b, 128)
    ensures a == b
  {}

  lemma ValueInjective(a: bv8, b: bv8)
    requires Value(a) == Value(b)
    ensures a == b
  {
    hide Has;
    SumInjective(Has(a, 1), Has(a, 2), Has(a, 4), Has(a, 8), Has(a, 16), Has(a, 32), Has(a, 64), Has(a, 128),
                 Has(b, 1), Has(b, 2), Has(b, 4), Has(b, 8), Has(b, 16), Has(b, 32), Has(b, 64), Has(b, 128));
    SameBits(a, b);
  }
}

// The CRCs over numeric bytes, and as the bytes that carry them.
module ByteBits {
  import opened FixedWidth
  import opened ByteNumber
  import Crc16
  import Crc32

  function BitsOf(data: Bytes): (r: seq<bv8>)
    ensures |r| == |data| && forall i :: 0 <= i < |data| ==> r[i] == Bits(data[i])
  {
    if data == [] then [] else BitsOf(data[..|data| - 1]) + [Bits(data[|data| - 1])]
  }

  lemma BitsOfConcat(a: Bytes, b: Bytes)
    ensures BitsOf(a + b) == BitsOf(a) + BitsOf(b)
  {
    hide Bits;
  }

  // ---- CRC-32 as bytes ------------------------------------------------------------

  function Lane32(c: bv32, k: nat): bv8
    requires k < 4
  {
    match k
    case 0 => (c & 0xFF) as bv8
    case 1 => ((c >> 8) & 0xFF) as bv8
    case 2 => ((c >> 16) & 0xFF) as bv8
    case _ => (c >> 24) as bv8
  }

  lemma SameLanes(c: bv32, d: bv32)
    requires Lane32(c, 0) == Lane32(d, 0) && Lane32(c, 1) == Lane32(d, 1)
    requires Lane32(c, 2) == Lane32(d, 2) && Lane32(c, 3) == Lane32(d, 3)
    ensures c == d
  {}

  // A 32-bit word as the four bytes WriteU32 stores.
  function StoredWord(c: bv32): (r: Bytes)
    ensures |r| == 4
  {
    [Value(Lane32(c, 0)), Value(Lane32(c, 1)), Value(Lane32(c, 2)), Value(Lane32(c, 3))]
  }

  lemma StoredWordInjective(c: bv32, d: bv32)
    requires c != d
    ensures StoredWord(c) != StoredWord(d)
  {
    var x, y := StoredWord(c), StoredWord(d);
    if x == y {
      hide Lane32, Value;
      assert x[0] == y[0] && x[1] == y[1] && x[2] == y[2] && x[3] == y[3];
      ValueInjective(Lane32(c, 0), Lane32(d, 0));
      ValueInjective(Lane32(c, 1), Lane32(d, 1));
      ValueInjective(Lane32(c, 2), Lane32(d, 2));
      ValueInjective(Lane32(c, 3), Lane32(d, 3));
      SameLanes(c, d);
    }
  }

  // The record checksum of `data`, stored.
  function Crc32Bytes(data: Bytes): (r: Bytes)
    ensures |r| == 4
  {
    StoredWord(Crc32.Xor(Crc32.Folded(Crc32.CRC32_INITIAL_STATE, BitsOf(data)), Crc32.CRC32_FINAL_XOR))
  }

  lemma Crc32BytesDiffer(a: Bytes, b: Bytes)
    requires Crc32.Folded(Crc32.CRC32_INITIAL_STATE, BitsOf(a)) != Crc32.Folded(Crc32.CRC32_INITIAL_STATE, BitsOf(b))
    ensures Crc32Bytes(a) != Crc32Bytes(b)
  {
    hide Crc32.Xor, StoredWord, Crc32.Folded, BitsOf;
    var c, d := Crc32.Folded(Crc32.CRC32_INITIAL_STATE, BitsOf(a)), Crc32.Folded(Crc32.CRC32_INITIAL_STATE, BitsOf(b));
    Crc32.XorInjective(Crc32.CRC32_FINAL_XOR, c, d);
    StoredWordInjective(Crc32.Xor(c, Crc32.CRC32_FINAL_XOR), Crc32.Xor(d, Crc32.CRC32_FINAL_XOR));
  }

  lemma BitsApart(a: u8, b: u8)
    requires a != b
    ensures Bits(a) != Bits(b)
  {
    hide Bits, Value;
    ValueOfBits(a);
    ValueOfBits(b);
  }

  // One altered byte changes the stored checksum.
  lemma Crc32OneByte(data: Bytes, index: nat, altered: u8)
    requires index < |data| && altered != data[index]
    ensures Crc32Bytes(data[index := altered]) != Crc32Bytes(data)
  {
    BitsApart(altered, data[index]);
    hide Bits, Value, Crc32Bytes, Crc32.Folded;
    assert BitsOf(data[index := altered]) == BitsOf(data)[index := Bits(altered)];
    Crc32.OneByteDetected(Crc32.CRC32_INITIAL_STATE, BitsOf(data), index, Bits(altered));
    Crc32BytesDiffer(data[index := altered], data);
  }

  // So does any change inside four consecutive bytes.
  lemma Crc32Burst(before: Bytes, a: Bytes, b: Bytes, after: Bytes)
    requires |a| == |b| == 4 && a != b
    ensures Crc32Bytes(before + a + after) != Crc32Bytes(before + b + after)
  {
    BitsOfDiffer(a, b);
    BitsOfConcat(before + a, after);
    BitsOfConcat(before + b, after);
    BitsOfConcat(before, a);
    BitsOfConcat(before, b);
    hide Bits, Crc32Bytes, Crc32.Folded;
    Crc32.BurstDetected(Crc32.CRC32_INITIAL_STATE, BitsOf(before), BitsOf(a), BitsOf(b), BitsOf(after));
    Crc32BytesDiffer(before + a + after, before + b + after);
  }

  lemma BitsOfDiffer(a: Bytes, b: Bytes)
    requires |a| == |b| && a != b
    ensures BitsOf(a) != BitsOf(b)
  {
    hide Bits;
    var k :| 0 <= k < |a| && a[k] != b[k];
    BitsApart(a[k], b[k]);
    assert BitsOf(a)[k] != BitsOf(b)[k];
  }

  // ---- CRC-16 as bytes ------------------------------------------------------------

  // The CRC-16 of `data`, low byte first: the order in which frames carry it.
  function Crc16Bytes(data: Bytes): (r: Bytes)
    ensures |r| == 2
  {
    var c := Crc16.Folded(Crc16.INITIAL_STATE, BitsOf(data));
    [Value(Crc16.LowByte(c)), Value(Crc16.HighByte(c))]
  }
}
