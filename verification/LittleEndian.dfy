// Fixed-width little-endian fields: what Put*/Get* write and read, and a list of
// them as one byte string.
module LittleEndian {
  import opened FixedWidth

  // 256^width
  function Room(width: nat): (r: nat)
    ensures r >= 1
  {
    if width == 0 then 1 else 0x100 * Room(width - 1)
  }

  lemma RoomValues()
    ensures Room(1) == 0x100 && Room(2) == 0x1_0000 && Room(4) == 0x1_0000_0000
    ensures Room(8) == 0x1_0000_0000_0000_0000
  {
    assert Room(3) == 0x100_0000 && Room(5) == 0x100_0000_0000;
    assert Room(6) == 0x1_0000_0000_0000 && Room(7) == 0x100_0000_0000_0000;
  }

  // The low `width` bytes of v, lowest first.
  function Put(v: nat, width: nat): (r: Bytes)
    ensures |r| == width
  {
    if width == 0 then [] else [v % 0x100] + Put(v / 0x100, width - 1)
  }

  function Get(b: Bytes): (v: nat)
    ensures v < Room(|b|)
  {
    if b == [] then 0 else b[0] + 0x100 * Get(b[1..])
  }

  lemma {:induction false} GetPut(v: nat, width: nat)
    requires v < Room(width)
    ensures Get(Put(v, width)) == v
  {
    if width > 0 {
      GetPut(v / 0x100, width - 1);
      assert Put(v, width)[1..] == Put(v / 0x100, width - 1);
    }
  }

  lemma LowestByte(low: u8, high: nat)
    ensures (low + 0x100 * high) % 0x100 == low && (low + 0x100 * high) / 0x100 == high
  {}

  lemma {:induction false} PutGet(b: Bytes)
    ensures Put(Get(b), |b|) == b
  {
    if b != [] {
      PutGet(b[1..]);
      LowestByte(b[0], Get(b[1..]));
      assert b == [b[0]] + b[1..];
    }
  }

  // ---- lists of fields ------------------------------------------------------------

  datatype Field = Field(value: nat, width: nat)

  predicate Fits(f: Field) { f.value < Room(f.width) }

  function Widths(fs: seq<Field>): (r: seq<nat>)
    ensures |r| == |fs| && forall i :: 0 <= i < |fs| ==> r[i] == fs[i].width
  {
    seq(|fs|, i requires 0 <= i < |fs| => fs[i].width)
  }

  function Values(fs: seq<Field>): (r: seq<nat>)
    ensures |r| == |fs| && forall i :: 0 <= i < |fs| ==> r[i] == fs[i].value
  {
    seq(|fs|, i requires 0 <= i < |fs| => fs[i].value)
  }

  function Size(widths: seq<nat>): nat {
    if widths == [] then 0 else widths[0] + Size(widths[1..])
  }

  // The fields' bytes one after another.
  function Encode(fs: seq<Field>): (b: Bytes)
    ensures |b| == Size(Widths(fs))
  {
    if fs == [] then [] else
      assert Widths(fs)[1..] == Widths(fs[1..]);
      Put(fs[0].value, fs[0].width) + Encode(fs[1..])
  }

  // The values at the cursor's successive stops; past the end there is nothing
  // left to read.
  function Parse(widths: seq<nat>, b: Bytes): (vs: seq<nat>)
    ensures |vs| == |widths|
  {
    if widths == [] then [] else
      var w := if widths[0] <= |b| then widths[0] else |b|;
      [Get(b[..w])] + Parse(widths[1..], b[w..])
  }

  lemma {:induction false} ParseEncode(fs: seq<Field>)
    requires forall f :: f in fs ==> Fits(f)
    ensures Parse(Widths(fs), Encode(fs)) == Values(fs)
  {
    if fs != [] {
      hide Get, Put, Room;
      var head, tail := Put(fs[0].value, fs[0].width), Encode(fs[1..]);
      assert Widths(fs)[1..] == Widths(fs[1..]) && Values(fs)[1..] == Values(fs[1..]);
      assert Encode(fs)[..fs[0].width] == head && Encode(fs)[fs[0].width..] == tail;
      assert fs[0] in fs;
      GetPut(fs[0].value, fs[0].width);
      ParseEncode(fs[1..]);
      assert Values(fs) == [fs[0].value] + Values(fs[1..]);
    }
  }

  // Parsing loses nothing: two byte strings with the same values are the same.
  lemma {:induction false} ParseInjective(widths: seq<nat>, a: Bytes, b: Bytes)
    requires |a| == |b| == Size(widths) && Parse(widths, a) == Parse(widths, b)
    ensures a == b
  {
    if widths != [] {
      hide *;
      var w := widths[0];
      ParseSplit(widths, a);
      ParseSplit(widths, b);
      SameParts(Get(a[..w]), Parse(widths[1..], a[w..]), Get(b[..w]), Parse(widths[1..], b[w..]));
      PutGet(a[..w]);
      PutGet(b[..w]);
      ParseInjective(widths[1..], a[w..], b[w..]);
      assert a == a[..w] + a[w..] && b == b[..w] + b[w..];
    } else {
      assert a == [] == b;
    }
  }

  lemma ParseSplit(widths: seq<nat>, b: Bytes)
    requires widths != [] && |b| == Size(widths)
    ensures widths[0] <= |b| && |b[widths[0]..]| == Size(widths[1..])
    ensures Parse(widths, b) == [Get(b[..widths[0]])] + Parse(widths[1..], b[widths[0]..])
  {
    hide Get;
  }

  lemma SameParts(x: nat, s: seq<nat>, y: nat, t: seq<nat>)
    requires [x] + s == [y] + t
    ensures x == y && s == t
  {
    assert x == ([x] + s)[0] == ([y] + t)[0] == y;
    assert s == ([x] + s)[1..] == ([y] + t)[1..] == t;
  }

  // ---- the field types of the codecs -----------------------------------------------

  function U8(v: u8): Field { Field(v, 1) }

  function U16(v: u16): Field { Field(v, 2) }

  function U32(v: u32): Field { Field(v, 4) }

  // (uint32_t)v and (uint64_t)v of signed numbers
  function I32(v: i32): Field { Field(if v < 0 then v + 0x1_0000_0000 else v, 4) }

  function I64(v: i64): Field { Field(if v < 0 then v + 0x1_0000_0000_0000_0000 else v, 8) }

  function Flag(v: bool): Field { Field(if v then 1 else 0, 1) }

  const RESERVED: Field := Field(0, 1)

  // A value read from a field of known width, in the type of that width.
  function AsU8(v: nat): u8 { v % 0x100 }

  function AsU16(v: nat): u16 { v % 0x1_0000 }

  function AsU32(v: nat): u32 { v % 0x1_0000_0000 }

  function AsI32(v: nat): i32 {
    var w := v % 0x1_0000_0000;
    if w < 0x8000_0000 then w else w - 0x1_0000_0000
  }

  function AsI64(v: nat): i64 {
    var w := v % 0x1_0000_0000_0000_0000;
    if w < 0x8000_0000_0000_0000 then w else w - 0x1_0000_0000_0000_0000
  }

  lemma FieldsFit()
    ensures forall v: u8 :: Fits(U8(v))
    ensures forall v: u16 :: Fits(U16(v))
    ensures forall v: u32 :: Fits(U32(v))
    ensures forall v: i32 :: Fits(I32(v))
    ensures forall v: i64 :: Fits(I64(v))
    ensures forall v: bool :: Fits(Flag(v))
    ensures Fits(RESERVED)
  {
    RoomValues();
  }
}
