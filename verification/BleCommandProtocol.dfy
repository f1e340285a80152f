// Protocol/ble/ble_command_protocol.c: request frames and the parser that
// finds them in the received byte stream.
module BleCommandProtocol {
  import opened FixedWidth
  import opened ByteBits
  import opened BleFrameCodec
  import opened MassMath

  const BLE_MESSAGE_COMMAND_REQUEST: u8 := 0x80

  datatype BleCommandRequest = BleCommandRequest(transaction_id: u16, operation: u8, flags: u8, data: Bytes)

  function RequestPayload(r: BleCommandRequest): (p: Bytes)
    requires |r.data| < 0x1_0000
    ensures |p| == 6 + |r.data|
  {
    [LowByte(r.transaction_id), HighByte(r.transaction_id), r.operation, r.flags, LowByte(|r.data|), HighByte(|r.data|)]
    + r.data
  }

  function RequestFrame(r: BleCommandRequest, frame_sequence: u16, timestamp_ms: u32): (f: Bytes)
    requires |r.data| <= 122
    ensures |f| == |r.data| + 20
  {
    Frame(BLE_MESSAGE_COMMAND_REQUEST, frame_sequence, timestamp_ms, RequestPayload(r))
  }

  // Where a request stands in its frame.
  lemma RequestLayout(r: BleCommandRequest, frame_sequence: u16, timestamp_ms: u32)
    requires |r.data| <= 122
    ensures var f, n := RequestFrame(r, frame_sequence, timestamp_ms), |r.data|;
            && |f| == n + 20 && f[3] == 0x80 && WordAt(f, 4, 6 + n)
            && WordAt(f, 12, r.transaction_id) && f[14] == r.operation && f[15] == r.flags
            && WordAt(f, 16, n) && f[18..18 + n] == r.data
  {
    FrameLayout(BLE_MESSAGE_COMMAND_REQUEST, frame_sequence, timestamp_ms, RequestPayload(r));
    hide Frame, Crc16Bytes;
    var f, p := RequestFrame(r, frame_sequence, timestamp_ms), RequestPayload(r);
    PayloadLayout(r);
    hide RequestPayload;
    assert f[3] == f[..4][3];
    forall k | 0 <= k < |p| ensures f[12 + k] == p[k] { assert p[k] == f[12..12 + |p|][k]; }
    assert f[18..18 + |r.data|] == p[6..];
  }

  lemma PayloadLayout(r: BleCommandRequest)
    requires |r.data| <= 122
    ensures var p := RequestPayload(r);
            && WordAt(p, 0, r.transaction_id) && p[2] == r.operation && p[3] == r.flags && WordAt(p, 4, |r.data|)
            && p[6..] == r.data
  {}

  // Writes the request frame, or leaves the output alone.
  method EncodeRequest(r: BleCommandRequest, frame_sequence: u16, timestamp_ms: u32, output: array<u8>, capacity: u16)
    returns (length: Option<u16>)
    requires capacity <= output.Length
    modifies output
    ensures length == if |r.data| > 122 || r.operation == 0 || capacity < |r.data| + 20
              then None else Some(|r.data| + 20)
    ensures length.Some? ==> output[..length.value] == RequestFrame(r, frame_sequence, timestamp_ms)
    ensures var end := if length.Some? then length.value else 0; output[end..] == old(output[end..])
  {
    hide Frame, RequestPayload;
    if |r.data| > 122 || r.operation == 0 { return None; }
    var payload := new u8[128];
    WritePayload(r, payload);
    length :=
      Encode(BLE_MESSAGE_COMMAND_REQUEST, frame_sequence, timestamp_ms, payload[..6 + |r.data|], output, capacity);
  }

  method WritePayload(r: BleCommandRequest, payload: array<u8>)
    requires |r.data| <= 122 && payload.Length == 128
    modifies payload
    ensures payload[..6 + |r.data|] == RequestPayload(r)
  {
    payload[0], payload[1], payload[2], payload[3] :=
      LowByte(r.transaction_id), HighByte(r.transaction_id), r.operation, r.flags;
    payload[4], payload[5] := LowByte(|r.data|), HighByte(|r.data|);
    forall i | 0 <= i < |r.data| { payload[6 + i] := r.data[i]; }
  }

  // ---- what the parser does with a byte ---------------------------------------------------------

  // The bytes held, and the length of the frame once its header is read.
  datatype Held = Held(bytes: Bytes, expected: nat)

  const IDLE: Held := Held([], 0)

  predicate SyncAt(b: Bytes, i: nat) { i + 1 < |b| && b[i] == 0xA5 && b[i + 1] == 0x5A }

  // The rest from the first sync pair at or after i; else a last byte that may begin one.
  function FromSync(b: Bytes, i: nat): (r: Bytes)
    decreases |b| - i
  {
    if i + 1 < |b| then if SyncAt(b, i) then b[i..] else FromSync(b, i + 1)
    else if b != [] && b[|b| - 1] == 0xA5 then [0xA5]
    else []
  }

  function Resynced(b: Bytes): Held { Held(FromSync(b, 1), 0) }

  predicate HeaderAccepted(b: Bytes)
    requires |b| >= 12
  {
    b[2] == BLE_PROTOCOL_VERSION && b[3] == BLE_MESSAGE_COMMAND_REQUEST && 6 <= U16Of(b[4], b[5]) <= 128
  }

  // What a complete frame with a good checksum delivers.
  function DecodeRequest(b: Bytes): Option<BleCommandRequest>
    requires |b| >= 20
  {
    var payload_length, data_length := U16Of(b[4], b[5]), U16Of(b[16], b[17]);
    if payload_length < 6 || data_length != payload_length - 6 || 20 + data_length > |b| then None
    else Some(BleCommandRequest(U16Of(b[12], b[13]), b[14], b[15], b[18..18 + data_length]))
  }

  function Pushed(s: Held, byte: u8): (Held, Option<BleCommandRequest>) {
    if |s.bytes| == 0 then (if byte == 0xA5 then Held([0xA5], s.expected) else s, None)
    else if |s.bytes| == 1 then
      (if byte == 0x5A then Held(s.bytes + [byte], s.expected) else if byte == 0xA5 then s else IDLE, None)
    else if |s.bytes| >= 142 then (Resynced(s.bytes), None)
    else
      var b := s.bytes + [byte];
      if |b| == 12 && !HeaderAccepted(b) then (Resynced(b), None)
      else Completed(b, if |b| == 12 then 14 + U16Of(b[4], b[5]) else s.expected)
  }

  function Completed(b: Bytes, expected: nat): (Held, Option<BleCommandRequest>)
    requires b != []
  {
    if expected == 0 || |b| != expected || |b| < 20 then (Held(b, expected), None)
    else if b[|b| - 2..] != Crc16Bytes(b[..|b| - 2]) then (Resynced(b), None)
    else (IDLE, DecodeRequest(b))
  }

  // What the parser can hold: it begins like a frame, and a known length was
  // announced by an accepted header.
  predicate Plausible(s: Held) {
    && |s.bytes| <= 142
    && (|s.bytes| >= 1 ==> s.bytes[0] == 0xA5) && (|s.bytes| >= 2 ==> s.bytes[1] == 0x5A)
    && (s.expected != 0 ==>
          |s.bytes| >= 12 && HeaderAccepted(s.bytes) && s.expected == 14 + U16Of(s.bytes[4], s.bytes[5]) > |s.bytes|)
  }

  lemma FromSyncIs(b: Bytes, i: nat)
    ensures var r := FromSync(b, i);
            && |r| <= |b| && (|b| > i > 0 ==> |r| < |b|)
            && (|r| >= 1 ==> r[0] == 0xA5) && (|r| >= 2 ==> r[1] == 0x5A)
    decreases |b| - i
  {
    if i + 1 < |b| && !SyncAt(b, i) { FromSyncIs(b, i + 1); }
  }

  lemma ResyncedIsHeld(b: Bytes)
    requires 2 <= |b| <= 142
    ensures Plausible(Resynced(b)) && |Resynced(b).bytes| < |b|
  {
    FromSyncIs(b, 1);
  }

  // The buffer never holds more than 142 bytes, whatever arrives.
  lemma PushedIsHeld(s: Held, byte: u8)
    requires Plausible(s)
    ensures Plausible(Pushed(s, byte).0)
  {
    hide FromSync;
    if |s.bytes| >= 142 {
      ResyncedIsHeld(s.bytes);
    } else if |s.bytes| >= 2 {
      ResyncedIsHeld(s.bytes + [byte]);
    }
  }

  // ---- everything delivered is a frame --------------------------------------------------------------

  function U32Of(b: Bytes): u32
    requires |b| == 4
  {
    var b0: int, b1: int, b2: int, b3: int := b[0], b[1], b[2], b[3];
    b0 + 0x100 * b1 + 0x1_0000 * b2 + 0x100_0000 * b3
  }

  lemma U16Bytes(low: u8, high: u8)
    ensures LowByte(U16Of(low, high)) == low && HighByte(U16Of(low, high)) == high
  {}

  // Reading a header back gives the header.
  lemma HeaderRead(b: Bytes, message_type: u8)
    requires |b| == 12 && b[0] == 0xA5 && b[1] == 0x5A && b[2] == BLE_PROTOCOL_VERSION && b[3] == message_type
    ensures Header(message_type, U16Of(b[4], b[5]), U16Of(b[6], b[7]), U32Of(b[8..12])) == b
  {
    hide LowByte, HighByte, U16Of, U32Of;
    U16Bytes(b[4], b[5]);
    U16Bytes(b[6], b[7]);
    U32Bytes(b[8..12]);
  }

  lemma U32Bytes(b: Bytes)
    requires |b| == 4
    ensures var v := U32Of(b); b == [v % 0x100, v / 0x100 % 0x100, v / 0x1_0000 % 0x100, v / 0x100_0000]
  {
    var b0: int, b1: int, b2: int, b3: int := b[0], b[1], b[2], b[3];
    var v := U32Of(b);
    DivisionIs(v, 0x100, b1 + 0x100 * b2 + 0x1_0000 * b3, b0);
    DivisionIs(b1 + 0x100 * b2 + 0x1_0000 * b3, 0x100, b2 + 0x100 * b3, b1);
    DivisionIs(v, 0x1_0000, b2 + 0x100 * b3, b0 + 0x100 * b1);
    DivisionIs(b2 + 0x100 * b3, 0x100, b3, b2);
    DivisionIs(v, 0x100_0000, b3, b0 + 0x100 * b1 + 0x1_0000 * b2);
  }

  lemma PayloadRead(b: Bytes, r: BleCommandRequest)
    requires |b| >= 20 && DecodeRequest(b) == Some(r) && U16Of(b[4], b[5]) == |b| - 14
    ensures |r.data| == |b| - 20 && RequestPayload(r) == b[12..|b| - 2]
  {
    hide U16Of, LowByte, HighByte;
    U16Bytes(b[12], b[13]);
    U16Bytes(b[16], b[17]);
    assert b[18..18 + |r.data|] == r.data;
  }

  // Sync pair, accepted header, announced length and checksum make a frame.
  lemma FrameRead(b: Bytes, r: BleCommandRequest)
    requires |b| >= 20 && b[0] == 0xA5 && b[1] == 0x5A && HeaderAccepted(b) && |b| == 14 + U16Of(b[4], b[5])
    requires DecodeRequest(b) == Some(r) && b[|b| - 2..] == Crc16Bytes(b[..|b| - 2])
    ensures |r.data| <= 122 && b == RequestFrame(r, U16Of(b[6], b[7]), U32Of(b[8..12]))
  {
    hide Crc16Bytes, U32Of, U16Of;
    PayloadRead(b, r);
    HeaderRead(b[..12], BLE_MESSAGE_COMMAND_REQUEST);
    assert b[..12][8..12] == b[8..12];
    assert b[..|b| - 2] == b[..12] + b[12..|b| - 2];
    assert b == b[..|b| - 2] + b[|b| - 2..];
  }

  // A delivery empties the parser, and what it held with the new byte was
  // exactly the frame of the request, checksum included.
  lemma DeliveredIsFrame(s: Held, byte: u8)
    requires Plausible(s) && Pushed(s, byte).1.Some?
    ensures Pushed(s, byte).0 == IDLE && |s.bytes| >= 19
    ensures var b, r := s.bytes + [byte], Pushed(s, byte).1.value;
            |r.data| <= 122 && b == RequestFrame(r, U16Of(b[6], b[7]), U32Of(b[8..12]))
  {
    hide Crc16Bytes, FromSync, U32Of, RequestFrame, DecodeRequest;
    FrameRead(s.bytes + [byte], Pushed(s, byte).1.value);
  }

  // ---- every frame sent is delivered --------------------------------------------------------------------

  // A whole byte stream through the parser.
  function Fed(s: Held, stream: Bytes): (Held, seq<BleCommandRequest>) {
    if stream == [] then (s, [])
    else
      var (before, requests) := Fed(s, stream[..|stream| - 1]);
      var (after, delivered) := Pushed(before, stream[|stream| - 1]);
      (after, requests + if delivered.Some? then [delivered.value] else [])
  }

  lemma FedOneMore(s: Held, a: Bytes, byte: u8)
    ensures var (before, requests) := Fed(s, a);
            var (after, delivered) := Pushed(before, byte);
            && Fed(s, a + [byte]).0 == after
            && Fed(s, a + [byte]).1 == requests + if delivered.Some? then [delivered.value] else []
  {
    assert (a + [byte])[..|a|] == a;
  }

  lemma {:induction false} FedConcat(s: Held, a: Bytes, b: Bytes)
    ensures Fed(s, a + b).0 == Fed(Fed(s, a).0, b).0
    ensures Fed(s, a + b).1 == Fed(s, a).1 + Fed(Fed(s, a).0, b).1
  {
    hide Pushed, Fed;
    if b == [] {
      assert a + b == a;
      FedNothing(Fed(s, a).0);
    } else {
      var most, last := b[..|b| - 1], b[|b| - 1];
      assert a + b == (a + most) + [last] && b == most + [last];
      FedConcat(s, a, most);
      FedOneMore(s, a + most, last);
      FedOneMore(Fed(s, a).0, most, last);
    }
  }

  lemma FedNothing(s: Held)
    ensures Fed(s, []).0 == s && Fed(s, []).1 == []
  {}

  // Between frames the parser holds nothing, or a byte that may begin a sync pair.
  predicate Idle(s: Held) { s == IDLE || s == Held([0xA5], 0) }

  predicate NoPair(b: Bytes) {
    forall i :: 0 <= i < |b| - 1 ==> !(b[i] == 0xA5 && b[i + 1] == 0x5A)
  }

  // Noise without a sync pair, after what the parser holds, goes unnoticed.
  lemma {:induction false} NoiseIgnored(s: Held, noise: Bytes)
    requires Idle(s) && NoPair(s.bytes + noise)
    ensures Idle(Fed(s, noise).0) && Fed(s, noise).1 == []
    ensures noise != [] ==> Fed(s, noise).0.bytes == if noise[|noise| - 1] == 0xA5 then [0xA5] else []
  {
    hide Fed;
    if noise == [] {
      FedNothing(s);
    } else {
      var most, last := noise[..|noise| - 1], noise[|noise| - 1];
      var all := s.bytes + noise;
      assert s.bytes + most == all[..|all| - 1] && noise == most + [last];
      FedNothing(s);
      NoiseIgnored(s, most);
      FedOneMore(s, most, last);
      PairAtEnd(s, most, last);
    }
  }

  lemma PairAtEnd(s: Held, most: Bytes, last: u8)
    requires Idle(s) && NoPair(s.bytes + (most + [last]))
    ensures last == 0x5A && most != [] ==> most[|most| - 1] != 0xA5
    ensures last == 0x5A && most == [] ==> s == IDLE
  {
    var all := s.bytes + (most + [last]);
    assert |all| > 1 ==> !(all[|all| - 2] == 0xA5 && all[|all| - 1] == 0x5A);
  }

  // A frame, byte by byte.
  lemma {:induction false} FramePrefixHeld(s: Held, r: BleCommandRequest, frame_sequence: u16, timestamp_ms: u32,
                                           k: nat)
    requires Idle(s) && |r.data| <= 122 && 2 <= k < |r.data| + 20
    ensures var f := RequestFrame(r, frame_sequence, timestamp_ms);
            && Fed(s, f[..k]).0.bytes == f[..k] && Fed(s, f[..k]).0.expected == (if k >= 12 then |f| else 0)
            && Fed(s, f[..k]).1 == []
  {
    hide *;
    var f := RequestFrame(r, frame_sequence, timestamp_ms);
    FrameHeader(r, frame_sequence, timestamp_ms);
    if k == 2 {
      SyncHeld(s);
      assert f[..2] == [0xA5, 0x5A];
    } else {
      FramePrefixHeld(s, r, frame_sequence, timestamp_ms, k - 1);
      FrameGrows(f, k);
      FedOneMore(s, f[..k - 1], f[k - 1]);
      assert f[..k] == f[..k - 1] + [f[k - 1]];
    }
  }

  lemma SyncHeld(s: Held)
    requires Idle(s)
    ensures Fed(s, [0xA5, 0x5A]).0 == Held([0xA5, 0x5A], 0) && Fed(s, [0xA5, 0x5A]).1 == []
  {
    hide Fed, Resynced, Completed, HeaderAccepted;
    FedNothing(s);
    FedOneMore(s, [], 0xA5);
    FedOneMore(s, [] + [0xA5], 0x5A);
    assert [0xA5, 0x5A] == ([] + [0xA5]) + [0x5A];
  }

  lemma FrameGrows(f: Bytes, k: nat)
    requires 20 <= |f| <= 142 && HeaderAccepted(f) && 14 + U16Of(f[4], f[5]) == |f| && 2 < k < |f|
    ensures Pushed(Held(f[..k - 1], if k > 12 then |f| else 0), f[k - 1]) ==
            (Held(f[..k], if k >= 12 then |f| else 0), None)
  {
    hide FromSync, Crc16Bytes, U16Of, DecodeRequest;
    assert f[..k - 1] + [f[k - 1]] == f[..k];
  }

  lemma FrameHeader(r: BleCommandRequest, frame_sequence: u16, timestamp_ms: u32)
    requires |r.data| <= 122
    ensures var f := RequestFrame(r, frame_sequence, timestamp_ms);
            && |f| == 20 + |r.data| && f[0] == 0xA5 && f[1] == 0x5A && HeaderAccepted(f)
            && 14 + U16Of(f[4], f[5]) == |f|
  {
    hide Crc16Bytes;
    U16OfBytes(6 + |r.data|);
  }

  lemma FrameDecodes(r: BleCommandRequest, frame_sequence: u16, timestamp_ms: u32)
    requires |r.data| <= 122
    ensures var f := RequestFrame(r, frame_sequence, timestamp_ms);
            DecodeRequest(f) == Some(r) && f[|f| - 2..] == Crc16Bytes(f[..|f| - 2])
  {
    hide Crc16Bytes, U16Of, LowByte, HighByte;
    var f, p := RequestFrame(r, frame_sequence, timestamp_ms), RequestPayload(r);
    U16OfBytes(6 + |r.data|);
    var covered := Header(BLE_MESSAGE_COMMAND_REQUEST, |p|, frame_sequence, timestamp_ms) + p;
    assert f[..|f| - 2] == covered;
    assert forall i :: 0 <= i < |p| ==> f[12 + i] == p[i];
    PayloadDecodes(f, r);
  }

  lemma PayloadDecodes(f: Bytes, r: BleCommandRequest)
    requires |f| == 20 + |r.data| && |r.data| <= 122 && U16Of(f[4], f[5]) == 6 + |r.data|
    requires forall i :: 0 <= i < 6 + |r.data| ==> f[12 + i] == RequestPayload(r)[i]
    ensures DecodeRequest(f) == Some(r)
  {
    hide U16Of, LowByte, HighByte;
    U16OfBytes(|r.data|);
    U16OfBytes(r.transaction_id);
    var p := RequestPayload(r);
    assert p[0] == LowByte(r.transaction_id) && p[1] == HighByte(r.transaction_id) && p[2] == r.operation;
    assert p[3] == r.flags;
    assert p[4] == LowByte(|r.data|) && p[5] == HighByte(|r.data|);
    forall i | 0 <= i < |r.data| ensures f[18 + i] == r.data[i] { assert f[12 + (6 + i)] == RequestPayload(r)[6 + i]; }
    assert f[18..18 + |r.data|] == r.data;
  }

  lemma FrameDelivered(s: Held, r: BleCommandRequest, frame_sequence: u16, timestamp_ms: u32)
    requires Idle(s) && |r.data| <= 122
    ensures var fed := Fed(s, RequestFrame(r, frame_sequence, timestamp_ms)); fed.0 == IDLE && fed.1 == [r]
  {
    hide Crc16Bytes, FromSync, RequestFrame, DecodeRequest, Fed;
    var f := RequestFrame(r, frame_sequence, timestamp_ms);
    FrameHeader(r, frame_sequence, timestamp_ms);
    FramePrefixHeld(s, r, frame_sequence, timestamp_ms, |f| - 1);
    FrameDecodes(r, frame_sequence, timestamp_ms);
    FedOneMore(s, f[..|f| - 1], f[|f| - 1]);
    assert f[..|f| - 1] + [f[|f| - 1]] == f;
  }

  // A request as it is sent, and the noise received before it.
  datatype Transmission = Transmission(noise: Bytes, request: BleCommandRequest, frame_sequence: u16, timestamp_ms: u32)

  predicate Sendable(t: Transmission) { NoPair(t.noise) && |t.request.data| <= 122 }

  ghost predicate AllSendable(sent: seq<Transmission>) {
    forall i :: 0 <= i < |sent| ==> Sendable(sent[i])
  }

  ghost function Stream(sent: seq<Transmission>): Bytes
    requires AllSendable(sent)
  {
    if sent == [] then []
    else
      var t := sent[|sent| - 1];
      Stream(sent[..|sent| - 1]) + (t.noise + RequestFrame(t.request, t.frame_sequence, t.timestamp_ms))
  }

  function Requests(sent: seq<Transmission>): seq<BleCommandRequest> {
    if sent == [] then [] else Requests(sent[..|sent| - 1]) + [sent[|sent| - 1].request]
  }

  // Every request of a stream is delivered, once and in order, whatever else
  // arrives between the frames, as long as that holds no sync pair.
  lemma {:induction false} StreamDelivered(sent: seq<Transmission>)
    requires AllSendable(sent)
    ensures Fed(IDLE, Stream(sent)).0 == IDLE && Fed(IDLE, Stream(sent)).1 == Requests(sent)
  {
    hide Pushed, RequestFrame, NoPair, Fed;
    if sent == [] {
      FedNothing(IDLE);
    } else {
      var most, t := sent[..|sent| - 1], sent[|sent| - 1];
      StreamDelivered(most);
      var f := RequestFrame(t.request, t.frame_sequence, t.timestamp_ms);
      assert IDLE.bytes + t.noise == t.noise;
      NoiseIgnored(IDLE, t.noise);
      FrameDelivered(Fed(IDLE, t.noise).0, t.request, t.frame_sequence, t.timestamp_ms);
      FedConcat(IDLE, t.noise, f);
      FedConcat(IDLE, Stream(most), t.noise + f);
    }
  }

  // ---- the parser -------------------------------------------------------------------------------------------

  class BleCommandParser {
    const frame: array<u8>
    var length: u16
    var expected_length: u16

    predicate Shaped()
      reads this`length
    {
      frame.Length == 142 && length <= 142
    }

    function Content(): Held
      requires Shaped()
      reads this`length, this`expected_length, frame
    {
      Held(frame[..length], expected_length)
    }

    ghost predicate Valid()
      reads this, frame
    {
      Shaped() && Plausible(Content())
    }

    constructor ()
      ensures Valid() && Content() == IDLE && fresh(frame)
    {
      frame := new u8[142];
      length, expected_length := 0, 0;
    }

    method ParserReset()
      requires frame.Length == 142
      modifies this`length, this`expected_length
      ensures Shaped() && Content() == IDLE
    {
      length, expected_length := 0, 0;
    }

    // Keeps what may be the start of the next frame.
    method ParserResync()
      requires Shaped() && length > 0
      modifies this`length, this`expected_length, frame
      ensures Shaped() && Content() == old(Resynced(Content().bytes))
    {
      ghost var b := frame[..length];
      var index := 1;
      while index + 1 < length && !(frame[index] == 0xA5 && frame[index + 1] == 0x5A)
        invariant 1 <= index && FromSync(b, 1) == FromSync(b, index)
      {
        index := index + 1;
      }
      var keep := 0;
      if index + 1 < length {
        keep := length - index;
        forall i | 0 <= i < keep { frame[i] := frame[index + i]; }
        assert frame[..keep] == b[index..];
      } else if frame[length - 1] == 0xA5 {
        frame[0], keep := 0xA5, 1;
      }
      length, expected_length := keep, 0;
    }

    // One received byte.
    method Push(byte: u8) returns (delivered: Option<BleCommandRequest>)
      requires Valid()
      modifies this, frame
      ensures Valid() && Content() == Pushed(old(Content()), byte).0 && delivered == Pushed(old(Content()), byte).1
    {
      hide FromSync, Crc16Bytes;
      ghost var before := Content();
      PushedIsHeld(before, byte);
      if length == 0 {
        assert before.bytes == [] && [] + [byte] == [byte];
        if byte == 0xA5 { Append(byte); }
        return None;
      }
      if length == 1 {
        if byte == 0x5A {
          Append(byte);
        } else if byte != 0xA5 {
          ParserReset();
        }
        return None;
      }
      if length >= 142 {
        ParserResync();
        return None;
      }
      Append(byte);
      if length == 12 {
        var payload_length := U16Of(frame[4], frame[5]);
        if frame[2] != BLE_PROTOCOL_VERSION || frame[3] != BLE_MESSAGE_COMMAND_REQUEST
           || payload_length < 6 || payload_length > 128 {
          ParserResync();
          return None;
        }
        expected_length := 12 + payload_length + 2;
      }
      if expected_length != 0 && length == expected_length {
        delivered := Finish();
      } else {
        delivered := None;
      }
    }

    method Append(byte: u8)
      requires Shaped() && length < 142
      modifies this`length, frame
      ensures Shaped() && Content() == Held(old(Content()).bytes + [byte], expected_length)
    {
      frame[length] := byte;
      length := length + 1;
    }

    // The end of a frame of the announced length.
    method Finish() returns (delivered: Option<BleCommandRequest>)
      requires Shaped() && length == expected_length >= 20
      modifies this`length, this`expected_length, frame
      ensures Shaped()
      ensures var (after, request) := Completed(old(Content()).bytes, old(expected_length));
              Content() == after && delivered == request
    {
      hide FromSync, Crc16Bytes;
      ghost var b := frame[..length];
      assert b[..|b| - 2] == frame[..length - 2] && b[|b| - 2..] == [frame[length - 2], frame[length - 1]];
      var low, high := Crc(frame[..length - 2]);
      if frame[length - 2] != low || frame[length - 1] != high {
        ParserResync();
        return None;
      }
      delivered := DecodeRequest(frame[..length]);
      ParserReset();
    }

    // A whole byte stream.
    method Receive(stream: Bytes) returns (requests: seq<BleCommandRequest>)
      requires Valid()
      modifies this, frame
      ensures Valid() && Content() == Fed(old(Content()), stream).0 && requests == Fed(old(Content()), stream).1
    {
      hide Pushed, Fed, Plausible;
      requests := [];
      FedNothing(Content());
      for k := 0 to |stream|
        invariant Valid() && Content() == Fed(old(Content()), stream[..k]).0
        invariant requests == Fed(old(Content()), stream[..k]).1
      {
        FedOneMore(old(Content()), stream[..k], stream[k]);
        assert stream[..k + 1] == stream[..k] + [stream[k]];
        var delivered := Push(stream[k]);
        if delivered.Some? { requests := requests + [delivered.value]; }
      }
      assert stream[..|stream|] == stream;
    }
  }
}
