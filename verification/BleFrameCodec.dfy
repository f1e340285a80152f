// Protocol/ble/ble_frame_codec.c: the frame around every BLE message.
module BleFrameCodec {
  import opened FixedWidth
  import opened ByteBits
  import ByteNumber
  import Crc16

  const BLE_PROTOCOL_VERSION: u8 := 1

  function LowByte(v: u16): u8 { v % 0x100 }

  function HighByte(v: u16): u8 { v / 0x100 }

  function U16Of(low: u8, high: u8): u16 { low + 0x100 * high }

  lemma U16OfBytes(v: u16)
    ensures U16Of(LowByte(v), HighByte(v)) == v
  {}

  // Sync pair, version, type, payload length, sequence and time, low bytes first.
  function Header(message_type: u8, payload_length: u16, frame_sequence: u16, timestamp_ms: u32): (h: Bytes)
    ensures |h| == 12
  {
    [0xA5, 0x5A, BLE_PROTOCOL_VERSION, message_type, LowByte(payload_length), HighByte(payload_length),
     LowByte(frame_sequence), HighByte(frame_sequence),
     timestamp_ms % 0x100, timestamp_ms / 0x100 % 0x100, timestamp_ms / 0x1_0000 % 0x100, timestamp_ms / 0x100_0000]
  }

  // The frame: header, payload, and the CRC of both.
  function Frame(message_type: u8, frame_sequence: u16, timestamp_ms: u32, payload: Bytes): (f: Bytes)
    requires |payload| < 0x1_0000
    ensures |f| == |payload| + 14
  {
    var covered := Header(message_type, |payload|, frame_sequence, timestamp_ms) + payload;
    covered + Crc16Bytes(covered)
  }

  // The two bytes at k are the number v, low byte first.
  predicate WordAt(f: Bytes, k: nat, v: int) {
    k + 2 <= |f| && var low: int, high: int := f[k], f[k + 1]; low + 0x100 * high == v
  }

  // Where everything is, as in the table of the protocol description.
  lemma FrameLayout(message_type: u8, frame_sequence: u16, timestamp_ms: u32, payload: Bytes)
    requires |payload| < 0x1_0000
    ensures var f, n := Frame(message_type, frame_sequence, timestamp_ms, payload), |payload|;
            && |f| == n + 14 && f[..4] == [0xA5, 0x5A, 1, message_type]
            && WordAt(f, 4, n) && WordAt(f, 6, frame_sequence)
            && WordAt(f, 8, timestamp_ms % 0x1_0000) && WordAt(f, 10, timestamp_ms / 0x1_0000)
            && f[12..12 + n] == payload && f[12 + n..] == Crc16Bytes(f[..12 + n])
  {
    hide Crc16Bytes;
    var f, covered := Frame(message_type, frame_sequence, timestamp_ms, payload),
                      Header(message_type, |payload|, frame_sequence, timestamp_ms) + payload;
    assert f[..12 + |payload|] == covered;
    HeaderLayout(message_type, |payload|, frame_sequence, timestamp_ms);
    hide Header;
    assert forall k :: 0 <= k < 12 ==> f[k] == Header(message_type, |payload|, frame_sequence, timestamp_ms)[k];
  }

  lemma HeaderLayout(message_type: u8, payload_length: u16, frame_sequence: u16, timestamp_ms: u32)
    ensures var h := Header(message_type, payload_length, frame_sequence, timestamp_ms);
            && h[0] == 0xA5 && h[1] == 0x5A && h[2] == 1 && h[3] == message_type
            && WordAt(h, 4, payload_length) && WordAt(h, 6, frame_sequence)
            && WordAt(h, 8, timestamp_ms % 0x1_0000) && WordAt(h, 10, timestamp_ms / 0x1_0000)
  {
    FourDigits(timestamp_ms);
  }

  lemma FourDigits(v: u32)
    ensures v % 0x100 + 0x100 * (v / 0x100 % 0x100) == v % 0x1_0000
    ensures v / 0x1_0000 % 0x100 + 0x100 * (v / 0x100_0000) == v / 0x1_0000
  {}

  method Crc(data: Bytes) returns (low: u8, high: u8)
    ensures [low, high] == Crc16Bytes(data)
  {
    var state := Crc16.Update(Crc16.INITIAL_STATE, BitsOf(data));
    low, high := ByteNumber.Value(Crc16.LowByte(state)), ByteNumber.Value(Crc16.HighByte(state));
  }

  // Writes the frame, or leaves the output alone.
  method Encode(message_type: u8, frame_sequence: u16, timestamp_ms: u32, payload: Bytes, output: array<u8>,
                capacity: u16)
    returns (length: Option<u16>)
    requires capacity <= output.Length
    modifies output
    ensures length == if message_type == 0 || |payload| > 240 || capacity < |payload| + 14
              then None else Some(|payload| + 14)
    ensures length.Some? ==> output[..length.value] == Frame(message_type, frame_sequence, timestamp_ms, payload)
    ensures var end := if length.Some? then length.value else 0; output[end..] == old(output[end..])
  {
    hide Crc16Bytes;
    if message_type == 0 || |payload| > 240 { return None; }
    var total := 12 + |payload| + 2;
    if capacity < total { return None; }
    WriteHeader(Header(message_type, |payload|, frame_sequence, timestamp_ms), output);
    forall i | 0 <= i < |payload| { output[12 + i] := payload[i]; }
    ghost var covered := Header(message_type, |payload|, frame_sequence, timestamp_ms) + payload;
    assert output[..total - 2] == covered;
    var low, high := Crc(output[..total - 2]);
    ghost var behind := output[total..];
    assert behind == old(output[total..]) by { assert output[12..][total - 12..] == behind; }
    output[total - 2] := low;
    output[total - 1] := high;
    assert output[total..] == behind;
    assert output[..total] == covered + [low, high];
    return Some(total);
  }

  method WriteHeader(header: Bytes, output: array<u8>)
    requires |header| == 12 <= output.Length
    modifies output
    ensures output[..12] == header && output[12..] == old(output[12..])
  {
    for i := 0 to 12
      invariant output[..i] == header[..i] && output[12..] == old(output[12..])
    {
      output[i] := header[i];
    }
  }
}
