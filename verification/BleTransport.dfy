// Services/ble_transport/ble_transport.c: the byte rings between the protocol
// and the UART.  Both rings count their positions modulo the buffer size: 512
// bytes received, 256 to transmit in at most 8 frames, of which at most 128 are
// handed on at a time, and 4 priority frames of at most 110.
module BleTransport {
  import opened FixedWidth
  import opened MassMath
  import opened RingBuffer

  function RingCount(head: nat, tail: nat, size: nat): nat
    requires head < size && tail < size
  {
    if head >= tail then head - tail else size - tail + head
  }

  // Ring position n as a buffer index.
  function Index(n: nat, size: nat): (i: nat)
    requires size > 0
    ensures i < size
  {
    n % size
  }

  lemma IndexZero()
    ensures Index(0, 256) == Index(0, 8) == Index(0, 4) == 0
  {}

  lemma NextIndex(n: nat, size: nat)
    requires size > 0
    ensures Index(n + 1, size) == (Index(n, size) + 1) % size
  {
    Advance(n, size);
  }

  lemma Stored<T>(cells: seq<T>, history: seq<T>, size: nat, value: T)
    requires Holds(cells, history, size)
    ensures Index(|history|, size) < |cells| && Holds(cells[Index(|history|, size) := value], history + [value], size)
    ensures Index(|history + [value]|, size) == (Index(|history|, size) + 1) % size
  {
    Written(cells, history, size, value);
    Advance(|history|, size);
  }

  lemma HeldAt<T>(cells: seq<T>, history: seq<T>, size: nat, j: nat)
    requires Holds(cells, history, size) && j < |history| <= j + size
    ensures Index(j, size) < |cells| && cells[Index(j, size)] == history[j]
  {}

  // The indices tell how many bytes went in and did not come out.
  lemma RingCountIs(in_: nat, out: nat, size: nat)
    requires out <= in_ < out + size
    ensures RingCount(Index(in_, size), Index(out, size), size) == in_ - out
  {
    var q: int, r: int := out / size, out % size;
    assert out == q * size + r;
    if r + (in_ - out) < size {
      DivisionIs(in_, size, q, r + (in_ - out));
    } else {
      assert (q + 1) * size == q * size + size;
      DivisionIs(in_, size, q + 1, r + (in_ - out) - size);
    }
  }

  // ---- frames ---------------------------------------------------------------------------------

  function Flat(frames: seq<Bytes>): Bytes {
    if frames == [] then [] else Flat(frames[..|frames| - 1]) + frames[|frames| - 1]
  }

  lemma FlatOneMore(frames: seq<Bytes>, frame: Bytes)
    ensures Flat(frames + [frame]) == Flat(frames) + frame
  {
    assert (frames + [frame])[..|frames|] == frames;
  }

  // Where frame k lies in the stream.
  lemma {:induction false} FrameInStream(frames: seq<Bytes>, k: nat)
    requires k < |frames|
    ensures var start := |Flat(frames[..k])|;
            start + |frames[k]| <= |Flat(frames)| && Flat(frames)[start..start + |frames[k]|] == frames[k]
    ensures Flat(frames)[..|Flat(frames[..k])|] == Flat(frames[..k])
    ensures |Flat(frames[..k + 1])| == |Flat(frames[..k])| + |frames[k]|
  {
    assert frames[..k + 1][..k] == frames[..k];
    if k == |frames| - 1 {
      assert frames[..k + 1] == frames;
    } else {
      var most := frames[..|frames| - 1];
      assert most[..k] == frames[..k];
      FrameInStream(most, k);
      assert Flat(frames) == Flat(most) + frames[|frames| - 1];
    }
  }

  lemma {:induction false} FlatPrefix(frames: seq<Bytes>, k: nat)
    requires k <= |frames|
    ensures Flat(frames[..k]) <= Flat(frames)
  {
    if k < |frames| { FrameInStream(frames, k); } else { assert frames[..k] == frames; }
  }

  datatype Sent = Normal(frame: Bytes) | Priority(frame: Bytes)

  // The frames of either kind, in the order they were sent.
  function NormalFrames(log: seq<Sent>): seq<Bytes> {
    if log == [] then []
    else
      var last := log[|log| - 1];
      NormalFrames(log[..|log| - 1]) + if last.Normal? then [last.frame] else []
  }

  function PriorityFrames(log: seq<Sent>): seq<Bytes> {
    if log == [] then []
    else
      var last := log[|log| - 1];
      PriorityFrames(log[..|log| - 1]) + if last.Priority? then [last.frame] else []
  }

  function Payload(log: seq<Sent>): Bytes {
    if log == [] then [] else Payload(log[..|log| - 1]) + log[|log| - 1].frame
  }

  lemma LogOneMore(log: seq<Sent>, sent: Sent)
    ensures NormalFrames(log + [sent]) == NormalFrames(log) + if sent.Normal? then [sent.frame] else []
    ensures PriorityFrames(log + [sent]) == PriorityFrames(log) + if sent.Priority? then [sent.frame] else []
    ensures Payload(log + [sent]) == Payload(log) + sent.frame
  {
    assert (log + [sent])[..|log|] == log;
  }

  // What was written, what was sent, and what the UART has taken.
  datatype TxPast = TxPast(written: seq<Bytes>, sent: nat, urgent: seq<Bytes>, urgent_sent: nat, log: seq<Sent>,
                           wire: Bytes)

  // Bytes of the current normal frame already taken.
  function Begun(p: TxPast, remaining: nat): nat
    requires remaining > 0 ==> p.sent < |p.written| && remaining <= |p.written[p.sent]|
  {
    if remaining == 0 then 0 else |p.written[p.sent]| - remaining
  }

  // The UART took whole frames, each kind in the order written, and then a
  // prefix of the next normal frame; nothing else was mixed in.
  ghost predicate Framed(p: TxPast, remaining: nat) {
    && p.sent <= |p.written| && p.urgent_sent <= |p.urgent|
    && (remaining > 0 ==> p.sent < |p.written| && remaining <= |p.written[p.sent]|)
    && NormalFrames(p.log) == p.written[..p.sent] && PriorityFrames(p.log) == p.urgent[..p.urgent_sent]
    && p.wire == Payload(p.log) + (if remaining == 0 then [] else p.written[p.sent][..Begun(p, remaining)])
  }

  // Stream bytes taken so far: the unsent rest of the frames is the rest of the stream.
  function Taken(p: TxPast, remaining: nat): nat
    requires p.sent <= |p.written| && (remaining > 0 ==> p.sent < |p.written| && remaining <= |p.written[p.sent]|)
  {
    |Flat(p.written[..p.sent])| + Begun(p, remaining)
  }

  lemma {:induction false} FlatAppend(a: seq<Bytes>, b: seq<Bytes>)
    ensures Flat(a + b) == Flat(a) + Flat(b)
  {
    if b == [] {
      assert a + b == a;
    } else {
      var init, last := b[..|b| - 1], b[|b| - 1];
      assert a + b == (a + init) + [last];
      FlatOneMore(a + init, last);
      FlatAppend(a, init);
    }
  }

  // What is not taken is the rest of the current frame and the frames behind it.
  function Unsent(p: TxPast, remaining: nat): Bytes
    requires p.sent <= |p.written| && (remaining > 0 ==> p.sent < |p.written| && remaining <= |p.written[p.sent]|)
  {
    if remaining == 0 then Flat(p.written[p.sent..])
    else p.written[p.sent][Begun(p, remaining)..] + Flat(p.written[p.sent + 1..])
  }

  lemma UnsentInStream(p: TxPast, remaining: nat)
    requires Framed(p, remaining)
    ensures Taken(p, remaining) <= |Flat(p.written)| && Flat(p.written)[Taken(p, remaining)..] == Unsent(p, remaining)
  {
    hide Flat, Payload, NormalFrames, PriorityFrames;
    var before, after := p.written[..p.sent], p.written[p.sent..];
    assert p.written == before + after;
    FlatAppend(before, after);
    assert Flat(p.written)[|Flat(before)|..] == Flat(after);
    if remaining > 0 {
      var frame, rest := p.written[p.sent], p.written[p.sent + 1..];
      assert after == [frame] + rest;
      FlatAppend([frame], rest);
      FlatOne(frame);
      RestOfFirst(Flat(before), frame, Flat(rest), Begun(p, remaining));
    }
  }

  lemma FlatOne(frame: Bytes)
    ensures Flat([frame]) == frame
  {
    assert [frame][..0] == [];
  }

  lemma RestOfFirst(before: Bytes, frame: Bytes, rest: Bytes, begun: nat)
    requires begun <= |frame|
    ensures (before + (frame + rest))[|before| + begun..] == frame[begun..] + rest
  {}

  // Another chunk of the current frame, perhaps its last.
  function Chunked(p: TxPast, remaining: nat, count: nat): TxPast
    requires p.sent < |p.written| && 0 < count <= remaining <= |p.written[p.sent]|
  {
    var frame := p.written[p.sent];
    var q := p.(wire := p.wire + frame[Begun(p, remaining)..Begun(p, remaining) + count]);
    if count == remaining then q.(sent := p.sent + 1, log := p.log + [Normal(frame)]) else q
  }

  lemma ChunkKeepsFrames(p: TxPast, remaining: nat, count: nat)
    requires Framed(p, remaining) && 0 < count <= remaining
    ensures Framed(Chunked(p, remaining, count), remaining - count)
    ensures Taken(Chunked(p, remaining, count), remaining - count) == Taken(p, remaining) + count
    ensures var q := Chunked(p, remaining, count);
            && q.written == p.written && q.urgent == p.urgent && q.urgent_sent == p.urgent_sent
            && q.sent == if count == remaining then p.sent + 1 else p.sent
  {
    hide Flat, Payload, NormalFrames, PriorityFrames;
    var frame, b := p.written[p.sent], Begun(p, remaining);
    FrameInStream(p.written, p.sent);
    WireGrows(Payload(p.log), frame, b, b + count);
    if count == remaining {
      LogOneMore(p.log, Normal(frame));
      assert p.written[..p.sent] + [frame] == p.written[..p.sent + 1];
    }
  }

  lemma WireGrows(sent: Bytes, frame: Bytes, a: nat, b: nat)
    requires a <= b <= |frame|
    ensures (sent + frame[..a]) + frame[a..b] == sent + frame[..b]
    ensures a == 0 ==> sent + frame[a..b] == sent + frame[..b]
    ensures b == |frame| ==> sent + frame[..b] == sent + frame
  {
    assert frame[..a] + frame[a..b] == frame[..b];
    if b == |frame| { assert frame[..b] == frame; }
  }

  // Between two normal frames a priority frame may go out.
  lemma UrgentKeepsFrames(p: TxPast)
    requires Framed(p, 0) && p.urgent_sent < |p.urgent|
    ensures var frame := p.urgent[p.urgent_sent];
            var q := p.(urgent_sent := p.urgent_sent + 1, log := p.log + [Priority(frame)], wire := p.wire + frame);
            Framed(q, 0) && Taken(q, 0) == Taken(p, 0)
  {
    var frame := p.urgent[p.urgent_sent];
    LogOneMore(p.log, Priority(frame));
    assert p.urgent[..p.urgent_sent] + [frame] == p.urgent[..p.urgent_sent + 1];
  }

  lemma SliceOfSlice(s: Bytes, a: nat, b: nat, c: nat, d: nat)
    requires a <= b <= |s| && c <= d <= b - a
    ensures s[a..b][c..d] == s[a + c..a + d]
  {
    var t, u := s[a..b][c..d], s[a + c..a + d];
    assert forall i :: 0 <= i < |t| ==> t[i] == u[i];
  }

  // The bytes of a chunk, found in the stream.
  lemma ChunkInStream(p: TxPast, remaining: nat, count: nat)
    requires Framed(p, remaining) && 0 < count <= remaining
    ensures var at, b := Taken(p, remaining), Begun(p, remaining);
            at + count <= |Flat(p.written)| && b + count <= |p.written[p.sent]|
            && Flat(p.written)[at..at + count] == p.written[p.sent][b..b + count]
  {
    var at, b, start := Taken(p, remaining), Begun(p, remaining), |Flat(p.written[..p.sent])|;
    FrameInStream(p.written, p.sent);
    var frame := p.written[p.sent];
    SliceOfSlice(Flat(p.written), start, start + |frame|, b, b + count);
  }

  lemma WrittenKeepsFrames(p: TxPast, remaining: nat, frame: Bytes)
    requires Framed(p, remaining)
    ensures var q := p.(written := p.written + [frame]);
      Framed(q, remaining) && Taken(q, remaining) == Taken(p, remaining)
    ensures Taken(p, remaining) <= |Flat(p.written)|
  {
    assert (p.written + [frame])[..p.sent] == p.written[..p.sent];
    if remaining > 0 { FrameInStream(p.written, p.sent); } else { FlatPrefix(p.written, p.sent); }
  }

  lemma UrgentWritten(p: TxPast, remaining: nat, frame: Bytes)
    requires Framed(p, remaining)
    ensures var q := p.(urgent := p.urgent + [frame]);
      Framed(q, remaining) && Taken(q, remaining) == Taken(p, remaining)
  {
    assert (p.urgent + [frame])[..p.urgent_sent] == p.urgent[..p.urgent_sent];
  }

  // The frames still waiting are not empty and not too long.
  ghost predicate Sized(frames: seq<Bytes>, from: nat, limit: nat) {
    from <= |frames| && forall k :: from <= k < |frames| ==> 0 < |frames[k]| <= limit
  }

  lemma SizedOneMore(frames: seq<Bytes>, from: nat, limit: nat, frame: Bytes)
    requires Sized(frames, from, limit) && 0 < |frame| <= limit
    ensures Sized(frames + [frame], from, limit)
  {}

  lemma SizedFewer(frames: seq<Bytes>, from: nat, limit: nat)
    requires Sized(frames, from, limit) && from < |frames|
    ensures 0 < |frames[from]| <= limit && Sized(frames, from + 1, limit)
  {}

  lemma LengthsOneMore(frames: seq<Bytes>, frame: Bytes)
    ensures Lengths(frames + [frame]) == Lengths(frames) + [|frame|]
  {}

  lemma CellOf(cells: Bytes, stream: Bytes, j: nat)
    requires |cells| == 256 && Holds(cells, stream, 256) && j < |stream| <= j + 256
    ensures cells[Index(j, 256)] == stream[j]
    ensures Index(j, 256) == if Index(j + 1, 256) == 0 then 255 else Index(j + 1, 256) - 1
    ensures Index(j + 1, 256) == (Index(j, 256) + 1) % 256
  {}

  // The bytes of a ring from its tail on.
  function RingBytes(cells: Bytes, tail: nat, count: nat): Bytes
    requires |cells| > 0
  {
    if count == 0 then [] else RingBytes(cells, tail, count - 1) + [cells[(tail + count - 1) % |cells|]]
  }

  lemma {:induction false} RingBytesAre(cells: Bytes, stream: Bytes, taken: nat, count: nat)
    requires |cells| == 256 && Holds(cells, stream, 256) && taken + count <= |stream| <= taken + 256
    ensures RingBytes(cells, Index(taken, 256), count) == stream[taken..taken + count]
  {
    hide Index, Holds;
    if count > 0 {
      hide RingBytes;
      RingBytesAre(cells, stream, taken, count - 1);
      HeldAt(cells, stream, 256, taken + count - 1);
      RingBytesOneMore(cells, taken, count);
      assert stream[taken..taken + count] == stream[taken..taken + count - 1] + [stream[taken + count - 1]];
    }
  }

  lemma RingBytesOneMore(cells: Bytes, taken: nat, count: nat)
    requires |cells| == 256 && count > 0
    ensures Index(taken + count - 1, 256) < 256
    ensures RingBytes(cells, Index(taken, 256), count) ==
            RingBytes(cells, Index(taken, 256), count - 1) + [cells[Index(taken + count - 1, 256)]]
  {
    hide Index;
    IndexPlus(taken, count - 1);
  }

  lemma IndexPlus(n: nat, k: nat)
    ensures (Index(n, 256) + k) % 256 == Index(n + k, 256)
  {}

  // ---- the transmit side ------------------------------------------------------------------------

  function Lengths(frames: seq<Bytes>): (lengths: seq<nat>)
    ensures |lengths| == |frames|
  {
    seq(|frames|, i requires 0 <= i < |frames| => |frames[i]|)
  }

  class Transmitter {
    const tx_buffer: array<u8>
    const tx_staging: array<u8>
    const tx_frame_lengths: array<nat>
    const priority_queue: array<Bytes>
    var tx_head: u16
    var tx_tail: u16
    var tx_frame_remaining: u16
    var tx_frame_head: u8
    var tx_frame_tail: u8
    var tx_frame_count: u8
    var priority_head: u8
    var priority_tail: u8
    var priority_count: u8
    var initialized: bool
    ghost var past: TxPast

    ghost predicate Shaped() {
      && tx_buffer.Length == 256 && tx_staging.Length == 128 && tx_frame_lengths.Length == 8
      && priority_queue.Length == 4
      && tx_buffer != tx_staging
      && tx_frame_lengths as object != tx_buffer && tx_frame_lengths as object != tx_staging
      && priority_queue as object != tx_buffer && priority_queue as object != tx_staging
      && priority_queue as object != tx_frame_lengths
    }

    ghost predicate Valid()
      reads this, tx_buffer, tx_frame_lengths, priority_queue
    {
      Shaped() && (initialized ==> Framed(past, tx_frame_remaining) && BytesHeld() && FramesHeld() && UrgentHeld())
    }

    // The byte ring holds the unsent rest of the stream.
    ghost predicate BytesHeld()
      requires past.sent <= |past.written|
      requires tx_frame_remaining > 0 ==> past.sent < |past.written| && tx_frame_remaining <= |past.written[past.sent]|
      reads this`past, this`tx_head, this`tx_tail, this`tx_frame_remaining, tx_buffer
    {
      var n, taken := |Flat(past.written)|, Taken(past, tx_frame_remaining);
      && taken <= n <= taken + 255 && tx_head == Index(n, 256) && tx_tail == Index(taken, 256)
      && Holds(tx_buffer[..], Flat(past.written), 256)
    }

    // The lengths of the unsent normal frames.
    ghost predicate FramesHeld()
      reads this`past, this`tx_frame_head, this`tx_frame_tail, this`tx_frame_count, tx_frame_lengths
    {
      && past.sent <= |past.written| <= past.sent + 8 && tx_frame_count == |past.written| - past.sent
      && tx_frame_head == Index(|past.written|, 8) && tx_frame_tail == Index(past.sent, 8)
      && Holds(tx_frame_lengths[..], Lengths(past.written), 8)
      && Sized(past.written, past.sent, 255)
    }

    // The unsent priority frames.
    ghost predicate UrgentHeld()
      reads this`past, this`priority_head, this`priority_tail, this`priority_count, priority_queue
    {
      && past.urgent_sent <= |past.urgent| <= past.urgent_sent + 4 && priority_count == |past.urgent| - past.urgent_sent
      && priority_head == Index(|past.urgent|, 4) && priority_tail == Index(past.urgent_sent, 4)
      && Holds(priority_queue[..], past.urgent, 4)
      && Sized(past.urgent, past.urgent_sent, 110)
    }

    constructor ()
      ensures Valid() && !initialized && fresh(tx_buffer) && fresh(tx_staging)
      ensures fresh(tx_frame_lengths) && fresh(priority_queue)
    {
      tx_head, tx_tail, tx_frame_remaining, tx_frame_head, tx_frame_tail, tx_frame_count := 0, 0, 0, 0, 0, 0;
      priority_head, priority_tail, priority_count, initialized := 0, 0, 0, false;
      past := TxPast([], 0, [], 0, [], []);
      tx_buffer, tx_staging := new u8[256], new u8[128];
      tx_frame_lengths, priority_queue := new nat[8], new Bytes[4](_ => []);
    }

    method ClearIndices()
      modifies this`tx_head, this`tx_tail, this`tx_frame_remaining, this`tx_frame_head, this`tx_frame_tail
      modifies this`tx_frame_count, this`priority_head, this`priority_tail, this`priority_count
      ensures tx_head == 0 && tx_tail == 0 && tx_frame_remaining == 0
      ensures tx_frame_head == 0 && tx_frame_tail == 0 && tx_frame_count == 0
      ensures priority_head == 0 && priority_tail == 0 && priority_count == 0
    {
      tx_head, tx_tail, tx_frame_remaining, tx_frame_head, tx_frame_tail, tx_frame_count := 0, 0, 0, 0, 0, 0;
      priority_head, priority_tail, priority_count := 0, 0, 0;
    }

    method Init(uart_ready: bool)
      requires Valid()
      modifies this
      ensures Valid() && initialized == uart_ready && past == TxPast([], 0, [], 0, [], [])
    {
      hide Holds, Lengths, Index;
      ClearIndices();
      initialized := uart_ready;
      past := TxPast([], 0, [], 0, [], []);
      NothingWritten(tx_buffer[..], 256);
      NothingWritten(tx_frame_lengths[..], 8);
      NothingWritten(priority_queue[..], 4);
      IndexZero();
      assert BytesHeld() && FramesHeld() && UrgentHeld();
    }

    // Takes the whole frame, or nothing of it.
    method Write(data: Bytes) returns (ok: bool)
      requires Valid() && |data| < 0x1_0000
      modifies this`tx_head, this`tx_frame_head, this`tx_frame_count, this`past, tx_buffer, tx_frame_lengths
      ensures Valid()
      ensures initialized ==>
                ok == (data != [] && |past.written| - (if ok then 1 else 0) - past.sent < 8
                       && |data| + old(|Flat(past.written)| - Taken(past, tx_frame_remaining)) <= 255)
      ensures !initialized ==> !ok
      ensures past == if ok then old(past).(written := old(past).written + [data]) else old(past)
    {
      hide Index, Holds, Flat, NormalFrames, PriorityFrames, Payload;
      if !initialized || data == [] || tx_frame_count >= 8 { return false; }
      ghost var stream, taken := Flat(past.written), Taken(past, tx_frame_remaining);
      RingCountIs(|stream|, taken, 256);
      var free_space := 256 - 1 - RingCount(tx_head, tx_tail, 256);
      if |data| > free_space { return false; }
      CopyIn(data, stream);
      FlatOneMore(past.written, data);
      WrittenKeepsFrames(past, tx_frame_remaining, data);
      QueueLength(data);
      return true;
    }

    method CopyIn(data: Bytes, ghost stream: Bytes)
      requires tx_buffer.Length == 256 && tx_head == Index(|stream|, 256) && Holds(tx_buffer[..], stream, 256)
      modifies this`tx_head, tx_buffer
      ensures tx_head == Index(|stream + data|, 256) && Holds(tx_buffer[..], stream + data, 256)
    {
      hide Index, Holds;
      assert stream + data[..0] == stream;
      for index := 0 to |data|
        invariant tx_head == Index(|stream + data[..index]|, 256) && Holds(tx_buffer[..], stream + data[..index], 256)
      {
        ghost var so_far := stream + data[..index];
        Stored(tx_buffer[..], so_far, 256, data[index]);
        assert so_far + [data[index]] == stream + data[..index + 1];
        tx_buffer[tx_head] := data[index];
        tx_head := (tx_head + 1) % 256;
      }
      assert data[..|data|] == data;
    }

    method QueueLength(data: Bytes)
      requires Shaped() && FramesHeld() && 0 < |data| <= 255 && tx_frame_count < 8
      modifies this`tx_frame_head, this`tx_frame_count, this`past, tx_frame_lengths
      ensures FramesHeld() && past == old(past).(written := old(past).written + [data])
    {
      hide Index, Holds, Sized, Lengths;
      ghost var written := past.written;
      SizedOneMore(written, past.sent, 255, data);
      Stored<nat>(tx_frame_lengths[..], Lengths(written), 8, |data|);
      LengthsOneMore(written, data);
      tx_frame_lengths[tx_frame_head] := |data|;
      tx_frame_head, tx_frame_count := (tx_frame_head + 1) % 8, tx_frame_count + 1;
      past := past.(written := written + [data]);
    }

    method WritePriority(data: Bytes) returns (ok: bool)
      requires Valid() && |data| < 0x1_0000
      modifies this`priority_head, this`priority_count, this`past, priority_queue
      ensures Valid()
      ensures ok == (initialized && 0 < |data| <= 110 && old(priority_count) < 4)
      ensures past == if ok then old(past).(urgent := old(past).urgent + [data]) else old(past)
    {
      hide Index, Holds, Flat, NormalFrames, PriorityFrames, Payload;
      if !initialized || data == [] || |data| > 110 { return false; }
      if priority_count >= 4 { return false; }
      UrgentWritten(past, tx_frame_remaining, data);
      QueueUrgent(data);
      return true;
    }

    method QueueUrgent(data: Bytes)
      requires Shaped() && UrgentHeld() && 0 < |data| <= 110 && priority_count < 4
      modifies this`priority_head, this`priority_count, this`past, priority_queue
      ensures UrgentHeld() && past == old(past).(urgent := old(past).urgent + [data])
    {
      hide Index, Holds, Sized;
      ghost var urgent := past.urgent;
      SizedOneMore(urgent, past.urgent_sent, 110, data);
      Stored(priority_queue[..], urgent, 4, data);
      priority_queue[priority_head] := data;
      priority_head, priority_count := (priority_head + 1) % 4, priority_count + 1;
      past := past.(urgent := urgent + [data]);
    }

    // What is still to be taken: bytes of normal frames, and priority frames.
    ghost function Backlog(): int
      requires past.sent <= |past.written|
      requires tx_frame_remaining > 0 ==> past.sent < |past.written| && tx_frame_remaining <= |past.written[past.sent]|
      reads this
    {
      |Flat(past.written)| - Taken(past, tx_frame_remaining) + priority_count
    }

    // ---- handing bytes to the UART -----------------------------------------------------------

    // Moves the next bytes of the ring to the staging buffer.
    method Stage(count: nat, ghost stream: Bytes, ghost taken: nat)
      requires Shaped() && count <= 128 && taken + count <= |stream| <= taken + 255
      requires tx_tail == Index(taken, 256) && Holds(tx_buffer[..], stream, 256)
      modifies this`tx_tail, tx_staging
      ensures tx_staging[..count] == stream[taken..taken + count] && tx_tail == Index(taken + count, 256)
    {
      hide Index, Holds;
      for index := 0 to count
        invariant tx_staging[..index] == stream[taken..taken + index] && tx_tail == Index(taken + index, 256)
      {
        CellOf(tx_buffer[..], stream, taken + index);
        tx_staging[index] := tx_buffer[tx_tail];
        tx_tail := (tx_tail + 1) % 256;
      }
    }

    // Puts a rejected chunk back: the ring is as before.
    method Unstage(count: nat, ghost stream: Bytes, ghost taken: nat)
      requires Shaped() && count <= 128 && taken + count <= |stream| <= taken + 255
      requires tx_tail == Index(taken + count, 256) && Holds(tx_buffer[..], stream, 256)
      requires tx_staging[..count] == stream[taken..taken + count]
      modifies this`tx_tail, tx_buffer
      ensures tx_tail == Index(taken, 256) && Holds(tx_buffer[..], stream, 256)
    {
      hide Index, Holds;
      ghost var held := tx_buffer[..];
      var left: nat := count;
      while left != 0
        invariant left <= count && tx_tail == Index(taken + left, 256) && tx_buffer[..] == held
      {
        CellOf(held, stream, taken + left - 1);
        assert tx_staging[..count][left - 1] == tx_staging[left - 1];
        tx_tail := if tx_tail == 0 then 255 else tx_tail - 1;
        left := left - 1;
        tx_buffer[tx_tail] := tx_staging[left];
      }
    }

    // The UART takes the staged chunk.
    method TakeChunk(count: nat)
      requires Shaped() && Framed(past, tx_frame_remaining) && FramesHeld() && 0 < count <= tx_frame_remaining
      modifies this`tx_frame_remaining, this`tx_frame_tail, this`tx_frame_count, this`past
      ensures past == Chunked(old(past), old(tx_frame_remaining), count)
      ensures tx_frame_remaining == old(tx_frame_remaining) - count && Framed(past, tx_frame_remaining) && FramesHeld()
      ensures Taken(past, tx_frame_remaining) == old(Taken(past, tx_frame_remaining)) + count
      ensures past.written == old(past.written) && past.urgent == old(past.urgent)
      ensures past.urgent_sent == old(past.urgent_sent)
    {
      hide Index, Holds, Flat, Payload, NormalFrames, PriorityFrames, Chunked, Begun, Lengths, Sized;
      SizedFewer(past.written, past.sent, 255);
      NextIndex(past.sent, 8);
      ChunkKeepsFrames(past, tx_frame_remaining, count);
      past := Chunked(past, tx_frame_remaining, count);
      tx_frame_remaining := tx_frame_remaining - count;
      if tx_frame_remaining == 0 {
        tx_frame_tail, tx_frame_count := (tx_frame_tail + 1) % 8, tx_frame_count - 1;
      }
    }

    // The next chunk of the current normal frame, or of the next one.
    method SendChunk(accepts: bool)
      requires Valid() && initialized && tx_frame_count != 0
      modifies this`tx_tail, this`tx_frame_remaining, this`tx_frame_tail, this`tx_frame_count, this`past
      modifies tx_buffer, tx_staging
      ensures Valid()
      ensures old(past.sent) < |old(past.written)|
      ensures var left :=
        if old(tx_frame_remaining) == 0 then |old(past.written)[old(past.sent)]| else old(tx_frame_remaining);
              var count := if left > 128 then 128 else left;
              && 0 < left <= |old(past.written)[old(past.sent)]|
              && tx_frame_remaining == (if accepts then left - count else left)
              && past == if accepts then Chunked(old(past), left, count) else old(past)
      ensures accepts ==> Backlog() < old(Backlog())
    {
      hide Index, Holds, Flat, Payload, NormalFrames, PriorityFrames, Sized, Lengths, Chunked, Begun, RingCount;
      SizedFewer(past.written, past.sent, 255);
      ghost var stream, taken := Flat(past.written), Taken(past, tx_frame_remaining);
      if tx_frame_remaining == 0 {
        FrameStarts(past, tx_frame_lengths[..]);
        tx_frame_remaining := tx_frame_lengths[tx_frame_tail];
      }
      RingCountIs(|stream|, taken, 256);
      var pending := RingCount(tx_head, tx_tail, 256);
      var count := if tx_frame_remaining > 128 then 128 else tx_frame_remaining as nat;
      ChunkInStream(past, tx_frame_remaining, tx_frame_remaining);
      if count > pending { count := pending; }
      Stage(count, stream, taken);
      if accepts {
        TakeChunk(count);
      } else {
        Unstage(count, stream, taken);
      }
    }

    // One pass.  The UART may answer both questions for busy differently, and
    // may take or reject what it is offered.
    method Run(busy_first: bool, busy_second: bool, accepts: bool)
      requires Valid()
      modifies this, tx_buffer, tx_staging
      ensures Valid() && initialized == old(initialized)
      // Nothing is forgotten or made up, and what the UART took stays taken.
      ensures past.written == old(past.written) && past.urgent == old(past.urgent)
      ensures old(past.log) <= past.log && old(past.wire) <= past.wire
      ensures !accepts ==> past == old(past)
      // A priority frame goes out whole, and only between normal frames; otherwise at
      // most 128 bytes of the normal frame whose turn it is, and nothing while busy.
      ensures var left :=
                if old(tx_frame_remaining) == 0 && old(past.sent) < |old(past.written)|
                then |old(past.written)[old(past.sent)]| else old(tx_frame_remaining);
              if initialized && !busy_first && old(tx_frame_remaining) == 0 && old(priority_count) != 0
              then accepts ==> past.log == old(past.log) + [Priority(past.urgent[old(past.urgent_sent)])]
                               && past.urgent_sent == old(past.urgent_sent) + 1 && past.sent == old(past.sent)
              else if initialized && !busy_second && old(tx_frame_count) != 0
              then accepts ==> past == Chunked(old(past), left, if left > 128 then 128 else left)
              else past == old(past) && tx_frame_remaining == old(tx_frame_remaining)
      // Either way there is less to send.
      ensures initialized && !busy_first && !busy_second && accepts && old(tx_frame_count + priority_count) != 0 ==>
                Backlog() < old(Backlog())
    {
      hide Index, Holds, Flat, Payload, NormalFrames, PriorityFrames;
      if !initialized { return; }
      if !busy_first && tx_frame_remaining == 0 && priority_count != 0 {
        if accepts { TakeUrgent(); }
      } else if !busy_second && tx_frame_count != 0 {
        SendChunk(accepts);
      }
    }

    // The pending bytes of the ring are exactly the unsent rest of the queued frames.
    lemma PendingIsUnsent()
      requires Valid() && initialized
      ensures tx_head < 256 && tx_tail < 256
      ensures RingBytes(tx_buffer[..], tx_tail, RingCount(tx_head, tx_tail, 256)) == Unsent(past, tx_frame_remaining)
    {
      hide Index, Holds, Flat, Payload, NormalFrames, PriorityFrames, Sized;
      var stream, taken := Flat(past.written), Taken(past, tx_frame_remaining);
      RingCountIs(|stream|, taken, 256);
      UnsentInStream(past, tx_frame_remaining);
      RingBytesAre(tx_buffer[..], stream, taken, |stream| - taken);
      assert stream[taken..taken + (|stream| - taken)] == stream[taken..];
    }

    // With a willing UART every frame is sent, in order within its kind.
    method Drain()
      requires Valid() && initialized
      modifies this, tx_buffer, tx_staging
      ensures Valid() && past.written == old(past.written) && past.urgent == old(past.urgent)
      ensures NormalFrames(past.log) == past.written && PriorityFrames(past.log) == past.urgent
      ensures past.wire == Payload(past.log)
    {
      hide Holds, Index, Flat, Payload, NormalFrames, PriorityFrames, Sized;
      while tx_frame_count + priority_count != 0
        invariant Valid() && initialized && past.written == old(past.written) && past.urgent == old(past.urgent)
        decreases Backlog()
      {
        Run(false, false, true);
      }
      assert past.written[..past.sent] == past.written && past.urgent[..past.urgent_sent] == past.urgent;
    }

    method TakeUrgent()
      requires Valid() && initialized && tx_frame_remaining == 0 && priority_count != 0
      modifies this`priority_tail, this`priority_count, this`past
      ensures Valid() && old(past.urgent_sent) < |past.urgent| && past.urgent[old(past.urgent_sent)] != []
      ensures var frame := past.urgent[old(past.urgent_sent)];
              past == old(past).(urgent_sent := old(past).urgent_sent + 1, log := old(past).log + [Priority(frame)],
                                 wire := old(past).wire + frame)
      ensures Backlog() < old(Backlog())
    {
      hide Index, Holds, Flat, Payload, NormalFrames, PriorityFrames, Sized;
      NextIndex(past.urgent_sent, 4);
      SizedFewer(past.urgent, past.urgent_sent, 110);
      UrgentKeepsFrames(past);
      HeldAt(priority_queue[..], past.urgent, 4, past.urgent_sent);
      var frame := priority_queue[priority_tail];
      past :=
        past.(urgent_sent := past.urgent_sent + 1, log := past.log + [Priority(frame)], wire := past.wire + frame);
      priority_tail, priority_count := (priority_tail + 1) % 4, priority_count - 1;
    }
  }

  // The length at the tail of the queue is that of the next frame.
  lemma FrameStarts(p: TxPast, lengths: seq<nat>)
    requires Framed(p, 0) && p.sent < |p.written| <= p.sent + 8 && Holds(lengths, Lengths(p.written), 8)
    requires p.written[p.sent] != []
    ensures lengths[Index(p.sent, 8)] == |p.written[p.sent]|
    ensures Framed(p, |p.written[p.sent]|) && Taken(p, |p.written[p.sent]|) == Taken(p, 0)
  {
    hide Flat, Payload, NormalFrames, PriorityFrames;
    HeldAt(lengths, Lengths(p.written), 8, p.sent);
    assert Lengths(p.written)[p.sent] == |p.written[p.sent]|;
  }

  // ---- the receive side -------------------------------------------------------------------------

  class Receiver {
    const rx_buffer: array<u8>
    var rx_head: u16
    var rx_tail: u16
    var rx_overflow: u32
    // The bytes that the interrupt stored, how many were read, and those it dropped.
    ghost var stored: Bytes
    ghost var read: nat
    ghost var dropped: nat

    ghost predicate Valid()
      reads this, rx_buffer
    {
      && rx_buffer.Length == 512 && read <= |stored| <= read + 511
      && rx_head == Index(|stored|, 512) && rx_tail == Index(read, 512)
      && Holds(rx_buffer[..], stored, 512) && rx_overflow == dropped % 0x1_0000_0000
    }

    constructor ()
      ensures Valid() && stored == [] && read == 0 && dropped == 0 && fresh(rx_buffer)
    {
      rx_buffer := new u8[512];
      rx_head, rx_tail, rx_overflow := 0, 0, 0;
      stored, read, dropped := [], 0, 0;
    }

    // The interrupt: a byte is dropped only when 511 are waiting.
    method RxPushFromIsr(byte: u8)
      requires Valid()
      modifies this`rx_head, this`rx_overflow, this`stored, this`dropped, rx_buffer
      ensures Valid()
      ensures if |old(stored)| - read < 511 then stored == old(stored) + [byte] && dropped == old(dropped)
              else stored == old(stored) && dropped == old(dropped) + 1
    {
      hide Holds, Index;
      Stored(rx_buffer[..], stored, 512, byte);
      var next := (rx_head + 1) % 512;
      RingFull(|stored|, read);
      if next == rx_tail {
        rx_overflow := (rx_overflow + 1) % TWO_32;
        dropped := dropped + 1;
        return;
      }
      rx_buffer[rx_head] := byte;
      rx_head := next;
      stored := stored + [byte];
    }

    // The bytes that arrive while the main loop stands at one place.
    method Interrupts(bytes: Bytes)
      requires Valid()
      modifies this`rx_head, this`rx_overflow, this`stored, this`dropped, rx_buffer
      ensures Valid() && old(stored) <= stored && |stored| + dropped == old(|stored| + dropped) + |bytes|
    {
      for k := 0 to |bytes|
        invariant Valid() && old(stored) <= stored && |stored| + dropped == old(|stored| + dropped) + k
      {
        RxPushFromIsr(bytes[k]);
      }
    }

    // The main loop.  Interrupts may come between any two of its steps:
    // `arrivals` lists what comes at each.  It reads the oldest bytes, each once.
    method Read(capacity: u16, arrivals: seq<Bytes>) returns (ok: bool, data: Bytes)
      requires Valid()
      modifies this, rx_buffer
      ensures Valid() && old(stored) <= stored && ok == (capacity != 0)
      ensures read == old(read) + |data| && data == stored[old(read)..read]
      ensures ok ==> |data| >= Min(Min(capacity, 128), |old(stored)| - old(read))
      ensures |data| <= Min(capacity, 128)
      // Every byte that arrived in the meantime was stored or counted as dropped.
      ensures ok ==> |stored| + dropped == old(|stored| + dropped) + Arrived(arrivals, 3 * |data| + 1)
    {
      hide Holds, Index, Arrived, At, RingCount;
      data := [];
      if capacity == 0 { return false, []; }
      var most := Min(capacity, 128);
      FirstArrived(arrivals);
      Interrupts(At(arrivals, 0));
      RingCountIs(|stored|, read, 512);
      var count := Min(RingCount(rx_head, rx_tail, 512), most);
      ghost var seen := stored;
      for index := 0 to count
        invariant Valid() && seen <= stored && |seen| - old(read) >= count
        invariant read == old(read) + index && data == stored[old(read)..read] && |data| == index
        invariant |stored| + dropped == old(|stored| + dropped) + Arrived(arrivals, 3 * index + 1)
      {
        var byte :=
          ReadOne(At(arrivals, 3 * index + 1), At(arrivals, 3 * index + 2), At(arrivals, 3 * index + 3));
        data := data + [byte];
        ThreeMore(arrivals, 3 * index + 1);
      }
      return true, data;
    }

    // One turn of the loop, with what arrives before, amid and behind its first steps.
    method ReadOne(before: Bytes, amid: Bytes, behind: Bytes) returns (byte: u8)
      requires Valid() && read < |stored|
      modifies this, rx_buffer
      ensures Valid() && old(stored) <= stored && read == old(read) + 1 && byte == stored[old(read)]
      ensures |stored| + dropped == old(|stored| + dropped) + |before| + |amid| + |behind|
    {
      hide Holds, Index;
      Interrupts(before);
      HeldAt(rx_buffer[..], stored, 512, read);
      byte := rx_buffer[rx_tail];
      Interrupts(amid);
      Interrupts(behind);
      NextIndex(read, 512);
      rx_tail := (rx_tail + 1) % 512;
      read := read + 1;
    }
  }

  function Min(a: nat, b: nat): (r: nat)
    ensures r <= a && r <= b && (r == a || r == b)
  {
    if a < b then a else b
  }

  // The bytes of the first n arrivals.
  ghost function Arrived(arrivals: seq<Bytes>, n: nat): nat {
    if n == 0 then 0 else Arrived(arrivals, n - 1) + |At(arrivals, n - 1)|
  }

  lemma FirstArrived(arrivals: seq<Bytes>)
    ensures Arrived(arrivals, 1) == |At(arrivals, 0)|
  {
    assert Arrived(arrivals, 0) == 0;
  }

  lemma ThreeMore(arrivals: seq<Bytes>, n: nat)
    ensures Arrived(arrivals, n + 3)
         == Arrived(arrivals, n) + |At(arrivals, n)| + |At(arrivals, n + 1)| + |At(arrivals, n + 2)|
  {
    assert Arrived(arrivals, n + 2) == Arrived(arrivals, n + 1) + |At(arrivals, n + 1)|;
  }

  function At(arrivals: seq<Bytes>, k: nat): Bytes { if k < |arrivals| then arrivals[k] else [] }

  // One cell stays free, so a full ring differs from an empty one.
  lemma RingFull(in_: nat, out: nat)
    requires out <= in_ <= out + 511
    ensures (Index(in_, 512) + 1) % 512 == Index(out, 512) <==> in_ - out == 511
  {}
}
