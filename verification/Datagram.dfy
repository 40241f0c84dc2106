/** Datagrams: frame sets, acknowledgements and negative acknowledgements. */
module Datagrams {
  import opened Integers
  import opened Wrappers
  import opened Wire
  import Frames

  const DATAGRAM_HEADER_LEN: nat := 4
  const FLAG_VALID: nat := 0x80
  const FLAG_ACK: nat := 0x40
  const FLAG_NACK: nat := 0x20
  /** Records one acknowledgement can carry: its count is 16 bits wide. */
  const MAX_RECORDS: nat := 0xffff

  /** An inclusive run of sequence numbers. */
  datatype Range = Range(start: u32, end: u32) {
    predicate Has(sequence: nat) {
      start <= sequence <= end
    }
  }

  datatype Datagram =
    | FrameSet(sequence: u32, frames: seq<Frames.Frame>)
    | Ack(ranges: seq<Range>)
    | Nack(ranges: seq<Range>)

  datatype DatagramError = Truncated(e: DecodeError) | NotConnected(flags: u8) | BadFrame(e: DecodeError)

  /** Whether a sequence number falls in any range. */
  predicate Contains(ranges: seq<Range>, sequence: nat) {
    exists i :: 0 <= i < |ranges| && ranges[i].Has(sequence)
  }

  // Encoding.

  function RecordBytes(r: Range): bytes {
    if r.start == r.end then [1] + U24Bytes(r.start) else [0] + (U24Bytes(r.start) + U24Bytes(r.end))
  }

  function Records(ranges: seq<Range>): bytes {
    if ranges == [] then [] else RecordBytes(ranges[0]) + Records(ranges[1..])
  }

  function AckBytes(flags: u8, ranges: seq<Range>): bytes {
    var count := Min(|ranges|, MAX_RECORDS);
    [flags] + (U16Bytes(count) + Records(ranges[..count]))
  }

  function FramesBytes(frames: seq<Frames.Frame>): bytes {
    if frames == [] then [] else Frames.FrameBytes(frames[0]) + FramesBytes(frames[1..])
  }

  function DatagramBytes(d: Datagram): bytes {
    match d
    case FrameSet(sequence, frames) => [FLAG_VALID] + (U24Bytes(sequence) + FramesBytes(frames))
    case Ack(ranges) => AckBytes(FLAG_VALID + FLAG_ACK, ranges)
    case Nack(ranges) => AckBytes(FLAG_VALID + FLAG_NACK, ranges)
  }

  // Decoding. `acc` is what the loop has collected so far.

  function DecodeRecord(b: bytes): (r: Result<(Range, bytes), DecodeError>) {
    var (single, b) :- ReadU8(b);
    var (start, b) :- ReadU24(b);
    if single == 1 then Success((Range(start, start), b)) else
    var (end, b) :- ReadU24(b);
    Success((Range(start, end), b))
  }

  function DecodeRecords(b: bytes, count: nat, acc: seq<Range>): Result<seq<Range>, DecodeError> {
    if count == 0 then Success(acc) else
    var (range, b) :- DecodeRecord(b);
    DecodeRecords(b, count - 1, acc + [range])
  }

  function DecodeAck(b: bytes): Result<seq<Range>, DecodeError> {
    var (count, b) :- ReadU16(b);
    DecodeRecords(b, count, [])
  }

  /** The loop over the frames of a datagram ends because every frame consumes bytes. */
  function DecodeFrames(b: bytes, acc: seq<Frames.Frame>): Result<seq<Frames.Frame>, DecodeError>
    decreases |b|
  {
    if b == [] then Success(acc) else
    var (frame, b) :- Frames.DecodeFrame(b);
    DecodeFrames(b, acc + [frame])
  }

  function DecodeDatagram(b: bytes): Result<Datagram, DatagramError> {
    match ReadU8(b)
    case Failure(e) => Failure(Truncated(e))
    case Success((flags, b)) =>
      if flags / FLAG_VALID % 2 == 0 then Failure(NotConnected(flags))
      else if flags / FLAG_ACK % 2 == 1 then
        match DecodeAck(b)
        case Failure(e) => Failure(Truncated(e))
        case Success(ranges) => Success(Ack(ranges))
      else if flags / FLAG_NACK % 2 == 1 then
        match DecodeAck(b)
        case Failure(e) => Failure(Truncated(e))
        case Success(ranges) => Success(Nack(ranges))
      else
        match ReadU24(b)
        case Failure(e) => Failure(Truncated(e))
        case Success((sequence, b)) =>
          match DecodeFrames(b, [])
          case Failure(e) => Failure(BadFrame(e))
          case Success(frames) => Success(FrameSet(sequence, frames))
  }

  // Round trips.

  lemma RecordRoundTrip(r: Range, rest: bytes)
    requires r.start < TWO_24 && r.end < TWO_24
    ensures DecodeRecord(RecordBytes(r) + rest) == Success((r, rest))
  {
    hide U24Bytes, ReadU24;
    var b := RecordBytes(r) + rest;
    if r.start == r.end {
      assert b[1..] == U24Bytes(r.start) + rest;
      U24Exact(r.start, rest);
    } else {
      assert b[1..] == U24Bytes(r.start) + (U24Bytes(r.end) + rest);
      U24Exact(r.start, U24Bytes(r.end) + rest);
      U24Exact(r.end, rest);
    }
  }

  lemma {:induction false} RecordsRoundTrip(ranges: seq<Range>, acc: seq<Range>, rest: bytes)
    requires forall r :: r in ranges ==> r.start < TWO_24 && r.end < TWO_24
    ensures DecodeRecords(Records(ranges) + rest, |ranges|, acc) == Success(acc + ranges)
    decreases |ranges|
  {
    if ranges == [] {
      assert acc + ranges == acc;
    } else {
      var tail := Records(ranges[1..]) + rest;
      hide RecordBytes, DecodeRecord;
      Assoc(RecordBytes(ranges[0]), Records(ranges[1..]), rest);
      RecordRoundTrip(ranges[0], tail);
      RecordsRoundTrip(ranges[1..], acc + [ranges[0]], rest);
      HeadTail(ranges);
      Assoc(acc, [ranges[0]], ranges[1..]);
    }
  }

  /** An acknowledgement decodes to its first 65535 ranges. */
  lemma AckRoundTrip(ranges: seq<Range>)
    requires forall r :: r in ranges ==> r.start < TWO_24 && r.end < TWO_24
    ensures DecodeDatagram(DatagramBytes(Ack(ranges))) == Success(Ack(ranges[..Min(|ranges|, MAX_RECORDS)]))
    ensures DecodeDatagram(DatagramBytes(Nack(ranges))) == Success(Nack(ranges[..Min(|ranges|, MAX_RECORDS)]))
  {
    hide U16Bytes, ReadU16, DecodeRecords, Records;
    var count := Min(|ranges|, MAX_RECORDS);
    var sent := ranges[..count];
    var body := U16Bytes(count) + Records(sent);
    U16RoundTrip(count, Records(sent));
    RecordsRoundTrip(sent, [], []);
    assert Records(sent) + [] == Records(sent) && [] + sent == sent;
    assert ([FLAG_VALID + FLAG_ACK] + body)[1..] == body;
    assert ([FLAG_VALID + FLAG_NACK] + body)[1..] == body;
  }

  lemma {:induction false} FramesRoundTrip(frames: seq<Frames.Frame>, acc: seq<Frames.Frame>)
    requires forall f :: f in frames ==> f.Encodable()
    ensures DecodeFrames(FramesBytes(frames), acc) == Success(acc + frames)
    decreases |frames|
  {
    hide Frames.FrameBytes, Frames.DecodeFrame;
    if frames == [] {
      assert acc + frames == acc;
    } else {
      var tail := FramesBytes(frames[1..]);
      Frames.FrameRoundTrip(frames[0], tail);
      FramesRoundTrip(frames[1..], acc + [frames[0]]);
      HeadTail(frames);
      Assoc(acc, [frames[0]], frames[1..]);
    }
  }

  lemma FrameSetBody(sequence: u32, frames: seq<Frames.Frame>)
    requires sequence < TWO_24
    ensures var b := DatagramBytes(FrameSet(sequence, frames));
            DecodeDatagram(b) == match DecodeFrames(FramesBytes(frames), [])
                                 case Failure(e) => Failure(BadFrame(e))
                                 case Success(fs) => Success(FrameSet(sequence, fs))
  {
    hide U24Bytes, ReadU24, DecodeFrames, FramesBytes;
    var body := U24Bytes(sequence) + FramesBytes(frames);
    assert ([FLAG_VALID] + body)[1..] == body;
    U24Exact(sequence, FramesBytes(frames));
  }

  /** Decoding an encoded frame set gives it back: same sequence, same frames, same order. */
  lemma FrameSetRoundTrip(sequence: u32, frames: seq<Frames.Frame>)
    requires sequence < TWO_24 && forall f :: f in frames ==> f.Encodable()
    ensures DecodeDatagram(DatagramBytes(FrameSet(sequence, frames))) == Success(FrameSet(sequence, frames))
  {
    FrameSetBody(sequence, frames);
    FramesRoundTrip(frames, []);
    assert [] + frames == frames;
  }

  /** A datagram whose first frame has no payload is refused whole. */
  lemma EmptyPayloadRefused(sequence: u32, frames: seq<Frames.Frame>)
    requires sequence < TWO_24 && frames != [] && frames[0].payload == []
    ensures DecodeDatagram(DatagramBytes(FrameSet(sequence, frames))) == Failure(BadFrame(EmptyBody))
  {
    FrameSetBody(sequence, frames);
    Frames.EmptyFrameRefused(frames[0], FramesBytes(frames[1..]));
  }

  lemma {:induction false} RecordsAppend(ranges: seq<Range>, r: Range)
    ensures Records(ranges + [r]) == Records(ranges) + RecordBytes(r)
  {
    if ranges != [] {
      RecordsAppend(ranges[1..], r);
      assert (ranges + [r])[1..] == ranges[1..] + [r];
    } else {
      assert Records([r][1..]) == [];
    }
  }

  lemma {:induction false} FramesAppend(frames: seq<Frames.Frame>, f: Frames.Frame)
    ensures FramesBytes(frames + [f]) == FramesBytes(frames) + Frames.FrameBytes(f)
  {
    hide Frames.FrameBytes;
    if frames != [] {
      FramesAppend(frames[1..], f);
      assert (frames + [f])[1..] == frames[1..] + [f];
    } else {
      assert FramesBytes([f][1..]) == [];
    }
  }

  // The codec as buffers and cursors.

  method EncodeRecord(r: Range, w: Writer)
    modifies w
    ensures w.buf == old(w.buf) + RecordBytes(r)
  {
    hide U24Bytes;
    if r.start == r.end {
      w.U8(1);
      w.U24(r.start);
    } else {
      w.U8(0);
      w.U24(r.start);
      w.U24(r.end);
    }
  }

  method EncodeAck(ranges: seq<Range>, w: Writer, flags: u8)
    modifies w
    ensures w.buf == old(w.buf) + AckBytes(flags, ranges)
  {
    hide U16Bytes, RecordBytes;
    w.U8(flags);
    var count := Min(|ranges|, MAX_RECORDS);
    w.U16(count);
    ghost var head := w.buf;
    for i := 0 to count
      invariant w.buf == head + Records(ranges[..i])
    {
      RecordsAppend(ranges[..i], ranges[i]);
      assert ranges[..i + 1] == ranges[..i] + [ranges[i]];
      EncodeRecord(ranges[i], w);
    }
    hide Records;
    assert w.buf == old(w.buf) + ([flags] + (U16Bytes(count) + Records(ranges[..count])));
  }

  method DecodeAckFrom(r: Reader) returns (result: Result<seq<Range>, DecodeError>)
    requires r.Valid()
    modifies r`pos
    ensures r.Valid()
    ensures result == DecodeAck(old(r.Unread()))
  {
    hide ReadU16, ReadU24, ReadU8;
    var count :- r.U16();
    var ranges := [];
    ghost var rest := r.Unread();
    for i := 0 to count
      invariant r.Valid()
      invariant DecodeRecords(r.Unread(), count - i, ranges) == DecodeRecords(rest, count, [])
    {
      var single :- r.U8();
      var start :- r.U24();
      if single == 1 {
        ranges := ranges + [Range(start, start)];
        continue;
      }
      var end :- r.U24();
      ranges := ranges + [Range(start, end)];
    }
    result := Success(ranges);
  }

  method Encode(d: Datagram, w: Writer)
    modifies w
    ensures w.buf == old(w.buf) + DatagramBytes(d)
  {
    hide U24Bytes, Frames.FrameBytes, AckBytes;
    match d
    case FrameSet(sequence, frames) =>
      w.U8(FLAG_VALID);
      w.U24(sequence);
      ghost var head := w.buf;
      for i := 0 to |frames|
        invariant w.buf == head + FramesBytes(frames[..i])
      {
        FramesAppend(frames[..i], frames[i]);
        assert frames[..i + 1] == frames[..i] + [frames[i]];
        Frames.Encode(frames[i], w);
      }
      assert frames[..|frames|] == frames;
    case Ack(ranges) =>
      EncodeAck(ranges, w, FLAG_VALID + FLAG_ACK);
    case Nack(ranges) =>
      EncodeAck(ranges, w, FLAG_VALID + FLAG_NACK);
  }

  /** Reads a datagram with a cursor, to exactly what `DecodeDatagram` makes of the same bytes. */
  method Decode(buf: bytes) returns (result: Result<Datagram, DatagramError>)
    ensures result == DecodeDatagram(buf)
  {
    hide ReadU8, ReadU24, DecodeAck, Frames.DecodeFrame;
    var r := new Reader(buf);
    var first := r.U8();
    if first.Failure? {
      return Failure(Truncated(first.error));
    }
    var flags := first.value;
    if flags / FLAG_VALID % 2 == 0 {
      return Failure(NotConnected(flags));
    }
    if flags / FLAG_ACK % 2 == 1 {
      var ranges := DecodeAckFrom(r);
      return if ranges.Success? then Success(Ack(ranges.value)) else Failure(Truncated(ranges.error));
    }
    if flags / FLAG_NACK % 2 == 1 {
      var ranges := DecodeAckFrom(r);
      return if ranges.Success? then Success(Nack(ranges.value)) else Failure(Truncated(ranges.error));
    }

    var sequence := r.U24();
    if sequence.Failure? {
      return Failure(Truncated(sequence.error));
    }
    var frames := [];
    ghost var rest := r.Unread();
    var remaining := r.Remaining();
    while remaining > 0
      invariant r.Valid() && remaining == |r.Unread()|
      invariant DecodeFrames(r.Unread(), frames) == DecodeFrames(rest, [])
      decreases remaining
    {
      var frame := Frames.Decode(r);
      if frame.Failure? {
        return Failure(BadFrame(frame.error));
      }
      frames := frames + [frame.value];
      remaining := r.Remaining();
    }
    result := Success(FrameSet(sequence.value, frames));
  }
}
