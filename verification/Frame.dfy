/** Frames: a payload or one fragment of it, with its indices, as a flags byte, fields and a body. */
module Frames {
  import opened Integers
  import opened Wrappers
  import opened Wire
  import Bits

  const SPLIT_FLAG: nat := 0x10
  /** Largest payload the bit-length field can state exactly. */
  const MAX_FRAME_PAYLOAD: nat := 0xffff / 8

  datatype Reliability =
    | Unreliable
    | UnreliableSequenced
    | Reliable
    | ReliableOrdered
    | ReliableSequenced
    | UnreliableAckReceipt
    | ReliableAckReceipt
    | ReliableOrderedAckReceipt
  {
    function Code(): (c: nat)
      ensures c < 8 && FromCode(c) == this
    {
      match this
      case Unreliable => 0
      case UnreliableSequenced => 1
      case Reliable => 2
      case ReliableOrdered => 3
      case ReliableSequenced => 4
      case UnreliableAckReceipt => 5
      case ReliableAckReceipt => 6
      case ReliableOrderedAckReceipt => 7
    }

    static function FromCode(c: nat): Reliability
      requires c < 8
    {
      [Unreliable, UnreliableSequenced, Reliable, ReliableOrdered, ReliableSequenced,
       UnreliableAckReceipt, ReliableAckReceipt, ReliableOrderedAckReceipt][c]
    }

    predicate IsReliable() {
      Reliable? || ReliableOrdered? || ReliableSequenced? || ReliableAckReceipt? || ReliableOrderedAckReceipt?
    }

    predicate IsSequenced() {
      UnreliableSequenced? || ReliableSequenced?
    }

    predicate IsOrdered() {
      IsSequenced() || ReliableOrdered? || ReliableOrderedAckReceipt?
    }
  }

  /** Fragment `index` of the `count` that payload `id` was cut into. */
  datatype Split = Split(count: u32, id: u16, index: u32)

  datatype Frame = Frame(
    reliability: Reliability,
    reliableIndex: u32,
    sequenceIndex: u32,
    orderIndex: u32,
    orderChannel: u8,
    split: Option<Split>,
    payload: bytes)
  {
    /** What the wire format can carry: 24-bit indices, fields the reliability does not use at
        zero, and a payload whose bit length fits and is not zero. */
    predicate Encodable() {
      && reliableIndex < TWO_24 && sequenceIndex < TWO_24 && orderIndex < TWO_24
      && (!reliability.IsReliable() ==> reliableIndex == 0)
      && (!reliability.IsSequenced() ==> sequenceIndex == 0)
      && (!reliability.IsOrdered() ==> orderIndex == 0 && orderChannel == 0)
      && 0 < |payload| <= MAX_FRAME_PAYLOAD
    }
  }

  function NewFrame(reliability: Reliability, payload: bytes): Frame {
    Frame(reliability, 0, 0, 0, 0, None, payload)
  }

  function HeaderLen(reliability: Reliability, split: bool): nat {
    3 + (if reliability.IsReliable() then 3 else 0)
    + (if reliability.IsSequenced() then 3 else 0)
    + (if reliability.IsOrdered() then 4 else 0)
    + (if split then 10 else 0)
  }

  function EncodedLen(f: Frame): nat {
    HeaderLen(f.reliability, f.split.Some?) + |f.payload|
  }

  // What one frame puts on the wire, field by field.

  function Flags(f: Frame): u8 {
    f.reliability.Code() * 0x20 + (if f.split.Some? then SPLIT_FLAG else 0)
  }

  /** The length field counts bits and saturates. */
  function BitLength(len: nat): u16 {
    if len * 8 <= 0xffff then len * 8 else 0xffff
  }

  /** A bit count that is not a whole number of bytes rounds up. */
  function ByteLength(bits: nat): nat {
    (bits + 7) / 8
  }

  function U24If(present: bool, v: u32): bytes {
    if present then U24Bytes(v) else []
  }

  function OrderBytes(f: Frame): bytes {
    if f.reliability.IsOrdered() then U24Bytes(f.orderIndex) + [f.orderChannel] else []
  }

  function SplitBytes(split: Option<Split>): bytes {
    match split
    case None => []
    case Some(s) => U32Bytes(s.count) + (U16Bytes(s.id) + U32Bytes(s.index))
  }

  function FrameBytes(f: Frame): (b: bytes)
    ensures |b| == EncodedLen(f)
  {
    [Flags(f)] + (U16Bytes(BitLength(|f.payload|))
                  + (U24If(f.reliability.IsReliable(), f.reliableIndex)
                     + (U24If(f.reliability.IsSequenced(), f.sequenceIndex)
                        + (OrderBytes(f) + (SplitBytes(f.split) + f.payload)))))
  }

  // What decoding takes back.

  function ReadU24If(present: bool, b: bytes): (r: Result<(u32, bytes), DecodeError>)
    ensures r.Success? ==> |r.value.1| <= |b|
  {
    if present then ReadU24(b) else Success((0, b))
  }

  function ReadOrder(present: bool, b: bytes): (r: Result<(u32, u8, bytes), DecodeError>)
    ensures r.Success? ==> |r.value.2| <= |b|
  {
    if !present then Success((0, 0, b)) else
    var (index, b) :- ReadU24(b);
    var (channel, b) :- ReadU8(b);
    Success((index, channel, b))
  }

  function ReadSplit(present: bool, b: bytes): (r: Result<(Option<Split>, bytes), DecodeError>)
    ensures r.Success? ==> |r.value.1| <= |b|
  {
    if !present then Success((None, b)) else
    var (count, b) :- ReadU32(b);
    var (id, b) :- ReadU16(b);
    var (index, b) :- ReadU32(b);
    Success((Some(Split(count, id, index)), b))
  }

  /** Reads one frame; every success consumes at least the three bytes of flags and length, so a
      loop over the frames of a datagram ends. */
  function DecodeFrame(b: bytes): (r: Result<(Frame, bytes), DecodeError>)
    ensures r.Success? ==> |r.value.1| + 3 < |b|
  {
    var (flags, b) :- ReadU8(b);
    var reliability := Reliability.FromCode(flags / 0x20);
    var isSplit := flags / SPLIT_FLAG % 2 == 1;
    var (bits, b) :- ReadU16(b);
    if bits == 0 then Failure(EmptyBody) else
    var len := ByteLength(bits);
    var (reliableIndex, b) :- ReadU24If(reliability.IsReliable(), b);
    var (sequenceIndex, b) :- ReadU24If(reliability.IsSequenced(), b);
    var (orderIndex, orderChannel, b) :- ReadOrder(reliability.IsOrdered(), b);
    var (split, b) :- ReadSplit(isSplit, b);
    var (payload, b) :- Take(b, len);
    Success((Frame(reliability, reliableIndex, sequenceIndex, orderIndex, orderChannel, split, payload), b))
  }

  lemma U24IfRoundTrip(present: bool, v: u32, rest: bytes)
    requires v < TWO_24 && (!present ==> v == 0)
    ensures ReadU24If(present, U24If(present, v) + rest) == Success((v, rest))
  {
    hide U24Bytes, ReadU24;
    U24Exact(v, rest);
    assert [] + rest == rest;
  }

  lemma OrderRoundTrip(f: Frame, rest: bytes)
    requires f.Encodable()
    ensures ReadOrder(f.reliability.IsOrdered(), OrderBytes(f) + rest)
         == Success((f.orderIndex, f.orderChannel, rest))
  {
    hide U24Bytes, ReadU24;
    if f.reliability.IsOrdered() {
      var tail := [f.orderChannel] + rest;
      assert OrderBytes(f) + rest == U24Bytes(f.orderIndex) + tail;
      U24Exact(f.orderIndex, tail);
      assert tail[1..] == rest;
    } else {
      assert [] + rest == rest;
    }
  }

  lemma SplitRoundTrip(split: Option<Split>, rest: bytes)
    ensures ReadSplit(split.Some?, SplitBytes(split) + rest) == Success((split, rest))
  {
    match split
    case None =>
      assert [] + rest == rest;
    case Some(s) =>
      var tail2 := U32Bytes(s.index) + rest;
      var tail1 := U16Bytes(s.id) + tail2;
      assert SplitBytes(split) + rest == U32Bytes(s.count) + tail1;
      U32RoundTrip(s.count, tail1);
      U16RoundTrip(s.id, tail2);
      U32RoundTrip(s.index, rest);
  }

  lemma FlagsRoundTrip(f: Frame)
    ensures Reliability.FromCode(Flags(f) / 0x20) == f.reliability
    ensures (Flags(f) / SPLIT_FLAG % 2 == 1) == f.split.Some?
  {
  }

  /** Decoding an encoded frame gives it back and stops exactly at its end, whatever follows. */
  lemma FrameRoundTrip(f: Frame, rest: bytes)
    requires f.Encodable()
    ensures DecodeFrame(FrameBytes(f) + rest) == Success((f, rest))
  {
    hide U24If, OrderBytes, SplitBytes, U16Bytes, Flags, FrameBytes, ReadU24If, ReadOrder, ReadSplit, ReadU16;
    var t5 := f.payload + rest;
    var t4 := SplitBytes(f.split) + t5;
    var t3 := OrderBytes(f) + t4;
    var t2 := U24If(f.reliability.IsSequenced(), f.sequenceIndex) + t3;
    var t1 := U24If(f.reliability.IsReliable(), f.reliableIndex) + t2;
    var t0 := U16Bytes(BitLength(|f.payload|)) + t1;
    Layout(f, rest);
    assert ([Flags(f)] + t0)[1..] == t0;
    FlagsRoundTrip(f);
    U16RoundTrip(BitLength(|f.payload|), t1);
    U24IfRoundTrip(f.reliability.IsReliable(), f.reliableIndex, t2);
    U24IfRoundTrip(f.reliability.IsSequenced(), f.sequenceIndex, t3);
    OrderRoundTrip(f, t4);
    SplitRoundTrip(f.split, t5);
    assert t5[..|f.payload|] == f.payload && t5[|f.payload|..] == rest;
  }

  lemma Layout(f: Frame, rest: bytes)
    ensures FrameBytes(f) + rest
         == [Flags(f)] + (U16Bytes(BitLength(|f.payload|))
                          + (U24If(f.reliability.IsReliable(), f.reliableIndex)
                             + (U24If(f.reliability.IsSequenced(), f.sequenceIndex)
                                + (OrderBytes(f) + (SplitBytes(f.split) + (f.payload + rest))))))
  {
    hide Flags, U24If, OrderBytes, SplitBytes, U16Bytes, BitLength;
    var t5 := f.payload;
    var t4 := SplitBytes(f.split) + t5;
    var t3 := OrderBytes(f) + t4;
    var t2 := U24If(f.reliability.IsSequenced(), f.sequenceIndex) + t3;
    var t1 := U24If(f.reliability.IsReliable(), f.reliableIndex) + t2;
    var t0 := U16Bytes(BitLength(|f.payload|)) + t1;
    Assoc([Flags(f)], t0, rest);
    Assoc(U16Bytes(BitLength(|f.payload|)), t1, rest);
    Assoc(U24If(f.reliability.IsReliable(), f.reliableIndex), t2, rest);
    Assoc(U24If(f.reliability.IsSequenced(), f.sequenceIndex), t3, rest);
    Assoc(OrderBytes(f), t4, rest);
    Assoc(SplitBytes(f.split), t5, rest);
  }

  /** A frame with no payload does not decode: its bit length is zero. */
  lemma EmptyFrameRefused(f: Frame, rest: bytes)
    requires f.payload == []
    ensures DecodeFrame(FrameBytes(f) + rest) == Failure(EmptyBody)
  {
    var b := FrameBytes(f) + rest;
    var t1 := b[3..];
    assert b[1..] == U16Bytes(0) + t1;
    U16RoundTrip(0, t1);
  }

  /** The flag byte, built the way it is written: shifted, then OR-ed. */
  lemma FlagsAreDisjoint(f: Frame)
    ensures Bits.Or(f.reliability.Code() * 0x20, SPLIT_FLAG) == f.reliability.Code() * 0x20 + SPLIT_FLAG
  {
    Bits.Pow2Values();
    Bits.OrDisjoint(SPLIT_FLAG, f.reliability.Code(), 5);
    Bits.OrSymmetric(f.reliability.Code() * 0x20, SPLIT_FLAG);
  }

  lemma InOneRow(start: bytes, f: Frame, reliable: bytes, sequenced: bytes, order: bytes, split: bytes)
    requires reliable == U24If(f.reliability.IsReliable(), f.reliableIndex)
    requires sequenced == U24If(f.reliability.IsSequenced(), f.sequenceIndex)
    requires order == OrderBytes(f) && split == SplitBytes(f.split)
    ensures start + [Flags(f)] + U16Bytes(BitLength(|f.payload|)) + reliable + sequenced + order + split + f.payload
         == start + FrameBytes(f)
  {
    hide U24If, OrderBytes, SplitBytes, U16Bytes, Flags, BitLength;
    var len := U16Bytes(BitLength(|f.payload|));
    var t4 := split + f.payload;
    var t3 := order + t4;
    var t2 := sequenced + t3;
    var t1 := reliable + t2;
    Assoc(start, [Flags(f)], len + t1);
    Assoc(start + [Flags(f)], len, t1);
    Assoc(start + [Flags(f)] + len, reliable, t2);
    Assoc(start + [Flags(f)] + len + reliable, sequenced, t3);
    Assoc(start + [Flags(f)] + len + reliable + sequenced, order, t4);
    Assoc(start + [Flags(f)] + len + reliable + sequenced + order, split, f.payload);
  }

  /** The indices the reliability calls for. */
  method EncodeIndices(f: Frame, w: Writer)
    modifies w
    ensures w.buf == old(w.buf) + U24If(f.reliability.IsReliable(), f.reliableIndex)
                     + U24If(f.reliability.IsSequenced(), f.sequenceIndex) + OrderBytes(f)
  {
    hide U24Bytes;
    if f.reliability.IsReliable() {
      w.U24(f.reliableIndex);
    }
    if f.reliability.IsSequenced() {
      w.U24(f.sequenceIndex);
    }
    if f.reliability.IsOrdered() {
      w.U24(f.orderIndex);
      w.U8(f.orderChannel);
    }
  }

  method EncodeSplit(split: Option<Split>, w: Writer)
    modifies w
    ensures w.buf == old(w.buf) + SplitBytes(split)
  {
    hide U16Bytes, U32Bytes;
    if split.Some? {
      w.U32(split.value.count);
      w.U16(split.value.id);
      w.U32(split.value.index);
    }
  }

  /** Appends a frame. */
  method Encode(f: Frame, w: Writer)
    modifies w
    ensures w.buf == old(w.buf) + FrameBytes(f)
  {
    var flags := f.reliability.Code() * 0x20;
    if f.split.Some? {
      FlagsAreDisjoint(f);
      flags := Bits.Or(flags, SPLIT_FLAG);
    }
    assert flags == Flags(f);
    ghost var start := w.buf;
    hide Flags, U24If, OrderBytes, SplitBytes, U16Bytes, BitLength, Bits.Or, FrameBytes;
    w.U8(flags);
    w.U16(BitLength(|f.payload|));
    EncodeIndices(f, w);
    EncodeSplit(f.split, w);
    w.Bytes(f.payload);
    InOneRow(start, f, U24If(f.reliability.IsReliable(), f.reliableIndex),
             U24If(f.reliability.IsSequenced(), f.sequenceIndex), OrderBytes(f), SplitBytes(f.split));
  }

  /** Reads one frame, leaving the reader at the next. */
  method Decode(r: Reader) returns (result: Result<Frame, DecodeError>)
    requires r.Valid()
    modifies r`pos
    ensures r.Valid()
    ensures match DecodeFrame(old(r.Unread()))
            case Success((f, rest)) => result == Success(f) && r.Unread() == rest
            case Failure(e) => result == Failure(e)
  {
    hide ReadU8, ReadU16, ReadU24, ReadU32, Take, ByteLength;
    var flags :- r.U8();
    var reliability := Reliability.FromCode(flags / 0x20);
    var isSplit := flags / SPLIT_FLAG % 2 == 1;

    var bits :- r.U16();
    if bits == 0 {
      return Failure(EmptyBody);
    }
    var len := ByteLength(bits);

    var frame := NewFrame(reliability, []);
    if reliability.IsReliable() {
      var index :- r.U24();
      frame := frame.(reliableIndex := index);
    }
    if reliability.IsSequenced() {
      var index :- r.U24();
      frame := frame.(sequenceIndex := index);
    }
    if reliability.IsOrdered() {
      var index :- r.U24();
      var channel :- r.U8();
      frame := frame.(orderIndex := index, orderChannel := channel);
    }
    if isSplit {
      var count :- r.U32();
      var id :- r.U16();
      var index :- r.U32();
      frame := frame.(split := Some(Split(count, id, index)));
    }
    var payload :- r.Bytes(len);
    result := Success(frame.(payload := payload));
  }
}
