/** Game packets framed inside one RakNet payload. */
module Batches {
  import opened Integers
  import opened Wrappers
  import opened GameBytes
  import Bits

  const MARKER: nat := 0xfe

  datatype Method = ZLib | Snappy | Plain

  function MethodByte(m: Method): u8 {
    match m
    case ZLib => 0x00
    case Snappy => 0x01
    case Plain => 0xff
  }

  function MethodFromByte(b: u8): Option<Method> {
    if b == 0x00 then Some(ZLib) else if b == 0x01 then Some(Snappy) else if b == 0xff then Some(Plain) else None
  }

  /** `sender` and `target` are split-screen players. */
  datatype Packet = Packet(id: u32, sender: u8, target: u8, body: bytes)

  function NewPacket(id: u32, body: bytes): Packet {
    Packet(id, 0, 0, body)
  }

  // Encoding.

  /** The id in ten bits, the two subclients in two each. */
  function Header(p: Packet): (h: u32)
    ensures h == p.id % 0x400 + p.sender % 4 * 0x400 + p.target % 4 * 0x1000
  {
    HeaderFields(p.id % 0x400, p.sender % 4, p.target % 4);
    Bits.Or(Bits.Or(p.id % 0x400, p.sender % 4 * 0x400), p.target % 4 * 0x1000)
  }

  lemma HeaderFields(id: nat, sender: nat, target: nat)
    requires id < 0x400 && sender < 4 && target < 4
    ensures Bits.Or(Bits.Or(id, sender * 0x400), target * 0x1000) == id + sender * 0x400 + target * 0x1000
  {
    assert Bits.Pow2(2) == 4;
    Bits.Pow2Values();
    Bits.Pow2Add(2, 8);
    Bits.Pow2Add(2, 10);
    Bits.OrDisjoint(id, sender, 10);
    Bits.OrDisjoint(id + sender * 0x400, target, 12);
  }

  function PacketBytes(p: Packet): bytes {
    VarintBytes(Header(p)) + p.body
  }

  function StreamBytes(packets: seq<Packet>): bytes
    decreases |packets|
  {
    if packets == [] then [] else PrefixedBytes(PacketBytes(packets[0])) + StreamBytes(packets[1..])
  }

  function BatchBytes(packets: seq<Packet>): bytes {
    [MARKER] + StreamBytes(packets)
  }

  /** After `NetworkSettings` a method byte follows the marker. */
  function BatchBytesWithMethod(packets: seq<Packet>): bytes {
    [MARKER, MethodByte(Plain)] + BatchBytes(packets)[1..]
  }

  // Decoding. `acc` is what the loop has collected so far.

  function PacketFrom(header: nat, body: bytes): Packet {
    Packet(header % 0x400, header / 0x400 % 4, header / 0x1000 % 4, body)
  }

  function DecodePackets(b: bytes, acc: seq<Packet>): Result<seq<Packet>, DecodeError>
    decreases |b|
  {
    if b == [] then Success(acc) else
    var (inner, rest) :- ReadPrefixed(b);
    var (header, body) :- ReadVarint(inner);
    DecodePackets(rest, acc + [PacketFrom(header, body)])
  }

  function DecodeBatch(b: bytes): Result<seq<Packet>, DecodeError> {
    var (marker, b) :- ReadU8(b);
    if marker != MARKER then Failure(UnexpectedEnd(1, 0)) else DecodePackets(b, [])
  }

  /** A batch in a method that cannot be read yet gives no packets. */
  function DecodeBatchWithMethod(b: bytes): Result<(Method, seq<Packet>), DecodeError> {
    var (marker, b) :- ReadU8(b);
    if marker != MARKER then Failure(UnexpectedEnd(1, 0)) else
    var (byte, b) :- ReadU8(b);
    match MethodFromByte(byte)
    case None => Failure(UnexpectedEnd(1, 0))
    case Some(named) =>
      if named != Plain then Success((named, [])) else
      var packets :- DecodePackets(b, []);
      Success((named, packets))
  }

  // The round trip.

  /** What the header has room for. */
  function Trimmed(p: Packet): Packet {
    p.(id := p.id % 0x400, sender := p.sender % 4, target := p.target % 4)
  }

  function TrimmedAll(packets: seq<Packet>): (trimmed: seq<Packet>)
    ensures |trimmed| == |packets|
    ensures forall i :: 0 <= i < |packets| ==> trimmed[i] == Trimmed(packets[i])
  {
    seq(|packets|, i requires 0 <= i < |packets| => Trimmed(packets[i]))
  }

  /** Short enough for a 32-bit length. */
  predicate Framable(p: Packet) {
    |PacketBytes(p)| < TWO_32
  }

  lemma HeaderReadsBack(p: Packet)
    ensures PacketFrom(Header(p), p.body) == Trimmed(p)
  {
    FieldsReadBack(p.id % 0x400, p.sender % 4, p.target % 4);
    hide Bits.Or;
  }

  lemma FieldsReadBack(id: nat, sender: nat, target: nat)
    requires id < 0x400 && sender < 4 && target < 4
    ensures var h := id + sender * 0x400 + target * 0x1000;
            h % 0x400 == id && h / 0x400 % 4 == sender && h / 0x1000 % 4 == target
  {
  }

  lemma OnePacketReadsBack(p: Packet, rest: bytes, acc: seq<Packet>)
    requires Framable(p)
    ensures DecodePackets(PrefixedBytes(PacketBytes(p)) + rest, acc) == DecodePackets(rest, acc + [Trimmed(p)])
  {
    var b := PrefixedBytes(PacketBytes(p)) + rest;
    PrefixedRoundTrip(PacketBytes(p), rest);
    VarintRoundTrip(Header(p), p.body);
    HeaderReadsBack(p);
    assert b != [];
    hide ReadPrefixed, ReadVarint, PrefixedBytes, VarintBytes, Header, PacketFrom, Trimmed;
  }

  lemma {:induction false} StreamReadsBack(packets: seq<Packet>, acc: seq<Packet>)
    requires forall i :: 0 <= i < |packets| ==> Framable(packets[i])
    ensures DecodePackets(StreamBytes(packets), acc) == Success(acc + TrimmedAll(packets))
    decreases |packets|
  {
    if packets == [] {
      assert acc + [] == acc;
    } else {
      var p, tail := packets[0], packets[1..];
      assert StreamBytes(packets) == PrefixedBytes(PacketBytes(p)) + StreamBytes(tail);
      TrimmedHeadTail(packets);
      hide DecodePackets, StreamBytes, PrefixedBytes, PacketBytes, TrimmedAll, Trimmed;
      OnePacketReadsBack(p, StreamBytes(tail), acc);
      StreamReadsBack(tail, acc + [Trimmed(p)]);
      Assoc(acc, [Trimmed(p)], TrimmedAll(tail));
    }
  }

  lemma TrimmedHeadTail(packets: seq<Packet>)
    requires packets != []
    ensures TrimmedAll(packets) == [Trimmed(packets[0])] + TrimmedAll(packets[1..])
  {
    hide Trimmed;
  }

  /** A decoded batch is the packets encoded, in order, their ids and subclients cut to the header's
      ten and two bits; so it is the packets themselves exactly when those fit. */
  lemma BatchRoundTrips(packets: seq<Packet>)
    requires forall i :: 0 <= i < |packets| ==> Framable(packets[i])
    ensures DecodeBatch(BatchBytes(packets)) == Success(TrimmedAll(packets))
    ensures DecodeBatchWithMethod(BatchBytesWithMethod(packets)) == Success((Plain, TrimmedAll(packets)))
    ensures TrimmedAll(packets) == packets
       <==> forall i :: 0 <= i < |packets| ==> packets[i].id < 0x400 && packets[i].sender < 4 && packets[i].target < 4
  {
    hide DecodePackets, StreamBytes, TrimmedAll, BatchBytesWithMethod, Framable;
    StreamReadsBack(packets, []);
    TrimmedIsExact(packets);
    assert [] + TrimmedAll(packets) == TrimmedAll(packets);
    MethodFollowsMarker(packets);
    ByteFirst(MARKER, StreamBytes(packets));
    ByteFirst(MARKER, [MethodByte(Plain)] + StreamBytes(packets));
    ByteFirst(MethodByte(Plain), StreamBytes(packets));
    hide ReadU8;
  }

  lemma MethodFollowsMarker(packets: seq<Packet>)
    ensures BatchBytesWithMethod(packets) == [MARKER] + ([MethodByte(Plain)] + StreamBytes(packets))
  {
    assert BatchBytes(packets)[1..] == StreamBytes(packets);
  }

  lemma TrimmedIsExact(packets: seq<Packet>)
    ensures TrimmedAll(packets) == packets
       <==> forall i :: 0 <= i < |packets| ==> packets[i].id < 0x400 && packets[i].sender < 4 && packets[i].target < 4
  {
    forall i | 0 <= i < |packets|
      ensures Trimmed(packets[i]) == packets[i] <==> packets[i].id < 0x400 && packets[i].sender < 4 && packets[i].target < 4
    {
      TrimmedStays(packets[i]);
    }
    hide Trimmed;
    if forall i :: 0 <= i < |packets| ==> Trimmed(packets[i]) == packets[i] {
      assert TrimmedAll(packets) == packets;
    }
  }

  lemma TrimmedStays(p: Packet)
    ensures Trimmed(p) == p <==> p.id < 0x400 && p.sender < 4 && p.target < 4
  {
  }

  // The codec as buffers and cursors.

  lemma {:induction false} StreamAppend(packets: seq<Packet>, p: Packet)
    ensures StreamBytes(packets + [p]) == StreamBytes(packets) + PrefixedBytes(PacketBytes(p))
    decreases |packets|
  {
    hide PrefixedBytes, PacketBytes;
    if packets == [] {
      assert StreamBytes([p][1..]) == [];
    } else {
      StreamAppend(packets[1..], p);
      assert (packets + [p])[1..] == packets[1..] + [p];
      Assoc(PrefixedBytes(PacketBytes(packets[0])), StreamBytes(packets[1..]), PrefixedBytes(PacketBytes(p)));
    }
  }

  method Encode(packets: seq<Packet>) returns (b: bytes)
    ensures b == BatchBytes(packets)
  {
    hide PrefixedBytes, VarintBytes, Header;
    var out := new Writer();
    out.U8(MARKER);
    for i := 0 to |packets|
      invariant out.buf == [MARKER] + StreamBytes(packets[..i])
    {
      var inner := new Writer();
      inner.Varint(Header(packets[i]));
      inner.Bytes(packets[i].body);
      assert [] + VarintBytes(Header(packets[i])) == VarintBytes(Header(packets[i]));
      assert inner.buf == PacketBytes(packets[i]);
      StreamAppend(packets[..i], packets[i]);
      assert packets[..i + 1] == packets[..i] + [packets[i]];
      Assoc([MARKER], StreamBytes(packets[..i]), PrefixedBytes(PacketBytes(packets[i])));
      out.Prefixed(inner.buf);
    }
    assert packets[..|packets|] == packets;
    b := out.buf;
  }

  method EncodeWithMethod(packets: seq<Packet>) returns (b: bytes)
    ensures b == BatchBytesWithMethod(packets)
  {
    var body := Encode(packets);
    var out := new Writer();
    out.U8(MARKER);
    out.U8(MethodByte(Plain));
    out.Bytes(body[1..]);
    b := out.buf;
    assert b == [MARKER, MethodByte(Plain)] + body[1..];
  }

  method DecodePacketsFrom(r: Reader) returns (result: Result<seq<Packet>, DecodeError>)
    requires r.Valid()
    modifies r`pos
    ensures r.Valid()
    ensures result == DecodePackets(old(r.Unread()), [])
  {
    hide ReadPrefixed, ReadVarint, PacketFrom;
    var packets := [];
    var remaining := r.Remaining();
    while remaining > 0
      invariant r.Valid() && remaining == |r.Unread()|
      invariant DecodePackets(r.Unread(), packets) == DecodePackets(old(r.Unread()), [])
      decreases remaining
    {
      var framed :- r.Prefixed();
      var inner := new Reader(framed);
      var header :- inner.Varint();
      var left := inner.Remaining();
      ghost var rest := inner.Unread();
      assert rest[..left] == rest;
      var body := inner.Bytes(left);
      packets := packets + [PacketFrom(header, body.value)];
      remaining := r.Remaining();
    }
    result := Success(packets);
  }

  method Decode(b: bytes) returns (result: Result<seq<Packet>, DecodeError>)
    ensures result == DecodeBatch(b)
  {
    hide DecodePackets;
    var r := new Reader(b);
    var marker :- r.U8();
    if marker != MARKER {
      return Failure(UnexpectedEnd(1, 0));
    }
    result := DecodePacketsFrom(r);
  }

  method DecodeWithMethod(b: bytes) returns (result: Result<(Method, seq<Packet>), DecodeError>)
    ensures result == DecodeBatchWithMethod(b)
  {
    hide DecodePackets;
    var r := new Reader(b);
    var marker :- r.U8();
    if marker != MARKER {
      return Failure(UnexpectedEnd(1, 0));
    }
    var byte :- r.U8();
    var named := MethodFromByte(byte);
    if named.None? {
      return Failure(UnexpectedEnd(1, 0));
    }
    if named.value != Plain {
      return Success((named.value, []));
    }
    var packets :- DecodePacketsFrom(r);
    result := Success((named.value, packets));
  }
}
