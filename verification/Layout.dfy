/** The wire, byte by byte: what each format puts where, in numbers. A codec that only agreed with itself
    would not meet this. */
module Layout {
  import opened Integers
  import opened Wrappers
  import Wire
  import Frames
  import Datagrams
  import GameBytes
  import Batches
  import Bits
  import LevelChunks
  import Subchunks

  // Integers.

  function Big2(v: nat): bytes
    requires v < 0x1_0000
  {
    [v / 0x100, v % 0x100]
  }

  function Big4(v: nat): bytes
    requires v < 0x1_0000_0000
  {
    [v / 0x100_0000, v / 0x1_0000 % 0x100, v / 0x100 % 0x100, v % 0x100]
  }

  function Little3(v: nat): bytes
    requires v < 0x100_0000
  {
    [v % 0x100, v / 0x100 % 0x100, v / 0x1_0000]
  }

  lemma U16Is(v: u16)
    ensures Wire.U16Bytes(v) == Big2(v)
  {
  }

  lemma U32Is(v: u32)
    ensures Wire.U32Bytes(v) == Big4(v)
  {
    assert v / 0x1_0000 / 0x100 == v / 0x100_0000;
    assert v % 0x1_0000 / 0x100 == v / 0x100 % 0x100;
    assert v % 0x1_0000 % 0x100 == v % 0x100;
  }

  lemma U24Is(v: u32)
    requires v < 0x100_0000
    ensures Wire.U24Bytes(v) == Little3(v)
  {
  }

  // Frames.

  /** The three bits a reliability goes out as. */
  function CodeOf(r: Frames.Reliability): nat {
    if r == Frames.Unreliable then 0 else if r == Frames.UnreliableSequenced then 1
    else if r == Frames.Reliable then 2 else if r == Frames.ReliableOrdered then 3
    else if r == Frames.ReliableSequenced then 4 else if r == Frames.UnreliableAckReceipt then 5
    else if r == Frames.ReliableAckReceipt then 6 else 7
  }

  function FragmentFields(split: Option<Frames.Split>): bytes {
    match split
    case None => []
    case Some(s) => Big4(s.count) + (Big2(s.id) + Big4(s.index))
  }

  /** A flags byte, the length in bits, the indices the reliability calls for, the fragment if it is one,
      and the payload. */
  lemma FrameLayout(f: Frames.Frame)
    requires f.Encodable()
    ensures var code := CodeOf(f.reliability);
            && Frames.Flags(f) == code * 32 + (if f.split.Some? then 16 else 0)
            && Frames.FrameBytes(f)
               == [Frames.Flags(f)]
                  + (Big2(8 * |f.payload|)
                     + ((if code in {2, 3, 4, 6, 7} then Little3(f.reliableIndex) else [])
                        + ((if code in {1, 4} then Little3(f.sequenceIndex) else [])
                           + ((if code in {1, 3, 4, 7} then Little3(f.orderIndex) + [f.orderChannel] else [])
                              + (FragmentFields(f.split) + f.payload)))))
  {
    U16Is(8 * |f.payload|);
    U24Is(f.reliableIndex);
    U24Is(f.sequenceIndex);
    U24Is(f.orderIndex);
    FragmentIs(f.split);
    hide Wire.U16Bytes, Wire.U24Bytes, Frames.SplitBytes, FragmentFields, Big2, Little3;
  }

  lemma FragmentIs(split: Option<Frames.Split>)
    ensures Frames.SplitBytes(split) == FragmentFields(split)
  {
    hide Wire.U16Bytes, Wire.U32Bytes, Big2, Big4;
    if split.Some? {
      U32Is(split.value.count);
      U16Is(split.value.id);
      U32Is(split.value.index);
    }
  }

  // Datagrams.

  /** What kind of datagram the first byte announces, and that nothing else decides it. */
  lemma FirstByteDecides(b: bytes)
    requires b != []
    ensures var decoded := Datagrams.DecodeDatagram(b);
            && (b[0] < 0x80 ==> decoded == Failure(Datagrams.NotConnected(b[0])))
            && (0x80 <= b[0] < 0xa0 && decoded.Success? ==> decoded.value.FrameSet?)
            && (0xa0 <= b[0] < 0xc0 && decoded.Success? ==> decoded.value.Nack?)
            && (0xc0 <= b[0] && decoded.Success? ==> decoded.value.Ack?)
  {
    hide Datagrams.DecodeAck, Datagrams.DecodeFrames, Wire.ReadU24;
  }

  /** A frame set: its first byte, its sequence, its frames end to end. */
  lemma FrameSetLayout(sequence: u32, first: Frames.Frame, rest: seq<Frames.Frame>)
    requires sequence < 0x100_0000
    ensures Datagrams.DatagramBytes(Datagrams.FrameSet(sequence, [])) == [0x80] + Little3(sequence)
    ensures Datagrams.DatagramBytes(Datagrams.FrameSet(sequence, [first] + rest))
         == [0x80] + (Little3(sequence) + (Frames.FrameBytes(first) + Datagrams.FramesBytes(rest)))
  {
    U24Is(sequence);
    assert ([first] + rest)[1..] == rest;
    assert Datagrams.FramesBytes([]) == [];
    hide Wire.U24Bytes, Little3, Frames.FrameBytes;
    assert Little3(sequence) + [] == Little3(sequence);
  }

  /** One record of an acknowledgement: a single sequence, or a run. */
  function RecordIs(start: nat, end: nat): bytes
    requires start < 0x100_0000 && end < 0x100_0000
  {
    if start == end then [1] + Little3(start) else [0] + (Little3(start) + Little3(end))
  }

  function RecordsAre(ranges: seq<Datagrams.Range>): bytes
    requires forall r :: r in ranges ==> r.start < 0x100_0000 && r.end < 0x100_0000
    decreases |ranges|
  {
    if ranges == [] then [] else
    assert ranges[0] in ranges;
    RecordIs(ranges[0].start, ranges[0].end) + RecordsAre(ranges[1..])
  }

  lemma {:induction false} RecordsLayout(ranges: seq<Datagrams.Range>)
    requires forall r :: r in ranges ==> r.start < 0x100_0000 && r.end < 0x100_0000
    ensures Datagrams.Records(ranges) == RecordsAre(ranges)
    decreases |ranges|
  {
    hide Wire.U24Bytes, Little3;
    if ranges != [] {
      assert ranges[0] in ranges;
      U24Is(ranges[0].start);
      U24Is(ranges[0].end);
      RecordsLayout(ranges[1..]);
    }
  }

  /** Acknowledgements: a first byte, a count, the records. */
  lemma AckLayout(ranges: seq<Datagrams.Range>)
    requires |ranges| <= 0xffff && forall r :: r in ranges ==> r.start < 0x100_0000 && r.end < 0x100_0000
    ensures Datagrams.DatagramBytes(Datagrams.Ack(ranges)) == [0xc0] + (Big2(|ranges|) + RecordsAre(ranges))
    ensures Datagrams.DatagramBytes(Datagrams.Nack(ranges)) == [0xa0] + (Big2(|ranges|) + RecordsAre(ranges))
  {
    hide Wire.U16Bytes, Big2, Datagrams.Records, RecordsAre, Datagrams.FramesBytes;
    RecordsLayout(ranges);
    U16Is(|ranges|);
    assert ranges[..|ranges|] == ranges;
  }

  // The game's integers.

  /** A varint is the base-128 digits of a value, low end first, each but the last with its top bit set. */
  function Digits(b: bytes): nat {
    if b == [] then 0 else b[0] % 128 + 128 * Digits(b[1..])
  }

  lemma {:induction false} VarintLayout(v: nat)
    ensures var b := GameBytes.VarintBytes(v);
            && Digits(b) == v
            && b[|b| - 1] < 128 && (|b| > 1 ==> b[|b| - 1] > 0)
            && forall i :: 0 <= i < |b| - 1 ==> b[i] >= 128
    decreases v
  {
    if v >= 128 {
      var rest := GameBytes.VarintBytes(v / 128);
      VarintLayout(v / 128);
      assert GameBytes.VarintBytes(v) == [GameBytes.More(v % 128)] + rest;
      assert ([GameBytes.More(v % 128)] + rest)[1..] == rest;
      hide GameBytes.VarintBytes, GameBytes.More;
    } else {
      assert Digits([]) == 0;
    }
  }

  function FromLow(b0: nat, b1: nat, b2: nat, b3: nat): nat {
    b0 + 0x100 * b1 + 0x1_0000 * b2 + 0x100_0000 * b3
  }

  /** The game's 32-bit integers have their low end first. */
  lemma LittleFour(v: u32)
    ensures var b := GameBytes.U32Bytes(v);
            |b| == 4 && FromLow(b[0], b[1], b[2], b[3]) == v
  {
    GameBytes.U32RoundTrip(v, []);
    assert GameBytes.U32Bytes(v) + [] == GameBytes.U32Bytes(v);
    assert GameBytes.U32Bytes(v)[..4] == GameBytes.U32Bytes(v);
  }

  /** A batch: its marker, then, in a batch that names its method, the byte for no compression. */
  lemma BatchLayout(packets: seq<Batches.Packet>)
    ensures Batches.BatchBytes(packets) == [0xfe] + Batches.StreamBytes(packets)
    ensures Batches.BatchBytesWithMethod(packets) == [0xfe, 0xff] + Batches.StreamBytes(packets)
  {
    hide Batches.StreamBytes;
    assert Batches.BatchBytes(packets)[1..] == Batches.StreamBytes(packets);
  }

  /** A subchunk of one block: six bytes or fewer for its id, version and storage before it. */
  lemma UniformLayout(id: i32)
    ensures Subchunks.SubchunkBytes(Subchunks.Subchunk([id], None))
         == [8, 1, 1] + GameBytes.VarintBytes(if id >= 0 then 2 * id else -2 * id - 1)
  {
    GameBytes.ZigzagIs(id);
    hide GameBytes.VarintBytes, GameBytes.Zigzag;
    assert [8, 1] + ([1] + GameBytes.ZigzagBytes(id)) == [8, 1, 1] + GameBytes.ZigzagBytes(id);
  }

  /** The words of a cube of more blocks: one storage, the width of an index in its header. */
  lemma IndexedLayout(s: Subchunks.Subchunk)
    requires !Subchunks.IsUniform(s)
    ensures var b, bits := Subchunks.SubchunkBytes(s), LevelChunks.BitsPerBlock(|s.palette|);
            |b| > 3 + 4 * LevelChunks.WordCount(bits) && b[..3] == [8, 1, 2 * bits + 1]
  {
    var bits := LevelChunks.BitsPerBlock(|s.palette|);
    Subchunks.HeaderIs(bits);
    WordsLength(s.indices.value, bits, 0, LevelChunks.WordCount(bits));
    hide Subchunks.WordsFrom, Subchunks.IdsBytes, LevelChunks.WordCount, GameBytes.VarintBytes, Subchunks.Header;
  }

  /** Where the client finds the index of a place: X first, then Z, then Y; so many to a word, the first in
      its low bits. */
  lemma IndexLiesAt(bits: nat, x: nat, y: nat, z: nat, word: nat)
    requires 0 < bits <= 16
    ensures LevelChunks.BlockOffset(x, y, z) == LevelChunks.WireSlot(x, y, z) == 256 * x + 16 * z + y || y >= 16 || z >= 16
    ensures var slot := LevelChunks.WireSlot(x, y, z);
            && LevelChunks.WordOf(bits, slot) == slot / (32 / bits)
            && LevelChunks.PlaceOf(bits, slot) == slot % (32 / bits)
            && LevelChunks.Unpacked(word, bits, LevelChunks.PlaceOf(bits, slot))
               == word / Bits.Pow2(slot % (32 / bits) * bits) % Bits.Pow2(bits)
  {
    if y < 16 && z < 16 {
      LevelChunks.BlockOffsetIs(x, y, z);
    }
    hide LevelChunks.BlockOffset, Bits.Pow2;
  }

  lemma {:induction false} WordsLength(indices: seq<u16>, bits: nat, word: nat, n: nat)
    requires LevelChunks.AllowedWidth(bits) && bits > 0
    ensures |Subchunks.WordsFrom(indices, bits, word, n)| == 4 * n
    decreases n
  {
    hide Subchunks.Word;
    if n > 0 {
      WordsLength(indices, bits, word + 1, n - 1);
    }
  }
}
