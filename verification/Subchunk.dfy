/** The bytes of a column, and the client's reading of them. */
module Subchunks {
  import opened Integers
  import opened Wrappers
  import opened GameBytes
  import opened Blocks
  import opened LevelChunks
  import Bits

  /** `palette` holds runtime ids; `indices`, in the wire's order, is absent for a cube of one block. */
  datatype Subchunk = Subchunk(palette: seq<i32>, indices: Option<seq<u16>>)

  predicate IsUniform(s: Subchunk) {
    s.indices.None? || |s.palette| <= 1
  }

  // Writing.

  lemma {:induction false} PackedIsU32(indices: seq<u16>, bits: nat, base: nat, n: nat)
    ensures Packed(indices, bits, base, n) < TWO_32
    decreases n
  {
    if n > 0 {
      PackedIsU32(indices, bits, base, n - 1);
      assert Bits.Pow2(32) == TWO_32 by {
        Bits.Pow2Values();
      }
      hide Bits.Or, Bits.Pow2;
      if base + (n - 1) < BLOCKS_PER_SUBCHUNK {
        Bits.OrBound(Packed(indices, bits, base, n - 1), IndexOr0(indices, base + (n - 1)) * Bits.Pow2((n - 1) * bits) % TWO_32, 32);
      }
    }
  }

  function Word(indices: seq<u16>, bits: nat, word: nat): u32 {
    PackedIsU32(indices, bits, word * PerWord(bits), PerWord(bits));
    Packed(indices, bits, word * PerWord(bits), PerWord(bits))
  }

  function WordsFrom(indices: seq<u16>, bits: nat, word: nat, n: nat): bytes
    decreases n
  {
    if n == 0 then [] else U32Bytes(Word(indices, bits, word)) + WordsFrom(indices, bits, word + 1, n - 1)
  }

  function IdsBytes(palette: seq<i32>): bytes
    decreases |palette|
  {
    if palette == [] then [] else ZigzagBytes(palette[0]) + IdsBytes(palette[1..])
  }

  function FirstOrAir(palette: seq<i32>): i32 {
    if palette == [] then RUNTIME_ID_AIR else palette[0]
  }

  /** The palette's length as the 32-bit count the wire carries. */
  function CountOf(palette: seq<i32>): i32 {
    if |palette| < TWO_31 then |palette| else 1
  }

  /** `(bits << 1) | 1`. */
  function Header(bits: nat): u8
    requires bits <= 16
  {
    HeaderIs(bits);
    Bits.Or(bits * 2, 1)
  }

  lemma HeaderIs(bits: nat)
    ensures Bits.Or(bits * 2, 1) == bits * 2 + 1
  {
    Bits.OrSymmetric(bits * 2, 1);
    assert Bits.Pow2(1) == 2;
    Bits.OrDisjoint(1, bits, 1);
  }

  function SubchunkBytes(s: Subchunk): bytes {
    [SUBCHUNK_VERSION, 1] + StorageBytes(s)
  }

  function StorageBytes(s: Subchunk): bytes {
    if IsUniform(s) then [1] + ZigzagBytes(FirstOrAir(s.palette))
    else
      var bits := BitsPerBlock(|s.palette|);
      [Header(bits)] + (WordsFrom(s.indices.value, bits, 0, WordCount(bits)) + (ZigzagBytes(CountOf(s.palette)) + IdsBytes(s.palette)))
  }

  function SubchunksBytes(subchunks: seq<Subchunk>): bytes
    decreases |subchunks|
  {
    if subchunks == [] then [] else SubchunkBytes(subchunks[0]) + SubchunksBytes(subchunks[1..])
  }

  function BiomesBytes(biome: i32, n: nat): bytes
    decreases n
  {
    if n == 0 then [] else [1] + ZigzagBytes(biome) + BiomesBytes(biome, n - 1)
  }

  function ColumnPayload(subchunks: seq<Subchunk>, biome: i32): bytes {
    SubchunksBytes(subchunks) + (BiomesBytes(biome, OVERWORLD_SUBCHUNKS) + [0])
  }

  /** The body of a `LevelChunk`: position, dimension, count, no blob hashes, payload. */
  function LevelChunkBody(x: i32, z: i32, count: u32, payload: bytes): bytes {
    ZigzagBytes(x) + (ZigzagBytes(z) + (ZigzagBytes(0) + (VarintBytes(count) + ([0] + PrefixedBytes(payload)))))
  }

  /** The body of a `NetworkChunkPublisherUpdate`: a point, and a radius in blocks. */
  function PublisherBody(x: i32, y: i32, z: i32, radius: u32): bytes {
    ZigzagBytes(x) + (ZigzagBytes(y) + (ZigzagBytes(z) + (VarintBytes(radius) + U32Bytes(0))))
  }

  // Reading, as the format defines it.

  function Ok<T>(r: Result<T, DecodeError>): Option<T> {
    match r
    case Success(v) => Some(v)
    case Failure(_) => None
  }

  datatype WireSubchunk = WireSubchunk(bits: nat, words: seq<nat>, palette: seq<int>)

  datatype WireColumn = WireColumn(x: int, z: int, dimension: int, subchunks: seq<WireSubchunk>, biomes: seq<int>)

  function ReadWords(b: bytes, n: nat): Option<(seq<nat>, bytes)>
    decreases n
  {
    if n == 0 then Some(([], b)) else
    var (word, b) :- Ok(ReadU32(b));
    var (words, b) :- ReadWords(b, n - 1);
    Some(([word] + words, b))
  }

  function ReadIds(b: bytes, n: nat): Option<(seq<int>, bytes)>
    decreases n
  {
    if n == 0 then Some(([], b)) else
    var (id, b) :- Ok(ReadZigzag(b));
    var (ids, b) :- ReadIds(b, n - 1);
    Some(([id] + ids, b))
  }

  function ReadStorage(b: bytes): Option<(WireSubchunk, bytes)> {
    var (header, b) :- Ok(ReadU8(b));
    var bits := header / 2;
    if header % 2 == 0 || !AllowedWidth(bits) then None
    else if bits == 0 then
      var (id, b) :- Ok(ReadZigzag(b));
      Some((WireSubchunk(0, [], [id]), b))
    else ReadIndexed(bits, b)
  }

  function ReadIndexed(bits: nat, b: bytes): Option<(WireSubchunk, bytes)> {
    var (words, b) :- ReadWords(b, WordCount(bits));
    var (count, b) :- Ok(ReadZigzag(b));
    if count < 0 then None else
    var (ids, b) :- ReadIds(b, count);
    Some((WireSubchunk(bits, words, ids), b))
  }

  function ReadSubchunk(b: bytes): Option<(WireSubchunk, bytes)> {
    var (version, b) :- Ok(ReadU8(b));
    var (layers, b) :- Ok(ReadU8(b));
    if version != SUBCHUNK_VERSION || layers != 1 then None else ReadStorage(b)
  }

  function ReadSubchunks(b: bytes, n: nat): Option<(seq<WireSubchunk>, bytes)>
    decreases n
  {
    if n == 0 then Some(([], b)) else
    var (subchunk, b) :- ReadSubchunk(b);
    var (subchunks, b) :- ReadSubchunks(b, n - 1);
    Some(([subchunk] + subchunks, b))
  }

  function ReadBiomes(b: bytes, n: nat): Option<(seq<int>, bytes)>
    decreases n
  {
    if n == 0 then Some(([], b)) else
    var (header, b) :- Ok(ReadU8(b));
    if header != 1 then None else
    var (biome, b) :- Ok(ReadZigzag(b));
    var (biomes, b) :- ReadBiomes(b, n - 1);
    Some(([biome] + biomes, b))
  }

  /** The column in a payload, all of which must be used up. */
  function ReadPayload(b: bytes, count: nat): Option<(seq<WireSubchunk>, seq<int>)> {
    var (subchunks, b) :- ReadSubchunks(b, count);
    var (biomes, b) :- ReadBiomes(b, OVERWORLD_SUBCHUNKS);
    if b == [0] then Some((subchunks, biomes)) else None
  }

  /** The whole body, all of which must be used up. */
  function ReadLevelChunk(b: bytes): Option<WireColumn> {
    var (x, b) :- Ok(ReadZigzag(b));
    var (z, b) :- Ok(ReadZigzag(b));
    var (dimension, b) :- Ok(ReadZigzag(b));
    var (count, b) :- Ok(ReadVarint(b));
    var (hashes, b) :- Ok(ReadU8(b));
    var (payload, b) :- Ok(ReadPrefixed(b));
    if hashes != 0 || b != [] then None else
    var (subchunks, biomes) :- ReadPayload(payload, count);
    Some(WireColumn(x, z, dimension, subchunks, biomes))
  }

  /** A publisher update: a point and a radius, both in blocks, and no saved columns. */
  function ReadPublisher(b: bytes): Option<(int, int, int, nat)> {
    var (x, b) :- Ok(ReadZigzag(b));
    var (y, b) :- Ok(ReadZigzag(b));
    var (z, b) :- Ok(ReadZigzag(b));
    var (radius, b) :- Ok(ReadVarint(b));
    var (saved, b) :- Ok(ReadU32(b));
    if saved != 0 || b != [] then None else Some((x, y, z, radius))
  }

  lemma PublisherReadsBack(x: i32, y: i32, z: i32, radius: u32)
    ensures ReadPublisher(PublisherBody(x, y, z, radius)) == Some((x as int, y as int, z as int, radius as nat))
  {
    hide ReadZigzag, ReadVarint, ReadU32, ZigzagBytes, VarintBytes, U32Bytes;
    var t4 := U32Bytes(0);
    var t3 := VarintBytes(radius) + t4;
    var t2 := ZigzagBytes(z) + t3;
    var t1 := ZigzagBytes(y) + t2;
    ZigzagRoundTrip(x, t1);
    ZigzagRoundTrip(y, t2);
    ZigzagRoundTrip(z, t3);
    VarintRoundTrip(radius, t4);
    U32RoundTrip(0, []);
    assert t4 + [] == t4;
  }

  /** The runtime id at a slot of a subchunk. */
  function IdAt(s: WireSubchunk, slot: nat): Option<int> {
    if s.bits == 0 then (if s.palette == [] then None else Some(s.palette[0])) else
    if s.bits > 16 || WordOf(s.bits, slot) >= |s.words| then None else
    var index := Unpacked(s.words[WordOf(s.bits, slot)], s.bits, PlaceOf(s.bits, slot));
    if index < |s.palette| then Some(s.palette[index]) else None
  }

  // Reading back what was written.

  /** What the encoder hands over: ids for every index. */
  ghost predicate Sendable(s: Subchunk) {
    && |s.palette| <= 0x1_0000
    && (s.indices.Some? ==>
          |s.indices.value| == BLOCKS_PER_SUBCHUNK
          && forall i :: 0 <= i < |s.indices.value| ==> s.indices.value[i] < |s.palette|)
  }

  function IdSent(s: Subchunk, slot: nat): int
    requires IsUniform(s) || (slot < |s.indices.value| && s.indices.value[slot] < |s.palette|)
  {
    if IsUniform(s) then FirstOrAir(s.palette) else s.palette[s.indices.value[slot]]
  }

  function WordsOf(indices: seq<u16>, bits: nat, word: nat, n: nat): (words: seq<nat>)
    ensures |words| == n
    decreases n
  {
    if n == 0 then [] else [Word(indices, bits, word)] + WordsOf(indices, bits, word + 1, n - 1)
  }

  lemma {:induction false} WordsOfAt(indices: seq<u16>, bits: nat, word: nat, n: nat, i: nat)
    requires i < n
    ensures WordsOf(indices, bits, word, n)[i] == Word(indices, bits, word + i)
    decreases n
  {
    hide Word;
    if i > 0 {
      WordsOfAt(indices, bits, word + 1, n - 1, i - 1);
    }
  }

  lemma {:induction false} WordsReadBack(indices: seq<u16>, bits: nat, word: nat, n: nat, rest: bytes)
    ensures ReadWords(WordsFrom(indices, bits, word, n) + rest, n) == Some((WordsOf(indices, bits, word, n), rest))
    decreases n
  {
    hide Word, ReadU32, U32Bytes;
    if n == 0 {
      assert [] + rest == rest;
    } else {
      var head, tail := U32Bytes(Word(indices, bits, word)), WordsFrom(indices, bits, word + 1, n - 1);
      Assoc(head, tail, rest);
      GameBytes.U32RoundTrip(Word(indices, bits, word), tail + rest);
      WordsReadBack(indices, bits, word + 1, n - 1, rest);
    }
  }

  lemma {:induction false} IdsReadBack(palette: seq<i32>, rest: bytes)
    ensures ReadIds(IdsBytes(palette) + rest, |palette|) == Some((palette, rest))
    decreases |palette|
  {
    hide ReadZigzag, ZigzagBytes;
    if palette == [] {
      assert [] + rest == rest;
    } else {
      var head, tail := ZigzagBytes(palette[0]), IdsBytes(palette[1..]);
      Assoc(head, tail, rest);
      ZigzagRoundTrip(palette[0], tail + rest);
      IdsReadBack(palette[1..], rest);
      HeadTail(palette);
    }
  }

  /** What reading the storage of a subchunk gives. */
  function WireForm(s: Subchunk): WireSubchunk {
    if IsUniform(s) then WireSubchunk(0, [], [FirstOrAir(s.palette)])
    else
      var bits := BitsPerBlock(|s.palette|);
      WireSubchunk(bits, WordsOf(s.indices.value, bits, 0, WordCount(bits)), s.palette)
  }

  lemma IndexedReadsBack(indices: seq<u16>, bits: nat, palette: seq<i32>, rest: bytes)
    requires |palette| < TWO_31
    ensures ReadIndexed(bits, WordsFrom(indices, bits, 0, WordCount(bits)) + (ZigzagBytes(CountOf(palette)) + (IdsBytes(palette) + rest)))
         == Some((WireSubchunk(bits, WordsOf(indices, bits, 0, WordCount(bits)), palette), rest))
  {
    hide ReadZigzag, ZigzagBytes, ReadWords, ReadIds, IdsBytes, WordsFrom, WordsOf, WordCount;
    var t3 := IdsBytes(palette) + rest;
    var t2 := ZigzagBytes(CountOf(palette)) + t3;
    WordsReadBack(indices, bits, 0, WordCount(bits), t2);
    ZigzagRoundTrip(CountOf(palette), t3);
    IdsReadBack(palette, rest);
  }

  lemma UniformReadsBack(id: i32, rest: bytes)
    ensures ReadStorage([1] + ZigzagBytes(id) + rest) == Some((WireSubchunk(0, [], [id]), rest))
  {
    hide ReadU8, ReadZigzag, ZigzagBytes, ReadIndexed;
    Assoc([1], ZigzagBytes(id), rest);
    ByteFirst(1, ZigzagBytes(id) + rest);
    ZigzagRoundTrip(id, rest);
  }

  lemma HeaderReadsBack(bits: nat, rest: bytes)
    requires 1 <= bits <= 16 && AllowedWidth(bits)
    ensures ReadStorage([Header(bits)] + rest) == ReadIndexed(bits, rest)
  {
    HeaderIs(bits);
    hide ReadU8, ReadZigzag, ReadIndexed, Bits.Or;
    ByteFirst(Header(bits), rest);
  }

  lemma StorageReadsBack(s: Subchunk, rest: bytes)
    requires Sendable(s)
    ensures ReadStorage(StorageBytes(s) + rest) == Some((WireForm(s), rest))
  {
    hide ReadStorage, ZigzagBytes, ReadIndexed, IdsBytes, WordsFrom, WordsOf, Header, CountOf;
    if IsUniform(s) {
      UniformReadsBack(FirstOrAir(s.palette), rest);
    } else {
      var bits, palette := BitsPerBlock(|s.palette|), s.palette;
      WidthFits(|palette|);
      assert 1 <= bits <= 16;
      var words, count, ids := WordsFrom(s.indices.value, bits, 0, WordCount(bits)), ZigzagBytes(CountOf(palette)), IdsBytes(palette);
      hide BitsPerBlock, WordCount;
      WithTheRest([Header(bits)], words, count, ids, rest);
      HeaderReadsBack(bits, words + (count + (ids + rest)));
      IndexedReadsBack(s.indices.value, bits, palette, rest);
    }
  }

  lemma WithTheRest(a: bytes, b: bytes, c: bytes, d: bytes, rest: bytes)
    ensures a + (b + (c + d)) + rest == a + (b + (c + (d + rest)))
  {
    Assoc(a, b + (c + d), rest);
    Assoc(b, c + d, rest);
    Assoc(c, d, rest);
  }

  lemma SubchunkReadsBack(s: Subchunk, rest: bytes)
    requires Sendable(s)
    ensures ReadSubchunk(SubchunkBytes(s) + rest) == Some((WireForm(s), rest))
  {
    StorageReadsBack(s, rest);
    hide ReadU8, ReadStorage, StorageBytes, WireForm;
    var tail := StorageBytes(s) + rest;
    assert SubchunkBytes(s) + rest == [SUBCHUNK_VERSION] + ([1] + tail);
    ByteFirst(SUBCHUNK_VERSION, [1] + tail);
    ByteFirst(1, tail);
  }

  /** At every width the format allows, from 1 to 16 bits and with the unused bits of 3, 5 and 6:
      any indices that fit come back from the packed words. */
  lemma PackingRoundTrips(indices: seq<u16>, bits: nat, slot: nat)
    requires 1 <= bits <= 16 && |indices| == BLOCKS_PER_SUBCHUNK && SmallIndices(indices, Bits.Pow2(bits))
    requires slot < BLOCKS_PER_SUBCHUNK
    ensures var words := WordsOf(indices, bits, 0, WordCount(bits));
            && WordOf(bits, slot) < |words|
            && Unpacked(words[WordOf(bits, slot)], bits, PlaceOf(bits, slot)) == indices[slot]
  {
    hide Bits.Pow2, Power, Unpacked, WordsOf, WordOf, PlaceOf, WordCount, Packed, PerWord;
    WordHasRoom(bits);
    SlotInWord(bits, slot);
    WordsOfAt(indices, bits, 0, WordCount(bits), WordOf(bits, slot));
    UnpackingGivesBack(indices, bits, WordOf(bits, slot) * PerWord(bits), PerWord(bits), PlaceOf(bits, slot));
  }

  lemma WordHasRoom(bits: nat)
    requires 1 <= bits <= 16
    ensures Power(Bits.Pow2(bits), PerWord(bits)) <= TWO_32
  {
    Bits.Pow2Values();
    hide Bits.Pow2, Power, PerWord;
    SlotStart(bits, PerWord(bits));
    Bits.Pow2Monotone(PerWord(bits) * bits, 32);
  }

  /** What the client finds at a slot is the id that was sent there. */
  lemma IdsComeBack(s: Subchunk, slot: nat)
    requires Sendable(s) && slot < BLOCKS_PER_SUBCHUNK
    ensures IdAt(WireForm(s), slot) == Some(IdSent(s, slot))
  {
    if !IsUniform(s) {
      var bits := BitsPerBlock(|s.palette|);
      WidthFits(|s.palette|);
      assert 1 <= bits <= 16;
      hide BitsPerBlock, Bits.Pow2, WordsOf, WordCount, Unpacked;
      PackingRoundTrips(s.indices.value, bits, slot);
    }
  }

  // The writer, as loops over a buffer.

  lemma {:induction false} PackedStops(indices: seq<u16>, bits: nat, base: nat, n: nat, m: nat)
    requires n <= m && base + n >= BLOCKS_PER_SUBCHUNK
    ensures Packed(indices, bits, base, m) == Packed(indices, bits, base, n)
    decreases m
  {
    if n < m {
      PackedStops(indices, bits, base, n, m - 1);
    }
  }

  method PackWord(indices: seq<u16>, bits: nat, word: nat) returns (packed: u32)
    ensures packed == Word(indices, bits, word)
  {
    hide Bits.Or, Bits.Pow2, PerWord;
    var per := PerWord(bits);
    var acc: nat := 0;
    for slot := 0 to per
      invariant acc == Packed(indices, bits, word * per, slot)
    {
      var position := word * per + slot;
      if position >= BLOCKS_PER_SUBCHUNK {
        PackedStops(indices, bits, word * per, slot, per);
        break;
      }
      acc := Bits.Or(acc, IndexOr0(indices, position) * Bits.Pow2(slot * bits) % TWO_32);
    }
    assert acc == Packed(indices, bits, word * per, per);
    PackedIsU32(indices, bits, word * per, per);
    packed := acc;
  }

  method WriteUniformStorage(w: Writer, id: i32)
    modifies w
    ensures w.buf == old(w.buf) + ([1] + ZigzagBytes(id))
  {
    hide ZigzagBytes;
    ghost var start := w.buf;
    w.U8(1);
    w.Zigzag32(id);
    Assoc(start, [1], ZigzagBytes(id));
  }

  method WriteWords(w: Writer, indices: seq<u16>, bits: nat)
    modifies w
    ensures w.buf == old(w.buf) + WordsFrom(indices, bits, 0, WordCount(bits))
  {
    hide Word, U32Bytes, WordCount;
    ghost var start := w.buf;
    for word := 0 to WordCount(bits)
      invariant w.buf + WordsFrom(indices, bits, word, WordCount(bits) - word) == start + WordsFrom(indices, bits, 0, WordCount(bits))
    {
      Assoc(w.buf, U32Bytes(Word(indices, bits, word)), WordsFrom(indices, bits, word + 1, WordCount(bits) - word - 1));
      var packed := PackWord(indices, bits, word);
      w.U32(packed);
    }
    assert w.buf + [] == w.buf;
  }

  method WriteIds(w: Writer, palette: seq<i32>)
    modifies w
    ensures w.buf == old(w.buf) + IdsBytes(palette)
  {
    hide ZigzagBytes;
    ghost var start := w.buf;
    assert palette[0..] == palette;
    for i := 0 to |palette|
      invariant w.buf + IdsBytes(palette[i..]) == start + IdsBytes(palette)
    {
      assert palette[i..][1..] == palette[i + 1..];
      Assoc(w.buf, ZigzagBytes(palette[i]), IdsBytes(palette[i + 1..]));
      w.Zigzag32(palette[i]);
    }
    assert w.buf + [] == w.buf;
  }

  method WriteSubchunk(w: Writer, s: Subchunk)
    modifies w
    ensures w.buf == old(w.buf) + SubchunkBytes(s)
  {
    hide WordsFrom, IdsBytes, ZigzagBytes;
    ghost var start := w.buf;
    w.U8(SUBCHUNK_VERSION);
    w.U8(1);
    assert w.buf == start + [SUBCHUNK_VERSION, 1];
    Assoc(start, [SUBCHUNK_VERSION, 1], StorageBytes(s));
    if IsUniform(s) {
      WriteUniformStorage(w, FirstOrAir(s.palette));
      return;
    }
    var bits := BitsPerBlock(|s.palette|);
    ghost var head := w.buf;
    w.U8(Header(bits));
    WriteWords(w, s.indices.value, bits);
    w.Zigzag32(CountOf(s.palette));
    WriteIds(w, s.palette);
    InOneRow(head, [Header(bits)], WordsFrom(s.indices.value, bits, 0, WordCount(bits)), ZigzagBytes(CountOf(s.palette)), IdsBytes(s.palette));
  }

  lemma InOneRow(a: bytes, b: bytes, c: bytes, d: bytes, e: bytes)
    ensures a + b + c + d + e == a + (b + (c + (d + e)))
  {
    Assoc(a, b, c + (d + e));
    Assoc(a + b, c, d + e);
    Assoc(a + b + c, d, e);
  }

  method WriteBiomes(w: Writer, biome: i32)
    modifies w
    ensures w.buf == old(w.buf) + BiomesBytes(biome, OVERWORLD_SUBCHUNKS)
  {
    hide ZigzagBytes;
    ghost var start := w.buf;
    for i := 0 to OVERWORLD_SUBCHUNKS
      invariant w.buf + BiomesBytes(biome, OVERWORLD_SUBCHUNKS - i) == start + BiomesBytes(biome, OVERWORLD_SUBCHUNKS)
    {
      Assoc(w.buf, [1] + ZigzagBytes(biome), BiomesBytes(biome, OVERWORLD_SUBCHUNKS - i - 1));
      WriteUniformStorage(w, biome);
    }
    assert w.buf + [] == w.buf;
  }

  method WriteColumn(subchunks: seq<Subchunk>, biome: i32) returns (payload: bytes)
    ensures payload == ColumnPayload(subchunks, biome)
  {
    hide SubchunkBytes, BiomesBytes;
    var w := new Writer();
    assert subchunks[0..] == subchunks;
    for i := 0 to |subchunks|
      invariant w.buf + SubchunksBytes(subchunks[i..]) == SubchunksBytes(subchunks)
    {
      assert subchunks[i..][1..] == subchunks[i + 1..];
      Assoc(w.buf, SubchunkBytes(subchunks[i]), SubchunksBytes(subchunks[i + 1..]));
      WriteSubchunk(w, subchunks[i]);
    }
    assert w.buf + [] == w.buf;
    WriteBiomes(w, biome);
    w.U8(0);
    Assoc(SubchunksBytes(subchunks), BiomesBytes(biome, OVERWORLD_SUBCHUNKS), [0]);
    payload := w.buf;
  }

  method LevelChunk(x: i32, z: i32, subchunks: nat, payload: bytes) returns (body: bytes)
    ensures body == LevelChunkBody(x, z, if subchunks < TWO_32 then subchunks else 0, payload)
  {
    hide ZigzagBytes, VarintBytes, PrefixedBytes;
    var count: u32 := if subchunks < TWO_32 then subchunks else 0;
    var w := new Writer();
    w.Zigzag32(x);
    w.Zigzag32(z);
    w.Zigzag32(0);
    w.Varint(count);
    w.U8(0);
    w.Prefixed(payload);
    body := w.buf;
    InOneRow(ZigzagBytes(x), ZigzagBytes(z), ZigzagBytes(0), VarintBytes(count), [0] + PrefixedBytes(payload));
    Assoc(ZigzagBytes(x) + ZigzagBytes(z) + ZigzagBytes(0) + VarintBytes(count), [0], PrefixedBytes(payload));
    assert [] + ZigzagBytes(x) == ZigzagBytes(x);
  }

  method PublisherUpdate(x: i32, y: i32, z: i32, radius: u32) returns (body: bytes)
    ensures body == PublisherBody(x, y, z, radius)
  {
    hide ZigzagBytes, VarintBytes, GameBytes.U32Bytes;
    var w := new Writer();
    w.Zigzag32(x);
    w.Zigzag32(y);
    w.Zigzag32(z);
    w.Varint(radius);
    w.U32(0);
    body := w.buf;
    InOneRow(ZigzagBytes(x), ZigzagBytes(y), ZigzagBytes(z), VarintBytes(radius), GameBytes.U32Bytes(0));
    assert [] + ZigzagBytes(x) == ZigzagBytes(x);
  }
}
