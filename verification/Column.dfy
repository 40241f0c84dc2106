/** From a column of the world to a `LevelChunk`, where storage and wire meet. */
module Columns {
  import opened Integers
  import opened Wrappers
  import opened GameBytes
  import opened Blocks
  import opened Sections
  import opened Chunks
  import opened LevelChunks
  import opened Subchunks
  import Batches

  // One section.

  function WireIds(palette: seq<Block>): (ids: seq<i32>)
    ensures |ids| == |palette|
  {
    seq(|palette|, i requires 0 <= i < |palette| => WireId(palette[i]))
  }

  /** A section's indices in the wire's order. */
  function WireIndices(s: Section): (indices: seq<u16>)
    ensures |indices| == BLOCKS_PER_SUBCHUNK
  {
    seq(BLOCKS_PER_SUBCHUNK, i requires 0 <= i < BLOCKS_PER_SUBCHUNK => IndexOr0At(s, i / 0x100, i % 0x10, i / 0x10 % 0x10))
  }

  function IndexOr0At(s: Section, x: nat, y: nat, z: nat): u16 {
    match IndexAt(s, x, y, z)
    case None => 0
    case Some(index) => index
  }

  function EncodeSection(s: Section): Subchunk {
    Subchunk(WireIds(s.palette),
             if UniformBlock(s).Some? || |s.palette| <= 1 then None else Some(WireIndices(s)))
  }

  lemma WireSlotSplits(x: nat, y: nat, z: nat)
    requires Inside(x, y, z)
    ensures var slot := WireSlot(x, y, z);
            slot < BLOCKS_PER_SUBCHUNK && slot / 0x100 == x && slot % 0x10 == y && slot / 0x10 % 0x10 == z
  {
  }

  lemma EncodedIsSendable(s: Section)
    requires Sections.Valid(s)
    ensures Sendable(EncodeSection(s))
  {
    forall i | 0 <= i < BLOCKS_PER_SUBCHUNK
      ensures WireIndices(s)[i] < |s.palette|
    {
      GetIsTotal(s, i / 0x100, i % 0x10, i / 0x10 % 0x10);
    }
  }

  /** Re-linearised in the wire's axis order, every position still names its own block. */
  lemma EncodedShows(s: Section, x: nat, y: nat, z: nat)
    requires Sections.Valid(s) && Inside(x, y, z)
    ensures Sendable(EncodeSection(s)) && Get(s, x, y, z).Some?
    ensures WireSlot(x, y, z) < BLOCKS_PER_SUBCHUNK
    ensures IdSent(EncodeSection(s), WireSlot(x, y, z)) == WireId(Get(s, x, y, z).value)
  {
    EncodedIsSendable(s);
    GetIsTotal(s, x, y, z);
    WireSlotSplits(x, y, z);
  }

  // The whole column.

  function EncodeAll(sections: seq<Section>): (subchunks: seq<Subchunk>)
    ensures |subchunks| == |sections|
  {
    seq(|sections|, i requires 0 <= i < |sections| => EncodeSection(sections[i]))
  }

  function SubchunkCount(sections: seq<Section>): nat {
    match HighestUsed(sections)
    case None => 0
    case Some(top) => top - MIN_SECTION + 1
  }

  function ColumnBody(x: i32, z: i32, sections: seq<Section>, biome: i32): bytes {
    var count := SubchunkCount(sections);
    LevelChunkBody(x, z, if count < TWO_32 then count else 0, ColumnPayload(EncodeAll(sections[..Min(count, |sections|)]), biome))
  }

  // Sizes: a whole column is far below the 32-bit length of its prefix.

  lemma {:induction false} VarintIsShort(v: nat, k: nat)
    requires k >= 1 && v < Power(0x80, k)
    ensures |VarintBytes(v)| <= k
    decreases k
  {
    if v / 0x80 != 0 {
      assert k > 1;
      VarintIsShort(v / 0x80, k - 1);
    }
  }

  lemma ZigzagIsShort(v: i32)
    ensures |ZigzagBytes(v)| <= 5
  {
    ZigzagIs(v);
    assert Power(0x80, 2) == 0x4000;
    assert Power(0x80, 4) == 0x1000_0000;
    VarintIsShort(Zigzag(v), 5);
  }

  lemma {:induction false} IdsAreShort(palette: seq<i32>)
    ensures |IdsBytes(palette)| <= 5 * |palette|
    decreases |palette|
  {
    if palette != [] {
      ZigzagIsShort(palette[0]);
      IdsAreShort(palette[1..]);
    }
  }

  lemma {:induction false} WordsAreShort(indices: seq<u16>, bits: nat, word: nat, n: nat)
    ensures |WordsFrom(indices, bits, word, n)| == 4 * n
    decreases n
  {
    if n > 0 {
      WordsAreShort(indices, bits, word + 1, n - 1);
    }
  }

  const SUBCHUNK_LIMIT: nat := 400_000
  const PAYLOAD_LIMIT: nat := 10_000_000

  lemma WordCountIsSmall(bits: nat)
    requires 1 <= bits <= 16
    ensures WordCount(bits) <= BLOCKS_PER_SUBCHUNK
  {
    var per := PerWord(bits);
    hide PerWord;
    DivisionFits(BLOCKS_PER_SUBCHUNK + per - 1, per);
    AtLeastOnce(WordCount(bits) - BLOCKS_PER_SUBCHUNK, per);
    assert (WordCount(bits) - BLOCKS_PER_SUBCHUNK) * per == WordCount(bits) * per - BLOCKS_PER_SUBCHUNK * per;
  }

  lemma SubchunkIsShort(s: Subchunk)
    requires Sendable(s)
    ensures |SubchunkBytes(s)| <= SUBCHUNK_LIMIT
  {
    ZigzagIsShort(FirstOrAir(s.palette));
    if !IsUniform(s) {
      var bits := BitsPerBlock(|s.palette|);
      WidthFits(|s.palette|);
      assert 1 <= bits <= 16;
      hide BitsPerBlock, WordCount;
      WordCountIsSmall(bits);
      WordsAreShort(s.indices.value, bits, 0, WordCount(bits));
      ZigzagIsShort(CountOf(s.palette));
      IdsAreShort(s.palette);
    }
  }

  lemma {:induction false} SubchunksAreShort(subchunks: seq<Subchunk>)
    requires forall i :: 0 <= i < |subchunks| ==> Sendable(subchunks[i])
    ensures |SubchunksBytes(subchunks)| <= SUBCHUNK_LIMIT * |subchunks|
    decreases |subchunks|
  {
    if subchunks != [] {
      SubchunkIsShort(subchunks[0]);
      SubchunksAreShort(subchunks[1..]);
    }
  }

  lemma {:induction false} BiomesAreShort(biome: i32, n: nat)
    ensures |BiomesBytes(biome, n)| <= 6 * n
    decreases n
  {
    if n > 0 {
      ZigzagIsShort(biome);
      BiomesAreShort(biome, n - 1);
    }
  }

  lemma BodyIsShort(x: i32, z: i32, count: u32, payload: bytes)
    requires |payload| <= PAYLOAD_LIMIT
    ensures |LevelChunkBody(x, z, count, payload)| <= PAYLOAD_LIMIT + 100
  {
    ZigzagIsShort(x);
    ZigzagIsShort(z);
    ZigzagIsShort(0);
    assert Power(0x80, 2) == 0x4000;
    assert Power(0x80, 4) == 0x1000_0000;
    VarintIsShort(count, 5);
    VarintIsShort(|payload|, 5);
    hide ZigzagBytes, VarintBytes;
  }

  // Reading the column back.

  function WireForms(subchunks: seq<Subchunk>): (forms: seq<WireSubchunk>)
    ensures |forms| == |subchunks|
    ensures forall i :: 0 <= i < |forms| ==> forms[i] == WireForm(subchunks[i])
    decreases |subchunks|
  {
    if subchunks == [] then [] else [WireForm(subchunks[0])] + WireForms(subchunks[1..])
  }

  lemma {:induction false} SubchunksReadBack(subchunks: seq<Subchunk>, rest: bytes)
    requires forall i :: 0 <= i < |subchunks| ==> Sendable(subchunks[i])
    ensures ReadSubchunks(SubchunksBytes(subchunks) + rest, |subchunks|) == Some((WireForms(subchunks), rest))
    decreases |subchunks|
  {
    if subchunks == [] {
      assert [] + rest == rest;
    } else {
      var head, tail := SubchunkBytes(subchunks[0]), SubchunksBytes(subchunks[1..]);
      Assoc(head, tail, rest);
      hide ReadSubchunk, SubchunkBytes, WireForm, Sendable;
      SubchunkReadsBack(subchunks[0], tail + rest);
      SubchunksReadBack(subchunks[1..], rest);
    }
  }

  lemma {:induction false} BiomesReadBack(biome: i32, n: nat, rest: bytes)
    ensures ReadBiomes(BiomesBytes(biome, n) + rest, n) == Some((seq(n, i => biome as int), rest))
    decreases n
  {
    hide ReadZigzag, ZigzagBytes, ReadU8;
    if n == 0 {
      assert [] + rest == rest;
    } else {
      var tail := BiomesBytes(biome, n - 1);
      assert BiomesBytes(biome, n) + rest == [1] + (ZigzagBytes(biome) + (tail + rest));
      ByteFirst(1, ZigzagBytes(biome) + (tail + rest));
      ZigzagRoundTrip(biome, tail + rest);
      BiomesReadBack(biome, n - 1, rest);
      assert seq(n, i => biome as int) == [biome as int] + seq(n - 1, i => biome as int);
    }
  }

  lemma PayloadReadsBack(subchunks: seq<Subchunk>, biome: i32)
    requires |subchunks| <= OVERWORLD_SUBCHUNKS && forall i :: 0 <= i < |subchunks| ==> Sendable(subchunks[i])
    ensures var payload := ColumnPayload(subchunks, biome);
            && |payload| <= PAYLOAD_LIMIT
            && ReadPayload(payload, |subchunks|) == Some((WireForms(subchunks), seq(OVERWORLD_SUBCHUNKS, i => biome as int)))
  {
    SubchunksAreShort(subchunks);
    BiomesAreShort(biome, OVERWORLD_SUBCHUNKS);
    SubchunksReadBack(subchunks, BiomesBytes(biome, OVERWORLD_SUBCHUNKS) + [0]);
    BiomesReadBack(biome, OVERWORLD_SUBCHUNKS, [0]);
    hide ReadSubchunks, ReadBiomes, SubchunksBytes, BiomesBytes, WireForms, Sendable;
  }

  lemma BodyReadsBack(x: i32, z: i32, count: u32, payload: bytes)
    requires |payload| < TWO_32 && ReadPayload(payload, count).Some?
    ensures var read := ReadPayload(payload, count).value;
            ReadLevelChunk(LevelChunkBody(x, z, count, payload)) == Some(WireColumn(x, z, 0, read.0, read.1))
  {
    hide ReadZigzag, ZigzagBytes, ReadVarint, VarintBytes, ReadU8, ReadPrefixed, PrefixedBytes, ReadPayload;
    var t5 := PrefixedBytes(payload);
    var t4 := [0] + t5;
    var t3 := VarintBytes(count) + t4;
    var t2 := ZigzagBytes(0) + t3;
    var t1 := ZigzagBytes(z) + t2;
    ZigzagRoundTrip(x, t1);
    ZigzagRoundTrip(z, t2);
    ZigzagRoundTrip(0, t3);
    VarintRoundTrip(count, t4);
    ByteFirst(0, t5);
    PrefixedRoundTrip(payload, []);
    assert t5 + [] == t5;
  }

  /** What the client shows at a position: sky above the subchunks it was sent. */
  function ClientId(column: WireColumn, x: nat, y: int, z: nat): Option<int> {
    var slot := SectionIndex(y) - MIN_SECTION;
    if slot < 0 then None
    else if slot < |column.subchunks| then IdAt(column.subchunks[slot], WireSlot(x, SectionOffset(y), z))
    else Some(RUNTIME_ID_AIR)
  }

  lemma CountIsSlotAbove(sections: seq<Section>)
    ensures SubchunkCount(sections) == SlotAbove(sections) <= |sections|
  {
  }

  ghost predicate ShowsAt(column: WireColumn, sections: seq<Section>, x: nat, y: int, z: nat) {
    && BlockIn(sections, x, y, z).Some?
    && ClientId(column, x, y, z) == Some(WireId(BlockIn(sections, x, y, z).value) as int)
  }

  ghost predicate ReadsAs(column: WireColumn, sections: seq<Section>) {
    forall x: nat, y: int, z: nat :: InColumn(x, y, z) ==> ShowsAt(column, sections, x, y, z)
  }

  /** One section, sent. */
  lemma SectionShows(section: Section, x: nat, y: nat, z: nat)
    requires Sections.Valid(section) && Inside(x, y, z)
    ensures Get(section, x, y, z).Some?
    ensures IdAt(WireForm(EncodeSection(section)), WireSlot(x, y, z)) == Some(WireId(Get(section, x, y, z).value) as int)
  {
    EncodedShows(section, x, y, z);
    hide IdAt, WireForm, IdSent, EncodeSection, Sections.Valid, Get, WireSlot, Sendable, WireId;
    IdsComeBack(EncodeSection(section), WireSlot(x, y, z));
  }

  lemma SkyIsAir(section: Section, x: nat, y: nat, z: nat)
    requires Sections.Valid(section) && Inside(x, y, z) && IsEmpty(section)
    ensures Get(section, x, y, z).Some? && WireId(Get(section, x, y, z).value) == RUNTIME_ID_AIR
  {
    GetIsTotal(section, x, y, z);
    hide Get, WireId;
    AirIsWrittenAsAir(Get(section, x, y, z).value);
  }

  lemma EveryPositionShows(sections: seq<Section>, column: WireColumn, x: nat, y: int, z: nat)
    requires ColumnOk(sections) && InColumn(x, y, z)
    requires |column.subchunks| == SlotAbove(sections)
    requires forall i :: 0 <= i < SlotAbove(sections) ==> column.subchunks[i] == WireForm(EncodeSection(sections[i]))
    ensures ShowsAt(column, sections, x, y, z)
  {
    HeightSplits(y, y);
    var slot := SectionIndex(y) - MIN_SECTION;
    assert Sections.Valid(sections[slot]) && Inside(x, SectionOffset(y), z);
    hide IdAt, WireForm, EncodeSection, Sections.Valid, Get, WireSlot, WireId, SlotAbove, IsEmpty;
    if slot < SlotAbove(sections) {
      SectionShows(sections[slot], x, SectionOffset(y), z);
    } else {
      AboveIsEmpty(sections, slot);
      SkyIsAir(sections[slot], x, SectionOffset(y), z);
    }
  }

  /** A column survives the wire: its body reads back, using up every byte, as a column at the same
      place that shows, at all 16 x 384 x 16 positions, the runtime id of the block there, or air
      where this version has no id for it. */
  lemma ColumnReadsBack(x: i32, z: i32, sections: seq<Section>, biome: i32)
    requires ColumnOk(sections)
    ensures var read := ReadLevelChunk(ColumnBody(x, z, sections, biome));
            && |ColumnBody(x, z, sections, biome)| <= PAYLOAD_LIMIT + 100
            && read.Some?
            && (read.value.x, read.value.z, read.value.dimension) == (x as int, z as int, 0)
            && |read.value.subchunks| == SubchunkCount(sections)
            && read.value.biomes == seq(OVERWORLD_SUBCHUNKS, i => biome as int)
            && ReadsAs(read.value, sections)
  {
    CountIsSlotAbove(sections);
    var count := SlotAbove(sections);
    var sent := EncodeAll(sections[..count]);
    var column := WireColumn(x, z, 0, WireForms(sent), seq(OVERWORLD_SUBCHUNKS, i => biome as int));
    SentIsSendable(sections, count);
    BodyIs(x, z, sections, biome);
    hide ColumnBody, ColumnOk, WireForms, EncodeAll;
    hide ReadPayload, ColumnPayload, LevelChunkBody, ReadLevelChunk, EncodeSection, WireForm, Sendable, ReadsAs, SlotAbove, SubchunkCount;
    PayloadReadsBack(sent, biome);
    BodyReadsBack(x, z, count, ColumnPayload(sent, biome));
    BodyIsShort(x, z, count, ColumnPayload(sent, biome));
    ReadsAsSent(sections, column);
  }

  lemma BodyIs(x: i32, z: i32, sections: seq<Section>, biome: i32)
    requires |sections| == SECTION_COUNT
    ensures ColumnBody(x, z, sections, biome)
         == LevelChunkBody(x, z, SlotAbove(sections) % TWO_32, ColumnPayload(EncodeAll(sections[..SlotAbove(sections)]), biome))
    ensures SlotAbove(sections) % TWO_32 == SlotAbove(sections) <= SECTION_COUNT
  {
    CountIsSlotAbove(sections);
    hide LevelChunkBody, ColumnPayload, EncodeAll, SlotAbove, SubchunkCount;
  }

  lemma SentIsSendable(sections: seq<Section>, count: nat)
    requires ColumnOk(sections) && count <= |sections|
    ensures forall i :: 0 <= i < count ==> Sendable(EncodeAll(sections[..count])[i])
  {
    forall i | 0 <= i < count
      ensures Sendable(EncodeSection(sections[i]))
    {
      EncodedIsSendable(sections[i]);
    }
    hide EncodeSection, Sendable;
  }

  lemma ReadsAsSent(sections: seq<Section>, column: WireColumn)
    requires ColumnOk(sections) && column.subchunks == WireForms(EncodeAll(sections[..SlotAbove(sections)]))
    ensures ReadsAs(column, sections)
  {
    hide ColumnOk, ShowsAt, WireForm, EncodeSection, SlotAbove;
    forall x: nat, y: int, z: nat | InColumn(x, y, z)
      ensures ShowsAt(column, sections, x, y, z)
    {
      EveryPositionShows(sections, column, x, y, z);
    }
  }

  // The encoder, as loops over a buffer.

  /** The positions visited so far hold their index, in the wire's order. */
  ghost predicate Ordered(indices: seq<u16>, s: Section, n: nat) {
    && |indices| == BLOCKS_PER_SUBCHUNK
    && forall x, y, z :: Inside(x, y, z) && Rank(x, y, z) < n ==> OrderedAt(indices, s, x, y, z)
  }

  ghost predicate OrderedAt(indices: seq<u16>, s: Section, x: nat, y: nat, z: nat) {
    WireSlot(x, y, z) < |indices| && indices[WireSlot(x, y, z)] == IndexOr0At(s, x, y, z)
  }

  lemma OrderOne(indices: seq<u16>, s: Section, x: nat, y: nat, z: nat)
    requires Inside(x, y, z) && Ordered(indices, s, Rank(x, y, z))
    ensures WireSlot(x, y, z) < |indices|
    ensures Ordered(indices[WireSlot(x, y, z) := IndexOr0At(s, x, y, z)], s, Rank(x, y, z) + 1)
  {
    WireSlotSplits(x, y, z);
    var after := indices[WireSlot(x, y, z) := IndexOr0At(s, x, y, z)];
    forall x', y', z' | Inside(x', y', z') && Rank(x', y', z') < Rank(x, y, z) + 1
      ensures OrderedAt(after, s, x', y', z')
    {
      WireSlotSplits(x', y', z');
      RanksAreDistinct(x', y', z', x, y, z);
    }
  }

  lemma SlotsArePositions(i: nat)
    requires i < BLOCKS_PER_SUBCHUNK
    ensures var x, y, z := i / 0x100, i % 0x10, i / 0x10 % 0x10;
            Inside(x, y, z) && WireSlot(x, y, z) == i
  {
  }

  lemma OrderedIsWireIndices(indices: seq<u16>, s: Section)
    requires Ordered(indices, s, BLOCKS_PER_SECTION)
    ensures indices == WireIndices(s)
  {
    forall i | 0 <= i < |indices|
      ensures indices[i] == WireIndices(s)[i]
    {
      var x, y, z := i / 0x100, i % 0x10, i / 0x10 % 0x10;
      SlotsArePositions(i);
      hide Rank, WireSlot, Inside, IndexOr0At;
      RanksAreDistinct(x, y, z, x, y, z);
      assert OrderedAt(indices, s, x, y, z);
    }
  }

  method Encode(s: Section) returns (e: Subchunk)
    ensures e == EncodeSection(s)
  {
    var palette := WireIds(s.palette);
    if UniformBlock(s).Some? || |palette| <= 1 {
      return Subchunk(palette, None);
    }
    var indices := new u16[BLOCKS_PER_SUBCHUNK](i => 0);
    for x := 0 to SECTION_SIZE
      invariant Ordered(indices[..], s, Rank(x, 0, 0))
    {
      for y := 0 to SECTION_SIZE
        invariant Ordered(indices[..], s, Rank(x, y, 0))
      {
        for z := 0 to SECTION_SIZE
          invariant Ordered(indices[..], s, Rank(x, y, z))
        {
          hide Ordered, IndexOr0At, WireSlot;
          OrderOne(indices[..], s, x, y, z);
          BlockOffsetIs(x, y, z);
          hide BlockOffset;
          ghost var before: seq<u16> := indices[..];
          indices[BlockOffset(x, y, z)] := IndexOr0At(s, x, y, z);
          assert indices[..] == before[WireSlot(x, y, z) := IndexOr0At(s, x, y, z)];
        }
      }
    }
    OrderedIsWireIndices(indices[..], s);
    e := Subchunk(palette, Some(indices[..]));
  }

  method EncodeColumn(sections: seq<Section>) returns (subchunks: seq<Subchunk>)
    ensures subchunks == EncodeAll(sections)
  {
    hide EncodeSection;
    subchunks := [];
    for i := 0 to |sections|
      invariant |subchunks| == i && forall j :: 0 <= j < i ==> subchunks[j] == EncodeSection(sections[j])
    {
      var e := Encode(sections[i]);
      subchunks := subchunks + [e];
    }
  }

  /** A column as one packet. */
  method ColumnPacket(chunk: Chunk, biome: i32) returns (p: Batches.Packet)
    requires chunk.Valid()
    ensures p == Batches.NewPacket(ID_LEVEL_CHUNK, ColumnBody(chunk.x, chunk.z, chunk.sections, biome))
  {
    hide EncodeAll, ColumnPayload, LevelChunkBody, SubchunkCount;
    var sections := chunk.sections;
    var count := SubchunkCount(sections);
    var encoded := EncodeColumn(sections[..Min(count, |sections|)]);
    var payload := WriteColumn(encoded, biome);
    var body := LevelChunk(chunk.x, chunk.z, count, payload);
    p := Batches.NewPacket(ID_LEVEL_CHUNK, body);
  }
}
