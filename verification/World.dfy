/** The columns that exist, and the generator that makes the others on demand. */
module Worlds {
  import opened Integers
  import opened Wrappers
  import opened Blocks
  import opened Sections
  import opened Chunks

  // The flat generator.

  datatype Flat = Flat(surfaceHeight: i32, template: seq<Section>)

  /** Stone below the surface, air from it up. */
  function Natural(surface: i32, y: int): Block {
    if y < surface then STONE else AIR
  }

  ghost predicate FlatOk(f: Flat) {
    && ColumnOk(f.template)
    && forall x: nat, y: int, z: nat :: InColumn(x, y, z) ==> BlockIn(f.template, x, y, z) == Some(Natural(f.surfaceHeight, y))
  }

  /** A cube of the flat world, its bottom at height `bottom`. */
  ghost predicate Layer(s: Section, bottom: int, surface: i32) {
    && Sections.Valid(s)
    && forall x: nat, y: nat, z: nat :: Inside(x, y, z) ==> Get(s, x, y, z) == Some(Natural(surface, bottom + y))
  }

  function ClampHeight(height: int): nat {
    if height < 0 then 0 else Min(height, SECTION_SIZE)
  }

  /** Stone below `height`, air from there up. */
  method CutSection(height: int) returns (s: Section)
    ensures Sections.Valid(s)
    ensures forall x: nat, y: nat, z: nat :: Inside(x, y, z) ==> Get(s, x, y, z) == Some(if y < height then STONE else AIR)
  {
    var h := ClampHeight(height);
    s := FromFn((x, y, z) => if y < h then STONE else AIR);
  }

  method NewFlat(surface: i32) returns (f: Flat)
    ensures FlatOk(f) && f.surfaceHeight == surface
  {
    var template: seq<Section> := [];
    for index := MIN_SECTION to MAX_SECTION + 1
      invariant |template| == index - MIN_SECTION
      invariant forall i :: 0 <= i < |template| ==> Layer(template[i], (MIN_SECTION + i) * SECTION_SIZE, surface)
    {
      var bottom := index * SECTION_SIZE;
      var top := bottom + SECTION_SIZE;
      var section: Section;
      if top <= surface {
        section := Uniform(STONE);
      } else if bottom >= surface {
        section := Uniform(AIR);
      } else {
        section := CutSection(surface - bottom);
      }
      assert Layer(section, bottom, surface);
      hide Layer;
      template := template + [section];
    }
    f := Flat(surface, template);
    LayersAreTheFlatWorld(f);
  }

  lemma LayersAreTheFlatWorld(f: Flat)
    requires |f.template| == SECTION_COUNT
    requires forall i :: 0 <= i < |f.template| ==> Layer(f.template[i], (MIN_SECTION + i) * SECTION_SIZE, f.surfaceHeight)
    ensures FlatOk(f)
  {
    forall x: nat, y: int, z: nat | InColumn(x, y, z)
      ensures BlockIn(f.template, x, y, z) == Some(Natural(f.surfaceHeight, y))
    {
      HeightSplits(y, y);
      var slot := SectionIndex(y) - MIN_SECTION;
      assert Layer(f.template[slot], (MIN_SECTION + slot) * SECTION_SIZE, f.surfaceHeight);
      assert Inside(x, SectionOffset(y), z);
    }
  }

  method Generate(f: Flat, x: i32, z: i32) returns (c: Chunk)
    requires FlatOk(f)
    ensures fresh(c) && c.Valid() && (c.x, c.z) == (x, z) && c.sections == f.template
  {
    var made := Chunk.FromSections(x, z, f.template);
    var padded := Padded(f.template).value;
    assert |padded| == |f.template| && forall i :: 0 <= i < |padded| ==> padded[i] == f.template[i];
    assert padded == f.template;
    if made.Some? {
      c := made.value;
    } else {
      c := Chunk.Empty(x, z);
    }
  }

  // Positions.

  function ChunkOf(x: int, z: int): (int, int) {
    (x / SECTION_SIZE, z / SECTION_SIZE)
  }

  function LocalOf(x: int, z: int): (nat, nat) {
    (x % SECTION_SIZE, z % SECTION_SIZE)
  }

  /** A column and a place in it name one position of the world, on both sides of zero. */
  lemma PositionsAreDistinct(x: int, z: int, x': int, z': int)
    ensures LocalOf(x, z).0 < SECTION_SIZE && LocalOf(x, z).1 < SECTION_SIZE
    ensures (x, z) == (x', z') <==> ChunkOf(x, z) == ChunkOf(x', z') && LocalOf(x, z) == LocalOf(x', z')
  {
  }

  /** The column's corner and the place in it add up to the position. */
  lemma PositionIsItsParts(x: int, z: int)
    ensures ChunkOf(x, z).0 * 16 + LocalOf(x, z).0 == x && ChunkOf(x, z).1 * 16 + LocalOf(x, z).1 == z
    ensures LocalOf(x, z).0 < 16 && LocalOf(x, z).1 < 16
  {
  }

  // Every run of calls.

  datatype Op =
    | Look(cx: int, cz: int)
    | Put(x: int, y: int, z: int, block: Block)
    | Forget(cx: int, cz: int)

  /** What one call makes of the column at (cx, cz). */
  function After(f: Flat, before: seq<Section>, cx: int, cz: int, op: Op): seq<Section> {
    match op
    case Look(_, _) => before
    case Forget(x, z) => if (x, z) == (cx, cz) then f.template else before
    case Put(x, y, z, block) =>
      if ChunkOf(x, z) == (cx, cz) then SectionsSet(before, LocalOf(x, z).0, y, LocalOf(x, z).1, block) else before
  }

  function ColumnAfter(f: Flat, ops: seq<Op>, cx: int, cz: int): seq<Section>
    decreases |ops|
  {
    if ops == [] then f.template
    else After(f, ColumnAfter(f, ops[..|ops| - 1], cx, cz), cx, cz, ops[|ops| - 1])
  }

  function ShownAfter(f: Flat, ops: seq<Op>, x: int, y: int, z: int): Option<Block> {
    BlockIn(ColumnAfter(f, ops, ChunkOf(x, z).0, ChunkOf(x, z).1), LocalOf(x, z).0, y, LocalOf(x, z).1)
  }

  /** Whether the last call of the run wrote this position. */
  predicate WroteLast(f: Flat, ops: seq<Op>, x: int, y: int, z: int)
    requires ops != [] && MIN_Y <= y < MAX_Y
  {
    var last := |ops| - 1;
    var column := ColumnAfter(f, ops[..last], ChunkOf(x, z).0, ChunkOf(x, z).1);
    && ops[last].Put? && (ops[last].x, ops[last].y, ops[last].z) == (x, y, z)
    && |column| == SECTION_COUNT
    && HasRoom(SectionAt(column, y), ops[last].block)
  }

  /** The block last written at a position since its column was last forgotten, or the natural one. */
  function Remembered(f: Flat, ops: seq<Op>, x: int, y: int, z: int): Block
    requires MIN_Y <= y < MAX_Y
    decreases |ops|
  {
    if ops == [] then Natural(f.surfaceHeight, y)
    else if WroteLast(f, ops, x, y, z) then ops[|ops| - 1].block
    else if ops[|ops| - 1].Forget? && (ops[|ops| - 1].cx, ops[|ops| - 1].cz) == ChunkOf(x, z) then Natural(f.surfaceHeight, y)
    else Remembered(f, ops[..|ops| - 1], x, y, z)
  }

  lemma {:induction false} ColumnsStayOk(f: Flat, ops: seq<Op>, cx: int, cz: int)
    requires FlatOk(f)
    ensures ColumnOk(ColumnAfter(f, ops, cx, cz))
    decreases |ops|
  {
    if ops != [] {
      var last := |ops| - 1;
      ColumnsStayOk(f, ops[..last], cx, cz);
      if ops[last].Put? {
        SetChangesOnePoint(ColumnAfter(f, ops[..last], cx, cz), LocalOf(ops[last].x, ops[last].z).0, ops[last].y,
                           LocalOf(ops[last].x, ops[last].z).1, ops[last].block);
      }
    }
  }

  /** A world is its history: after any run of looks, writes and unloads, every position, on both sides
      of zero and at every height, shows the block last written there since its column was last
      unloaded, or else stone below the surface and air from it up. */
  lemma {:induction false} WorldIsItsHistory(f: Flat, ops: seq<Op>, x: int, y: int, z: int)
    requires FlatOk(f)
    ensures ShownAfter(f, ops, x, y, z) == if MIN_Y <= y < MAX_Y then Some(Remembered(f, ops, x, y, z)) else None
    decreases |ops|
  {
    var (cx, cz) := ChunkOf(x, z);
    var (bx, bz) := LocalOf(x, z);
    PositionsAreDistinct(x, z, x, z);
    if !(MIN_Y <= y < MAX_Y) {
      ColumnsStayOk(f, ops, cx, cz);
      ColumnIsTotal(ColumnAfter(f, ops, cx, cz), bx, y, bz);
    } else if ops != [] {
      var last := |ops| - 1;
      var before, op := ColumnAfter(f, ops[..last], cx, cz), ops[last];
      WorldIsItsHistory(f, ops[..last], x, y, z);
      ColumnsStayOk(f, ops[..last], cx, cz);
      if op.Put? {
        PositionsAreDistinct(x, z, op.x, op.z);
        SetChangesOnePoint(before, LocalOf(op.x, op.z).0, op.y, LocalOf(op.x, op.z).1, op.block);
        hide ColumnOk, BlockIn, SetIn, HasRoom, SectionAt;
      } else {
        hide ColumnOk, BlockIn;
        assert InColumn(bx, y, bz);
      }
    }
  }

  class World {
    const generator: Flat
    var chunks: map<(int, int), Chunk>

    /** Each column knows its place, so no two places share one. */
    ghost predicate Valid()
      reads this, chunks.Values
    {
      && FlatOk(generator)
      && forall k :: k in chunks ==> chunks[k].Valid() && (chunks[k].x, chunks[k].z) == k
    }

    /** What the world is: a block at every position, whether or not its column has been generated. */
    ghost function Sections(cx: int, cz: int): seq<Section>
      reads this, chunks.Values
    {
      if (cx, cz) in chunks then chunks[(cx, cz)].sections else generator.template
    }

    /** Every column at once. */
    ghost function Snapshot(): imap<(int, int), seq<Section>>
      reads this, chunks.Values
    {
      imap p: (int, int) | true :: Sections(p.0, p.1)
    }

    ghost function Shown(x: int, y: int, z: int): Option<Block>
      reads this, chunks.Values
    {
      BlockIn(Sections(ChunkOf(x, z).0, ChunkOf(x, z).1), LocalOf(x, z).0, y, LocalOf(x, z).1)
    }

    constructor (surfaceHeight: i32)
      ensures Valid() && chunks == map[] && generator.surfaceHeight == surfaceHeight
      ensures forall x: int, y: int, z: int :: MIN_Y <= y < MAX_Y ==> Shown(x, y, z) == Some(Natural(surfaceHeight, y))
    {
      var flat := NewFlat(surfaceHeight);
      this.generator := flat;
      this.chunks := map[];
      new;
      forall x: int, y: int, z: int | MIN_Y <= y < MAX_Y
        ensures Shown(x, y, z) == Some(Natural(surfaceHeight, y))
      {
        PositionsAreDistinct(x, z, x, z);
        assert InColumn(LocalOf(x, z).0, y, LocalOf(x, z).1);
      }
    }

    /** The column at (x, z), generated if this is the first time it is asked for: nothing a reader of
        the world can see changes. */
    method Column(x: i32, z: i32) returns (c: Chunk)
      requires Valid()
      modifies this
      ensures Valid()
      ensures c.Valid() && (c.x, c.z) == (x, z) && (x, z) in chunks && chunks[(x, z)] == c
      ensures c.sections == old(Sections(x, z))
      ensures forall cx: int, cz: int :: Sections(cx, cz) == old(Sections(cx, cz))
      ensures Snapshot() == old(Snapshot())
      ensures old(chunks.Keys) <= chunks.Keys && forall k :: k in old(chunks) ==> chunks[k] == old(chunks[k])
      ensures forall k :: k in chunks && k !in old(chunks) ==> fresh(chunks[k])
    {
      if (x, z) !in chunks {
        var made := Generate(generator, x, z);
        chunks := chunks[(x, z) := made];
      }
      c := chunks[(x, z)];
    }

    /** Forgets a column: it is as generated when asked for again. */
    method Unload(x: i32, z: i32) returns (was: bool)
      requires Valid()
      modifies this
      ensures Valid()
      ensures was <==> (x, z) in old(chunks)
      ensures (x, z) !in chunks
      ensures forall cx: int, cz: int :: Sections(cx, cz) == After(generator, old(Sections(cx, cz)), cx, cz, Forget(x, z))
    {
      was := (x, z) in chunks;
      chunks := chunks - {(x, z)};
    }

    method BlockAt(x: i32, y: i32, z: i32) returns (block: Option<Block>)
      requires Valid()
      modifies this
      ensures Valid()
      ensures block == old(Shown(x, y, z))
      ensures forall cx: int, cz: int :: Sections(cx, cz) == old(Sections(cx, cz))
    {
      var (cx, cz) := ChunkOf(x, z);
      var c := Column(cx, cz);
      block := c.BlockAt(LocalOf(x, z).0, y, LocalOf(x, z).1);
    }

    /** Replaces one block, generating its column if needed. */
    method SetBlock(x: i32, y: i32, z: i32, block: Block) returns (ok: bool)
      requires Valid()
      modifies this, chunks.Values
      ensures Valid()
      ensures ok <==> MIN_Y <= y < MAX_Y && HasRoom(SectionAt(old(Sections(ChunkOf(x, z).0, ChunkOf(x, z).1)), y), block)
      ensures forall cx: int, cz: int :: Sections(cx, cz) == After(generator, old(Sections(cx, cz)), cx, cz, Put(x, y, z, block))
      ensures forall x': int, y': int, z': int ::
                Shown(x', y', z') == if ok && (x', y', z') == (x, y, z) then Some(block) else old(Shown(x', y', z'))
    {
      var (cx, cz) := ChunkOf(x, z);
      var (bx, bz) := LocalOf(x, z);
      ghost var before := Sections(cx, cz);
      SetChangesOnePoint(before, bx, y, bz, block);
      ok := SetInColumn(cx, cz, bx, y, bz, block);
      PositionsAreDistinct(x, z, x, z);
      hide FlatOk, ColumnOk, BlockIn, SectionAt, SetIn, HasRoom;
      forall x': int, y': int, z': int
        ensures Shown(x', y', z') == if ok && (x', y', z') == (x, y, z) then Some(block) else old(Shown(x', y', z'))
      {
        PositionsAreDistinct(x, z, x', z');
      }
    }

    method SetInColumn(cx: i32, cz: i32, bx: nat, y: i32, bz: nat, block: Block) returns (ok: bool)
      requires Valid()
      modifies this, chunks.Values
      ensures Valid()
      ensures ok <==> CanSet(old(Sections(cx, cz)), bx, y, bz, block)
      ensures forall x: int, z: int ::
                Sections(x, z) == if (x, z) == (cx, cz) then SectionsSet(old(Sections(cx, cz)), bx, y, bz, block) else old(Sections(x, z))
    {
      hide FlatOk, ColumnOk, BlockIn, CanSet, SectionsSet;
      var c := Column(cx, cz);
      assert forall k :: k in chunks && k != (cx, cz) ==> chunks[k] != c;
      ok := c.SetBlock(bx, y, bz, block);
    }
  }
}
