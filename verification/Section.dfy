/** A 16x16x16 cube of blocks, immutable once built: a palette, and one index per position unless the
    cube is all one block. */
module Sections {
  import opened Integers
  import opened Wrappers
  import opened Blocks

  const SECTION_SIZE: nat := 16
  const BLOCKS_PER_SECTION: nat := 4096
  const MAX_PALETTE: nat := 0x1_0000

  datatype Section = Section(palette: seq<Block>, indices: Option<seq<u16>>)

  predicate Inside(x: nat, y: nat, z: nat) {
    x < SECTION_SIZE && y < SECTION_SIZE && z < SECTION_SIZE
  }

  /** The slot of a position: y outermost, then z, then x. */
  function Slot(x: nat, y: nat, z: nat): nat {
    (y * SECTION_SIZE + z) * SECTION_SIZE + x
  }

  function Offset(x: nat, y: nat, z: nat): Option<nat> {
    if Inside(x, y, z) then Some(Slot(x, y, z)) else None
  }

  /** Every position is its own slot, and every slot a position. */
  lemma SlotsAreDistinct(x: nat, y: nat, z: nat, x': nat, y': nat, z': nat)
    requires Inside(x, y, z) && Inside(x', y', z')
    ensures Slot(x, y, z) < BLOCKS_PER_SECTION
    ensures Slot(x, y, z) == Slot(x', y', z') <==> (x, y, z) == (x', y', z')
  {
  }

  /** The first position of `block` in the palette. */
  function Position(palette: seq<Block>, block: Block): (i: Option<nat>)
    ensures i.Some? <==> block in palette
    ensures i.Some? ==> i.value < |palette| && palette[i.value] == block
    decreases |palette|
  {
    if palette == [] then None
    else if palette[0] == block then Some(0)
    else match Position(palette[1..], block)
         case None => None
         case Some(i) => Some(i + 1)
  }

  ghost predicate Distinct(palette: seq<Block>) {
    forall i, j :: 0 <= i < j < |palette| ==> palette[i] != palette[j]
  }

  ghost predicate InRange(indices: seq<u16>, count: nat) {
    |indices| == BLOCKS_PER_SECTION && forall i :: 0 <= i < |indices| ==> indices[i] < count
  }

  /** The palette names each block once and never more than 16 bits can index; there is an index array
      exactly when there is more than one block to choose from, and it stays inside the palette. */
  ghost predicate Valid(s: Section) {
    && 1 <= |s.palette| <= MAX_PALETTE
    && Distinct(s.palette)
    && (s.indices.Some? <==> |s.palette| >= 2)
    && (s.indices.Some? ==> InRange(s.indices.value, |s.palette|))
  }

  function Uniform(block: Block): (s: Section)
    ensures Valid(s)
    ensures forall x: nat, y: nat, z: nat :: Inside(x, y, z) ==> Get(s, x, y, z) == Some(block)
  {
    Section([block], None)
  }

  function Lookup(palette: seq<Block>, index: nat): Option<Block> {
    if index < |palette| then Some(palette[index]) else None
  }

  function IndexAt(s: Section, x: nat, y: nat, z: nat): Option<u16> {
    match Offset(x, y, z)
    case None => None
    case Some(offset) =>
      match s.indices
      case None => Some(0)
      case Some(indices) => if offset < |indices| then Some(indices[offset]) else None
  }

  function Get(s: Section, x: nat, y: nat, z: nat): Option<Block> {
    match IndexAt(s, x, y, z)
    case None => None
    case Some(index) => Lookup(s.palette, index)
  }

  function UniformBlock(s: Section): Option<Block> {
    if s.indices.None? then Lookup(s.palette, 0) else None
  }

  /** Judged from the palette alone. */
  predicate IsEmpty(s: Section) {
    forall i :: 0 <= i < |s.palette| ==> IsAir(s.palette[i])
  }

  /** In a valid section every position inside has a block, and the palette is what it comes from. */
  lemma GetIsTotal(s: Section, x: nat, y: nat, z: nat)
    requires Valid(s)
    ensures Get(s, x, y, z).Some? <==> Inside(x, y, z)
    ensures Inside(x, y, z) ==>
              IndexAt(s, x, y, z).Some? && IndexAt(s, x, y, z).value < |s.palette|
              && Get(s, x, y, z) == Some(s.palette[IndexAt(s, x, y, z).value])
    ensures Inside(x, y, z) && IsEmpty(s) ==> IsAir(Get(s, x, y, z).value)
  {
    if Inside(x, y, z) {
      SlotsAreDistinct(x, y, z, 0, 0, 0);
    }
  }

  // Writing a block makes a new section.

  function Interned(palette: seq<Block>, block: Block): (seq<Block>, nat) {
    match Position(palette, block)
    case Some(i) => (palette, i)
    case None => (palette + [block], |palette|)
  }

  function IndicesOf(s: Section): seq<u16> {
    match s.indices
    case Some(indices) => indices
    case None => seq(BLOCKS_PER_SECTION, i requires 0 <= i < BLOCKS_PER_SECTION => 0)
  }

  function WithBlock(s: Section, x: nat, y: nat, z: nat, block: Block): Option<Section> {
    match Offset(x, y, z)
    case None => None
    case Some(offset) =>
      if Get(s, x, y, z) == Some(block) then Some(s) else
      var (palette, index) := Interned(s.palette, block);
      var indices := IndicesOf(s);
      if index >= TWO_16 || offset >= |indices| then None
      else Some(Section(palette, Some(indices[offset := index])))
  }

  lemma InternedIsValid(palette: seq<Block>, block: Block)
    requires Distinct(palette)
    ensures var (after, index) := Interned(palette, block);
            && Distinct(after) && index < |after| && after[index] == block && palette <= after
            && |after| == |palette| + (if block in palette then 0 else 1)
  {
  }

  /** Room for one more block: it is there already, or the palette is not full. */
  predicate HasRoom(s: Section, block: Block) {
    block in s.palette || |s.palette| < MAX_PALETTE
  }

  lemma WrittenIsValid(s: Section, x: nat, y: nat, z: nat, block: Block)
    requires Valid(s) && Inside(x, y, z) && HasRoom(s, block)
    ensures var after := WithBlock(s, x, y, z, block);
            after.Some? && Valid(after.value) && s.palette <= after.value.palette
  {
    InternedIsValid(s.palette, block);
    GetIsTotal(s, x, y, z);
    SlotsAreDistinct(x, y, z, 0, 0, 0);
    hide Position;
    if Get(s, x, y, z) != Some(block) && s.indices.None? {
      assert s.palette[0] != block;
      assert block !in s.palette;
    }
  }

  lemma WrittenReadsBack(s: Section, x: nat, y: nat, z: nat, block: Block, x': nat, y': nat, z': nat)
    requires Valid(s) && Inside(x, y, z) && HasRoom(s, block) && Inside(x', y', z')
    ensures var after := WithBlock(s, x, y, z, block);
            after.Some? && Get(after.value, x', y', z') == if (x', y', z') == (x, y, z) then Some(block) else Get(s, x', y', z')
  {
    WrittenIsValid(s, x, y, z, block);
    InternedIsValid(s.palette, block);
    GetIsTotal(s, x', y', z');
    SlotsAreDistinct(x, y, z, x', y', z');
    SlotsAreDistinct(x', y', z', x, y, z);
    hide Position, Interned, Valid, Slot;
  }

  /** A write succeeds exactly inside the cube while the palette has room; it keeps the section valid,
      changes that one position, and never shrinks the palette. The old section is untouched. */
  lemma WithBlockChangesOnePoint(s: Section, x: nat, y: nat, z: nat, block: Block)
    requires Valid(s)
    ensures WithBlock(s, x, y, z, block).Some? <==> Inside(x, y, z) && HasRoom(s, block)
    ensures WithBlock(s, x, y, z, block).Some? ==>
              var after := WithBlock(s, x, y, z, block).value;
              && Valid(after) && s.palette <= after.palette
              && forall x': nat, y': nat, z': nat :: Get(after, x', y', z') == if (x', y', z') == (x, y, z) then Some(block) else Get(s, x', y', z')
  {
    if Inside(x, y, z) && HasRoom(s, block) {
      WrittenIsValid(s, x, y, z, block);
      var after := WithBlock(s, x, y, z, block).value;
      forall x': nat, y': nat, z': nat
        ensures Get(after, x', y', z') == if (x', y', z') == (x, y, z) then Some(block) else Get(s, x', y', z')
      {
        if Inside(x', y', z') {
          WrittenReadsBack(s, x, y, z, block, x', y', z');
        }
      }
    } else if Inside(x, y, z) {
      GetIsTotal(s, x, y, z);
      SlotsAreDistinct(x, y, z, 0, 0, 0);
    }
  }

  // A palette that is full.

  function Numbered(i: nat): Block
    requires i <= MAX_PALETTE
  {
    Block("minecraft:numbered", [("n", Int(i))])
  }

  function FirstNumbered(n: nat): (palette: seq<Block>)
    requires n <= MAX_PALETTE
  {
    seq(n, i requires 0 <= i < n => Numbered(i))
  }

  lemma FirstNumberedGrows(n: nat)
    requires n < MAX_PALETTE
    ensures |FirstNumbered(n)| == n && Numbered(n) !in FirstNumbered(n)
    ensures FirstNumbered(n + 1) == FirstNumbered(n) + [Numbered(n)]
  {
  }

  /** One corner painted over n times, each time with a block never used before. */
  function Repainted(n: nat): Option<Section>
    requires n < MAX_PALETTE
  {
    if n == 0 then Some(Uniform(Numbered(0))) else
    match Repainted(n - 1)
    case None => None
    case Some(s) => WithBlock(s, 0, 0, 0, Numbered(n))
  }

  lemma NewBlockIsAppended(s: Section, x: nat, y: nat, z: nat, block: Block)
    requires Valid(s) && Inside(x, y, z) && block !in s.palette && |s.palette| < MAX_PALETTE
    ensures WithBlock(s, x, y, z, block).Some? && Valid(WithBlock(s, x, y, z, block).value)
    ensures WithBlock(s, x, y, z, block).value.palette == s.palette + [block]
  {
    WrittenIsValid(s, x, y, z, block);
    GetIsTotal(s, x, y, z);
    hide Valid, Slot;
  }

  lemma RepaintedAgain(n: nat)
    requires 0 < n < MAX_PALETTE && Repainted(n - 1).Some?
    ensures Repainted(n) == WithBlock(Repainted(n - 1).value, 0, 0, 0, Numbered(n))
  {
    hide WithBlock, Numbered;
  }

  lemma {:induction false} RepaintingFillsThePalette(n: nat)
    requires n < MAX_PALETTE
    ensures Repainted(n).Some? && Valid(Repainted(n).value)
    ensures Repainted(n).value.palette == FirstNumbered(n + 1)
  {
    if n == 0 {
      assert FirstNumbered(1) == [Numbered(0)];
      return;
    }
    hide Repainted, Valid, WithBlock, FirstNumbered, Numbered;
    RepaintingFillsThePalette(n - 1);
    RepaintedAgain(n);
    FirstNumberedGrows(n);
    NewBlockIsAppended(Repainted(n - 1).value, 0, 0, 0, Numbered(n));
  }

  /** A section any caller can make: its palette takes no 65537th block, at any position, for it never
      forgets one. */
  lemma FullPaletteRefuses(x: nat, y: nat, z: nat)
    ensures var s := Repainted(MAX_PALETTE - 1);
            && s.Some? && Valid(s.value) && |s.value.palette| == MAX_PALETTE
            && WithBlock(s.value, x, y, z, Numbered(MAX_PALETTE)) == None
  {
    RepaintingFillsThePalette(MAX_PALETTE - 1);
    hide Repainted;
    var s := Repainted(MAX_PALETTE - 1).value;
    WithBlockChangesOnePoint(s, x, y, z, Numbered(MAX_PALETTE));
    assert Numbered(MAX_PALETTE) !in s.palette;
    hide WithBlock;
  }

  // Building a section position by position.

  /** How many positions the walk visits before (x, y, z): x outermost, z innermost. */
  function Rank(x: nat, y: nat, z: nat): nat {
    (x * SECTION_SIZE + y) * SECTION_SIZE + z
  }

  ghost predicate Shows(palette: seq<Block>, indices: seq<u16>, slot: nat, block: Block) {
    slot < |indices| && indices[slot] < |palette| && palette[indices[slot]] == block
  }

  /** The first n positions of the walk are in. */
  ghost predicate Filled(palette: seq<Block>, indices: seq<u16>, blockAt: (nat, nat, nat) -> Block, n: nat) {
    && Distinct(palette) && |palette| <= n
    && (n > 0 ==> |palette| > 0)
    && |indices| == BLOCKS_PER_SECTION
    && (forall i :: 0 <= i < |indices| ==> indices[i] == 0 || indices[i] < |palette|)
    && forall x, y, z :: Inside(x, y, z) && Rank(x, y, z) < n ==> Shows(palette, indices, Slot(x, y, z), blockAt(x, y, z))
  }

  lemma RanksAreDistinct(x: nat, y: nat, z: nat, x': nat, y': nat, z': nat)
    requires Inside(x, y, z) && Inside(x', y', z')
    ensures Rank(x, y, z) < BLOCKS_PER_SECTION
    ensures Rank(x, y, z) == Rank(x', y', z') ==> (x, y, z) == (x', y', z')
  {
  }

  lemma FillOne(palette: seq<Block>, indices: seq<u16>, blockAt: (nat, nat, nat) -> Block, x: nat, y: nat, z: nat)
    requires Inside(x, y, z) && Filled(palette, indices, blockAt, Rank(x, y, z))
    ensures var (after, index) := Interned(palette, blockAt(x, y, z));
            && index < TWO_16 && Slot(x, y, z) < |indices|
            && Filled(after, indices[Slot(x, y, z) := index], blockAt, Rank(x, y, z) + 1)
  {
    var block := blockAt(x, y, z);
    var (after, index) := Interned(palette, block);
    InternedIsValid(palette, block);
    SlotsAreDistinct(x, y, z, x, y, z);
    RanksAreDistinct(x, y, z, x, y, z);
    hide Interned, Position, Distinct, Rank, Slot;
    var filled := indices[Slot(x, y, z) := index];
    forall x', y', z' | Inside(x', y', z') && Rank(x', y', z') < Rank(x, y, z) + 1
      ensures Shows(after, filled, Slot(x', y', z'), blockAt(x', y', z'))
    {
      SlotsAreDistinct(x', y', z', x, y, z);
      RanksAreDistinct(x', y', z', x, y, z);
    }
  }

  lemma FilledIsTheSection(palette: seq<Block>, indices: seq<u16>, blockAt: (nat, nat, nat) -> Block)
    requires Filled(palette, indices, blockAt, BLOCKS_PER_SECTION)
    ensures var s := Section(palette, if |palette| == 1 then None else Some(indices));
            && Valid(s)
            && forall x: nat, y: nat, z: nat :: Inside(x, y, z) ==> Get(s, x, y, z) == Some(blockAt(x, y, z))
  {
    var s := Section(palette, if |palette| == 1 then None else Some(indices));
    forall x: nat, y: nat, z: nat | Inside(x, y, z)
      ensures Get(s, x, y, z) == Some(blockAt(x, y, z))
    {
      SlotsAreDistinct(x, y, z, x, y, z);
      RanksAreDistinct(x, y, z, x, y, z);
      assert Shows(palette, indices, Slot(x, y, z), blockAt(x, y, z));
    }
  }

  method FromFn(blockAt: (nat, nat, nat) -> Block) returns (s: Section)
    ensures Valid(s)
    ensures forall x: nat, y: nat, z: nat :: Inside(x, y, z) ==> Get(s, x, y, z) == Some(blockAt(x, y, z))
  {
    var palette: seq<Block> := [];
    var indices := new u16[BLOCKS_PER_SECTION](i => 0);
    for x := 0 to SECTION_SIZE
      invariant Filled(palette, indices[..], blockAt, Rank(x, 0, 0))
    {
      for y := 0 to SECTION_SIZE
        invariant Filled(palette, indices[..], blockAt, Rank(x, y, 0))
      {
        for z := 0 to SECTION_SIZE
          invariant Filled(palette, indices[..], blockAt, Rank(x, y, z))
        {
          hide Filled, Interned, Slot;
          FillOne(palette, indices[..], blockAt, x, y, z);
          var (grown, index) := Interned(palette, blockAt(x, y, z));
          palette := grown;
          ghost var before: seq<u16> := indices[..];
          var entry: u16 := index;
          indices[Slot(x, y, z)] := entry;
          assert indices[..] == before[Slot(x, y, z) := entry];
        }
      }
    }
    FilledIsTheSection(palette, indices[..], blockAt);
    s := Section(palette, if |palette| == 1 then None else Some(indices[..]));
  }
}
