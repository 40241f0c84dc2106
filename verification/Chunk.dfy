/** A column: 24 sections, their heights running from -64 to 319. */
module Chunks {
  import opened Integers
  import opened Wrappers
  import opened Blocks
  import opened Sections

  const MIN_SECTION: int := -4
  const MAX_SECTION: int := 19
  const SECTION_COUNT: nat := 24
  const MIN_Y: int := -64
  const MAX_Y: int := 320

  /** Rounds down, also below zero. */
  function SectionIndex(y: int): int {
    y / SECTION_SIZE
  }

  function SectionOffset(y: int): nat {
    y % SECTION_SIZE
  }

  predicate InColumn(x: nat, y: int, z: nat) {
    x < SECTION_SIZE && MIN_Y <= y < MAX_Y && z < SECTION_SIZE
  }

  function SectionOf(sections: seq<Section>, index: int): Option<Section> {
    var slot := index - MIN_SECTION;
    if 0 <= slot < |sections| then Some(sections[slot]) else None
  }

  function BlockIn(sections: seq<Section>, x: nat, y: int, z: nat): Option<Block> {
    match SectionOf(sections, SectionIndex(y))
    case None => None
    case Some(section) => Get(section, x, SectionOffset(y), z)
  }

  ghost predicate ColumnOk(sections: seq<Section>) {
    |sections| == SECTION_COUNT && forall i :: 0 <= i < |sections| ==> Sections.Valid(sections[i])
  }

  /** Short columns are padded with air; tall ones are refused. */
  function Padded(sections: seq<Section>): Option<seq<Section>> {
    if |sections| > SECTION_COUNT then None
    else Some(sections + seq(SECTION_COUNT - |sections|, i => Uniform(AIR)))
  }

  function SlotAbove(sections: seq<Section>): (count: nat)
    ensures count <= |sections|
    decreases |sections|
  {
    if sections == [] then 0
    else if !IsEmpty(sections[|sections| - 1]) then |sections|
    else SlotAbove(sections[..|sections| - 1])
  }

  ghost predicate OnlyAir(s: Section) {
    forall b :: b in s.palette ==> b.name == "minecraft:air"
  }

  /** The count stops behind the last section with a block other than air in its palette. */
  lemma {:induction false} CountIsLeast(sections: seq<Section>)
    ensures var count := SlotAbove(sections);
            && (count > 0 ==> !OnlyAir(sections[count - 1]))
            && (forall n :: count <= n < |sections| ==> OnlyAir(sections[n]))
    decreases |sections|
  {
    if sections != [] {
      var s := sections[|sections| - 1];
      assert IsEmpty(s) <==> OnlyAir(s) by {
        assert forall i :: 0 <= i < |s.palette| ==> s.palette[i] in s.palette;
      }
      if IsEmpty(s) {
        CountIsLeast(sections[..|sections| - 1]);
      }
    }
  }

  function HighestUsed(sections: seq<Section>): Option<int> {
    var count := SlotAbove(sections);
    if count == 0 then None else Some(MIN_SECTION + (count - 1))
  }

  function SetIn(sections: seq<Section>, x: nat, y: int, z: nat, block: Block): Option<seq<Section>> {
    var slot := SectionIndex(y) - MIN_SECTION;
    if !(0 <= slot < |sections|) then None else
    match WithBlock(sections[slot], x, SectionOffset(y), z, block)
    case None => None
    case Some(updated) => Some(sections[slot := updated])
  }

  /** The sections after trying to write. */
  function SectionsSet(sections: seq<Section>, x: nat, y: int, z: nat, block: Block): seq<Section> {
    match SetIn(sections, x, y, z, block)
    case Some(after) => after
    case None => sections
  }

  /** One height is one offset in one section. */
  lemma HeightSplits(y: int, y': int)
    ensures 0 <= SectionIndex(y) - MIN_SECTION < SECTION_COUNT <==> MIN_Y <= y < MAX_Y
    ensures SectionOffset(y) < SECTION_SIZE
    ensures y == y' <==> SectionIndex(y) == SectionIndex(y') && SectionOffset(y) == SectionOffset(y')
  {
  }

  /** Every position in the column has a block, and no other position has. */
  lemma ColumnIsTotal(sections: seq<Section>, x: nat, y: int, z: nat)
    requires ColumnOk(sections)
    ensures BlockIn(sections, x, y, z).Some? <==> InColumn(x, y, z)
  {
    HeightSplits(y, y);
    if MIN_Y <= y < MAX_Y {
      GetIsTotal(sections[SectionIndex(y) - MIN_SECTION], x, SectionOffset(y), z);
    }
  }

  /** The section of a height. */
  function SectionAt(sections: seq<Section>, y: int): Section
    requires |sections| == SECTION_COUNT && MIN_Y <= y < MAX_Y
  {
    HeightSplits(y, y);
    sections[SectionIndex(y) - MIN_SECTION]
  }

  /** Whether a write succeeds: inside the column, with room in the palette it lands in. */
  predicate CanSet(sections: seq<Section>, x: nat, y: int, z: nat, block: Block)
    requires |sections| == SECTION_COUNT
  {
    InColumn(x, y, z) && HasRoom(SectionAt(sections, y), block)
  }

  /** A write changes one position of the column, across section boundaries and below zero. */
  lemma SetChangesOnePoint(sections: seq<Section>, x: nat, y: int, z: nat, block: Block)
    requires ColumnOk(sections)
    ensures SetIn(sections, x, y, z, block).Some? <==> CanSet(sections, x, y, z, block)
    ensures SetIn(sections, x, y, z, block).Some? ==>
              var after := SetIn(sections, x, y, z, block).value;
              && ColumnOk(after)
              && forall x': nat, y': int, z': nat ::
                   BlockIn(after, x', y', z') == if (x', y', z') == (x, y, z) then Some(block) else BlockIn(sections, x', y', z')
  {
    HeightSplits(y, y);
    if MIN_Y <= y < MAX_Y {
      WithBlockChangesOnePoint(SectionAt(sections, y), x, SectionOffset(y), z, block);
      hide Sections.Valid, WithBlock, Get, HasRoom;
      if SetIn(sections, x, y, z, block).Some? {
        var after := SetIn(sections, x, y, z, block).value;
        forall x': nat, y': int, z': nat
          ensures BlockIn(after, x', y', z') == if (x', y', z') == (x, y, z) then Some(block) else BlockIn(sections, x', y', z')
        {
          HeightSplits(y, y');
        }
      }
    }
  }

  /** Everything above the highest used section is air by name. */
  lemma {:induction false} AboveIsEmpty(sections: seq<Section>, i: nat)
    requires SlotAbove(sections) <= i < |sections|
    ensures IsEmpty(sections[i])
    decreases |sections|
  {
    if i < |sections| - 1 {
      AboveIsEmpty(sections[..|sections| - 1], i);
    }
  }

  class Chunk {
    const x: i32
    const z: i32
    var sections: seq<Section>

    ghost predicate Valid()
      reads this
    {
      ColumnOk(sections)
    }

    constructor (x: i32, z: i32, sections: seq<Section>)
      requires ColumnOk(sections)
      ensures Valid() && this.x == x && this.z == z && this.sections == sections
    {
      this.x, this.z, this.sections := x, z, sections;
    }

    /** Every section air. */
    static method Empty(x: i32, z: i32) returns (c: Chunk)
      ensures fresh(c) && c.Valid() && (c.x, c.z) == (x, z)
      ensures forall bx: nat, y: int, bz: nat :: InColumn(bx, y, bz) ==> c.BlockAt(bx, y, bz) == Some(AIR)
    {
      c := new Chunk(x, z, seq(SECTION_COUNT, i => Uniform(AIR)));
      forall bx: nat, y: int, bz: nat | InColumn(bx, y, bz)
        ensures c.BlockAt(bx, y, bz) == Some(AIR)
      {
        HeightSplits(y, y);
      }
    }

    static method FromSections(x: i32, z: i32, sections: seq<Section>) returns (c: Option<Chunk>)
      requires forall i :: 0 <= i < |sections| ==> Sections.Valid(sections[i])
      ensures c.Some? <==> |sections| <= SECTION_COUNT
      ensures c.Some? ==> fresh(c.value) && c.value.Valid() && (c.value.x, c.value.z) == (x, z)
                          && Some(c.value.sections) == Padded(sections)
    {
      if |sections| > SECTION_COUNT {
        return None;
      }
      var chunk := new Chunk(x, z, Padded(sections).value);
      c := Some(chunk);
    }

    function BlockAt(bx: nat, y: int, bz: nat): Option<Block>
      reads this
    {
      BlockIn(sections, bx, y, bz)
    }

    method SetBlock(bx: nat, y: int, bz: nat, block: Block) returns (ok: bool)
      requires Valid()
      modifies this
      ensures Valid()
      ensures ok <==> CanSet(old(sections), bx, y, bz, block)
      ensures sections == SectionsSet(old(sections), bx, y, bz, block)
      ensures forall x': nat, y': int, z': nat ::
                BlockAt(x', y', z') == if ok && (x', y', z') == (bx, y, bz) then Some(block) else old(BlockAt(x', y', z'))
    {
      SetChangesOnePoint(sections, bx, y, bz, block);
      hide CanSet, BlockIn, ColumnOk, WithBlock;
      var slot := SectionIndex(y) - MIN_SECTION;
      if !(0 <= slot < |sections|) {
        return false;
      }
      var updated := WithBlock(sections[slot], bx, SectionOffset(y), bz, block);
      if updated.None? {
        return false;
      }
      sections := sections[slot := updated.value];
      ok := true;
    }
  }
}
