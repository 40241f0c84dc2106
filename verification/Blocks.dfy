/** What a block is, and what one version of the wire calls it. */
module Blocks {
  import opened Integers
  import opened Wrappers

  datatype Value = Bool(b: bool) | Int(i: i32) | Text(t: string)

  /** A kind of block; two with equal names and properties are the same. */
  datatype Block = Block(name: string, properties: seq<(string, Value)>)

  const AIR := Block("minecraft:air", [])
  const STONE := Block("minecraft:stone", [])

  /** Air is recognised by its name alone. */
  predicate IsAir(b: Block) {
    b.name == AIR.name
  }

  const RUNTIME_ID_AIR: i32 := 13094
  const RUNTIME_ID_STONE: i32 := 2706

  function RuntimeId(b: Block): Option<i32> {
    if b.properties != [] then None
    else if b.name == "minecraft:air" then Some(RUNTIME_ID_AIR)
    else if b.name == "minecraft:stone" then Some(RUNTIME_ID_STONE)
    else None
  }

  /** How a block is written: one this version has no id for goes out as air. */
  function WireId(b: Block): i32 {
    match RuntimeId(b)
    case Some(id) => id
    case None => RUNTIME_ID_AIR
  }

  /** Only stone, as the flat world lays it, is written as stone; everything else is written as air. */
  lemma OnlyStoneIsStone(b: Block)
    ensures WireId(b) == if b == Block("minecraft:stone", []) then 2706 else 13094
  {
  }

  /** Anything air by name is written as air, whatever its properties. */
  lemma AirIsWrittenAsAir(b: Block)
    requires IsAir(b)
    ensures WireId(b) == RUNTIME_ID_AIR
  {
  }
}
