/** Fixed-width integers, as ranges of `int`. Wrap-around is written out where it can happen. */
module Integers {
  const TWO_8: nat := 0x100
  const TWO_16: nat := 0x1_0000
  const TWO_24: nat := 0x100_0000
  const TWO_31: nat := 0x8000_0000
  const TWO_32: nat := 0x1_0000_0000
  const TWO_64: nat := 0x1_0000_0000_0000_0000

  type u8 = x: int | 0 <= x < 0x100
  type u16 = x: int | 0 <= x < 0x1_0000
  type u32 = x: int | 0 <= x < 0x1_0000_0000
  type u64 = x: int | 0 <= x < 0x1_0000_0000_0000_0000
  type i32 = x: int | -0x8000_0000 <= x < 0x8000_0000

  type bytes = seq<u8>

  function Min(a: nat, b: nat): nat {
    if a <= b then a else b
  }

  function Max(a: nat, b: nat): nat {
    if a >= b then a else b
  }

  /** `saturating_sub`: also what `Instant::duration_since` answers for a later argument. */
  function Monus(a: nat, b: nat): nat {
    if a >= b then a - b else 0
  }

  lemma Assoc<T>(a: seq<T>, b: seq<T>, c: seq<T>)
    ensures a + (b + c) == a + b + c
  {
  }

  lemma HeadTail<T>(s: seq<T>)
    requires s != []
    ensures s == [s[0]] + s[1..]
  {
  }
}
