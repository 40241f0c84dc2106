/** How a column is written, and how a client reads it: bit-packed palette indices in the wire's own
    axis order, truncated above the highest used section. */
module LevelChunks {
  import opened Integers
  import opened GameBytes
  import Bits

  const ID_LEVEL_CHUNK: nat := 58
  const ID_NETWORK_CHUNK_PUBLISHER_UPDATE: nat := 121
  const BIOME_PLAINS: i32 := 1
  const OVERWORLD_SUBCHUNKS: nat := 24
  const BLOCKS_PER_SUBCHUNK: nat := 4096
  const SUBCHUNK_VERSION: nat := 8

  /** X first, then Z, then Y: not the order of storage. */
  function BlockOffset(x: nat, y: nat, z: nat): nat {
    Bits.Or(Bits.Or(x * 0x100, z * 0x10), y)
  }

  function WireSlot(x: nat, y: nat, z: nat): nat {
    x * 0x100 + z * 0x10 + y
  }

  lemma BlockOffsetIs(x: nat, y: nat, z: nat)
    requires y < 16 && z < 16
    ensures BlockOffset(x, y, z) == WireSlot(x, y, z)
  {
    assert Bits.Pow2(4) == 16;
    Bits.Pow2Values();
    Bits.OrSymmetric(x * 0x100, z * 0x10);
    Bits.OrDisjoint(z * 0x10, x, 8);
    Bits.OrSymmetric(x * 0x100 + z * 0x10, y);
    Bits.OrDisjoint(y, x * 0x10 + z, 4);
  }

  /** The narrowest width of the format that holds every index of the palette. */
  function BitsPerBlock(count: nat): nat {
    if count <= 1 then 0
    else if count == 2 then 1
    else if count <= 4 then 2
    else if count <= 8 then 3
    else if count <= 16 then 4
    else if count <= 32 then 5
    else if count <= 64 then 6
    else if count <= 256 then 8
    else 16
  }

  predicate AllowedWidth(bits: nat) {
    bits <= 6 || bits == 8 || bits == 16
  }

  /** Slots in a 32-bit word. */
  function PerWord(bits: nat): (per: nat)
    ensures bits <= 32 ==> per >= 1 && per * bits <= 32
  {
    DivisionFits(32, Max(bits, 1));
    32 / Max(bits, 1)
  }

  lemma DivisionFits(a: nat, m: nat)
    requires m > 0
    ensures a / m * m <= a && a % m == a - a / m * m
    ensures a >= m ==> a / m >= 1
  {
  }

  /** Words needed for all blocks of a subchunk. */
  function WordCount(bits: nat): nat {
    var per := PerWord(bits);
    if per == 0 then 0 else (BLOCKS_PER_SUBCHUNK + per - 1) / per
  }

  /** The word a slot is in, and its place there. */
  function WordOf(bits: nat, slot: nat): nat
    requires bits <= 16
  {
    slot / PerWord(bits)
  }

  function PlaceOf(bits: nat, slot: nat): nat
    requires bits <= 16
  {
    slot % PerWord(bits)
  }

  lemma SlotInWord(bits: nat, slot: nat)
    requires bits <= 16
    ensures WordOf(bits, slot) * PerWord(bits) + PlaceOf(bits, slot) == slot && PlaceOf(bits, slot) < PerWord(bits)
    ensures slot < BLOCKS_PER_SUBCHUNK ==> WordOf(bits, slot) < WordCount(bits)
  {
    var per := PerWord(bits);
    hide PerWord;
    DivisionFits(slot, per);
    if slot < BLOCKS_PER_SUBCHUNK {
      Ceiling(slot, BLOCKS_PER_SUBCHUNK, per);
    }
  }

  lemma Ceiling(slot: nat, total: nat, per: nat)
    requires per > 0 && slot < total
    ensures slot / per < (total + per - 1) / per
  {
    DivideOut(slot, 1, per);
    assert slot + 1 * per <= total + per - 1;
    DivisionMonotone(slot + 1 * per, total + per - 1, per);
  }

  lemma DivisionMonotone(a: nat, b: nat, m: nat)
    requires m > 0 && a <= b
    ensures a / m <= b / m
  {
    DivisionFits(a, m);
    DivisionFits(b, m);
    AtLeastOnce(a / m - b / m, m);
    assert (a / m - b / m) * m == a / m * m - b / m * m;
  }

  lemma PowersOfWidths()
    ensures Bits.Pow2(0) == 1 && Bits.Pow2(1) == 2 && Bits.Pow2(2) == 4 && Bits.Pow2(3) == 8 && Bits.Pow2(4) == 16
    ensures Bits.Pow2(5) == 32 && Bits.Pow2(6) == 64 && Bits.Pow2(8) == 256 && Bits.Pow2(16) == 0x1_0000
  {
    Bits.Pow2Values();
    assert Bits.Pow2(3) == 8;
    Bits.Pow2Add(3, 3);
  }

  /** Every index into the palette fits the width, the width is one the client reads, and the slots
      of a word fit in its 32 bits. */
  lemma WidthFits(count: nat)
    requires count <= 0x1_0000
    ensures AllowedWidth(BitsPerBlock(count)) && count <= Bits.Pow2(BitsPerBlock(count))
    ensures PerWord(BitsPerBlock(count)) * BitsPerBlock(count) <= 32
    ensures count >= 2 ==> BitsPerBlock(count) >= 1
  {
    PowersOfWidths();
  }

  /** And no narrower width the client reads would do. */
  lemma WidthIsLeast(count: nat, bits: nat)
    requires AllowedWidth(bits) && count <= Bits.Pow2(bits) && 0 < count <= 0x1_0000
    ensures BitsPerBlock(count) <= bits
  {
    PowersOfWidths();
    assert Bits.Pow2(0) == 1 && Bits.Pow2(1) == 2;
  }

  // Packing.

  function IndexOr0(indices: seq<u16>, position: nat): nat {
    if position < |indices| then indices[position] else 0
  }

  /** The first `n` slots of a word, OR-ed together; slots past the last block stay empty. */
  function Packed(indices: seq<u16>, bits: nat, base: nat, n: nat): nat
    decreases n
  {
    if n == 0 then 0
    else if base + (n - 1) >= BLOCKS_PER_SUBCHUNK then Packed(indices, bits, base, n - 1)
    else Bits.Or(Packed(indices, bits, base, n - 1),
                 IndexOr0(indices, base + (n - 1)) * Bits.Pow2((n - 1) * bits) % TWO_32)
  }

  /** `(word >> slot * bits) & mask`, as the client unpacks it. */
  function Unpacked(word: nat, bits: nat, slot: nat): nat {
    word / Bits.Pow2(slot * bits) % Bits.Pow2(bits)
  }

  lemma DivideOut(a: nat, k: nat, m: nat)
    requires m > 0
    ensures (a + k * m) / m == a / m + k
    ensures (a + k * m) % m == a % m
  {
    var q, r := a / m, a % m;
    assert a == q * m + r;
    assert a + k * m == (q + k) * m + r by {
      assert (q + k) * m == q * m + k * m;
    }
    QuotientIs(a + k * m, m, q + k, r);
  }

  lemma QuotientIs(a: nat, m: nat, q: nat, r: nat)
    requires m > 0 && a == q * m + r && r < m
    ensures a / m == q && a % m == r
  {
    var d := a / m - q;
    assert d * m == r - a % m by {
      assert d * m == (a / m) * m - q * m;
    }
    AtLeastOnce(d, m);
  }

  lemma AtLeastOnce(d: int, m: nat)
    ensures d >= 1 ==> d * m >= m
    ensures d <= -1 ==> d * m + m <= 0
  {
    if d >= 1 {
      assert d * m == m + (d - 1) * m;
    } else if d <= -1 {
      assert d * m + m == (d + 1) * m;
    }
  }

  /** A slot above leaves the slots below it alone. */
  lemma HigherSlotIsInvisible(a: nat, k: nat, m: nat, n: nat)
    requires m > 0 && n > 0
    ensures (a + k * (m * n)) / m % n == a / m % n
  {
    assert k * (m * n) == (k * n) * m;
    DivideOut(a, k * n, m);
    DivideOut(a / m, k, n);
  }

  lemma TopSlotReadsBack(a: nat, k: nat, m: nat, n: nat)
    requires a < m && k < n
    ensures (a + k * m) / m % n == k
  {
    DivideOut(a, k, m);
    assert a / m == 0;
  }

  /** `w` to the n: where the n-th slot of a word starts, `w` being the number of values a slot has. */
  function Power(w: nat, n: nat): (p: nat)
    requires w >= 1
    ensures p >= 1
  {
    if n == 0 then 1 else Scaled(w, Power(w, n - 1))
  }

  function Scaled(w: nat, p: nat): (r: nat)
    requires w >= 1 && p >= 1
    ensures r >= 1 && r == w * p
  {
    AtLeastOnce(w, p);
    w * p
  }

  lemma {:induction false} SlotStart(bits: nat, n: nat)
    ensures Bits.Pow2(n * bits) == Power(Bits.Pow2(bits), n)
  {
    if n > 0 {
      SlotStart(bits, n - 1);
      assert n * bits == bits + (n - 1) * bits;
      Bits.Pow2Add(bits, (n - 1) * bits);
    }
  }

  lemma {:induction false} PowerSplits(w: nat, n: nat, slot: nat) returns (rest: nat)
    requires w >= 1 && slot < n
    ensures Power(w, n) == rest * (Power(w, slot) * w)
    decreases n
  {
    if slot == n - 1 {
      rest := 1;
    } else {
      var less := PowerSplits(w, n - 1, slot);
      rest := w * less;
      assert w * (less * (Power(w, slot) * w)) == w * less * (Power(w, slot) * w);
    }
  }

  ghost predicate SmallIndices(indices: seq<u16>, w: nat) {
    w >= 1 && forall i :: 0 <= i < |indices| ==> indices[i] < w
  }

  /** What slot s of the word at `base` holds. */
  function Entry(indices: seq<u16>, base: nat, s: nat): nat {
    if base + s < BLOCKS_PER_SUBCHUNK then IndexOr0(indices, base + s) else 0
  }

  lemma SlotFits(k: nat, w: nat, p: nat)
    requires k < w
    ensures k * p + p <= w * p
  {
    AtLeastOnce(w - k, p);
    assert w * p == k * p + (w - k) * p;
  }

  /** One more slot adds its index, shifted; it touches no other bit. */
  lemma PackedGrows(indices: seq<u16>, bits: nat, base: nat, n: nat)
    requires SmallIndices(indices, Bits.Pow2(bits)) && n >= 1
    requires Power(Bits.Pow2(bits), n) <= TWO_32
    requires Packed(indices, bits, base, n - 1) < Power(Bits.Pow2(bits), n - 1)
    ensures var k, p := Entry(indices, base, n - 1), Power(Bits.Pow2(bits), n - 1);
            && k < Bits.Pow2(bits)
            && Packed(indices, bits, base, n) == Packed(indices, bits, base, n - 1) + k * p
            && Packed(indices, bits, base, n) < Power(Bits.Pow2(bits), n)
  {
    hide Bits.Pow2, Bits.Or, Power, Packed;
    var k, p, w := Entry(indices, base, n - 1), Power(Bits.Pow2(bits), n - 1), Bits.Pow2(bits);
    SlotStart(bits, n - 1);
    SlotFits(k, w, p);
    PowerUnfolds(w, n);
    PackedUnfolds(indices, bits, base, n);
    if base + (n - 1) < BLOCKS_PER_SUBCHUNK {
      SlotJoins(Packed(indices, bits, base, n - 1), k, p, (n - 1) * bits);
    } else {
      assert k * p == 0;
    }
  }

  lemma PowerUnfolds(w: nat, n: nat)
    requires w >= 1 && n >= 1
    ensures Power(w, n) == w * Power(w, n - 1)
  {
  }

  lemma PackedUnfolds(indices: seq<u16>, bits: nat, base: nat, n: nat)
    requires n >= 1
    ensures Packed(indices, bits, base, n)
         == if base + (n - 1) >= BLOCKS_PER_SUBCHUNK then Packed(indices, bits, base, n - 1)
            else Bits.Or(Packed(indices, bits, base, n - 1), IndexOr0(indices, base + (n - 1)) * Bits.Pow2((n - 1) * bits) % TWO_32)
  {
    hide Bits.Or, Bits.Pow2;
  }

  lemma SlotJoins(before: nat, k: nat, p: nat, at: nat)
    requires p == Bits.Pow2(at) && before < p && k * p < TWO_32
    ensures Bits.Or(before, k * p % TWO_32) == before + k * p
  {
    hide Bits.Or, Bits.Pow2;
    NothingFallsOff(k * p);
    Bits.OrDisjoint(before, k, at);
  }

  lemma {:induction false} PowersGrow(w: nat, m: nat, n: nat)
    requires w >= 1 && m <= n
    ensures Power(w, m) <= Power(w, n)
    decreases n
  {
    if m < n {
      PowersGrow(w, m, n - 1);
      AtLeastOnce(w, Power(w, n - 1));
    }
  }

  lemma {:induction false} PackedFits(indices: seq<u16>, bits: nat, base: nat, n: nat)
    requires SmallIndices(indices, Bits.Pow2(bits)) && Power(Bits.Pow2(bits), n) <= TWO_32
    ensures Packed(indices, bits, base, n) < Power(Bits.Pow2(bits), n)
    decreases n
  {
    if n > 0 {
      PowersGrow(Bits.Pow2(bits), n - 1, n);
      PackedFits(indices, bits, base, n - 1);
      PackedGrows(indices, bits, base, n);
    }
  }

  /** Slots never overlap: unpacking any slot of a packed word gives its index back. */
  lemma {:induction false} UnpackingGivesBack(indices: seq<u16>, bits: nat, base: nat, n: nat, slot: nat)
    requires SmallIndices(indices, Bits.Pow2(bits)) && Power(Bits.Pow2(bits), n) <= TWO_32 && slot < n
    ensures Unpacked(Packed(indices, bits, base, n), bits, slot) == Entry(indices, base, slot)
    decreases n
  {
    var w := Bits.Pow2(bits);
    PowersGrow(w, n - 1, n);
    PackedFits(indices, bits, base, n - 1);
    PackedGrows(indices, bits, base, n);
    SlotStart(bits, slot);
    var k, low, m := Entry(indices, base, n - 1), Packed(indices, bits, base, n - 1), Power(w, slot);
    hide Bits.Pow2, Packed, Entry, Power;
    if slot == n - 1 {
      TopSlotReadsBack(low, k, m, w);
    } else {
      UnpackingGivesBack(indices, bits, base, n - 1, slot);
      var rest := PowerSplits(w, n - 1, slot);
      LowerSlotStays(low, k, m, w, rest, Power(w, n - 1));
    }
  }

  lemma LowerSlotStays(low: nat, k: nat, m: nat, w: nat, rest: nat, p: nat)
    requires m >= 1 && w >= 1 && p == rest * (m * w)
    ensures (low + k * p) / m % w == low / m % w
  {
    assert k * (rest * (m * w)) == k * rest * (m * w);
    HigherSlotIsInvisible(low, k * rest, m, w);
  }
}
