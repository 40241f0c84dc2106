/** The game protocol's primitive types: little-endian integers, varints, and zigzag. */
module GameBytes {
  import opened Integers
  import opened Wrappers
  import Bits

  const MAX_VARINT_BYTES: nat := 5

  datatype DecodeError = UnexpectedEnd(needed: nat, available: nat) | VarintTooLong

  // What each write appends.

  function U32Bytes(v: u32): bytes {
    [v % 0x100, v / 0x100 % 0x100, v / 0x1_0000 % 0x100, v / 0x100_0000]
  }

  /** Seven bits and the bit that says more follow. */
  function More(low: nat): (b: u8)
    requires low < 0x80
    ensures b == low + 0x80
  {
    MoreIsSum(low);
    Bits.Or(low, 0x80)
  }

  lemma MoreIsSum(low: nat)
    requires low < 0x80
    ensures Bits.Or(low, 0x80) == low + 0x80
  {
    assert Bits.Pow2(3) == 8 && Bits.Pow2(4) == 16;
    Bits.Pow2Add(3, 4);
    Bits.OrDisjoint(low, 1, 7);
  }

  function VarintBytes(v: nat): (b: bytes)
    ensures b != []
    decreases v
  {
    if v / 0x80 == 0 then [v % 0x80] else [More(v % 0x80)] + VarintBytes(v / 0x80)
  }

  /** `((v << 1) ^ (v >> 31)) as u32`, on 32-bit patterns. */
  function Zigzag(v: i32): nat {
    Bits.Xor((2 * v) % TWO_32, if v < 0 then TWO_32 - 1 else 0)
  }

  function ZigzagBytes(v: i32): bytes {
    VarintBytes(Zigzag(v))
  }

  function PrefixedBytes(b: bytes): bytes {
    VarintBytes(Min(|b|, TWO_32 - 1)) + b
  }

  // What each read takes off the front of the unread bytes.

  function Take(b: bytes, n: nat): (r: Result<(bytes, bytes), DecodeError>)
    ensures r.Success? <==> n <= |b|
  {
    if n <= |b| then Success((b[..n], b[n..])) else Failure(UnexpectedEnd(n, |b|))
  }

  function ReadU8(b: bytes): (r: Result<(u8, bytes), DecodeError>)
    ensures r.Success? ==> |r.value.1| == |b| - 1
  {
    var (s, rest) :- Take(b, 1);
    Success((s[0], rest))
  }

  function LittleEndian4(b0: nat, b1: nat, b2: nat, b3: nat): nat {
    b0 + b1 * 0x100 + b2 * 0x1_0000 + b3 * 0x100_0000
  }

  function ReadU32(b: bytes): (r: Result<(nat, bytes), DecodeError>) {
    var (s, rest) :- Take(b, 4);
    Success((LittleEndian4(s[0], s[1], s[2], s[3]), rest))
  }

  /** `v << 7 * i`, before anything falls off. */
  function Shifted(v: nat, i: nat): nat {
    v * Bits.Pow2(7 * i)
  }

  /** The seven low bits of a varint's i-th byte, shifted into place; bits past the 32nd fall off. */
  function Lane(byte: nat, i: nat): nat {
    Shifted(byte % 0x80, i) % TWO_32
  }

  function ReadVarintFrom(b: bytes, i: nat, value: nat): (r: Result<(nat, bytes), DecodeError>)
    ensures r.Success? ==> |r.value.1| < |b|
    decreases |b|
  {
    if i >= MAX_VARINT_BYTES then Failure(VarintTooLong) else
    var (byte, rest) :- ReadU8(b);
    var value := Bits.Or(value, Lane(byte, i));
    if byte < 0x80 then Success((value, rest)) else ReadVarintFrom(rest, i + 1, value)
  }

  function ReadVarint(b: bytes): (r: Result<(nat, bytes), DecodeError>)
    ensures r.Success? ==> |r.value.1| < |b|
  {
    ReadVarintFrom(b, 0, 0)
  }

  /** `((raw >> 1) as i32) ^ -((raw & 1) as i32)`: the second operand is all ones or none. */
  function Unzigzag(raw: nat): int {
    if raw % 2 == 0 then raw / 2 else -(raw / 2) - 1
  }

  function ReadZigzag(b: bytes): (r: Result<(int, bytes), DecodeError>) {
    var (raw, rest) :- ReadVarint(b);
    Success((Unzigzag(raw), rest))
  }

  function ReadPrefixed(b: bytes): (r: Result<(bytes, bytes), DecodeError>)
    ensures r.Success? ==> |r.value.1| < |b|
  {
    var (len, rest) :- ReadVarint(b);
    Take(rest, len)
  }

  lemma ByteFirst(b: u8, rest: bytes)
    ensures ReadU8([b] + rest) == Success((b, rest))
  {
    assert ([b] + rest)[1..] == rest;
  }

  lemma U32RoundTrip(v: u32, rest: bytes)
    ensures ReadU32(U32Bytes(v) + rest) == Success((v, rest))
  {
    var b := U32Bytes(v) + rest;
    assert b[4..] == rest && b[..4] == U32Bytes(v);
    var q := v / 0x100;
    var t := q / 0x100;
    assert v / 0x1_0000 == t && v / 0x100_0000 == t / 0x100;
    assert v == v % 0x100 + 0x100 * (q % 0x100) + 0x1_0000 * (t % 0x100) + 0x100_0000 * (t / 0x100);
  }

  lemma LanesJoin(v: nat, p: nat)
    ensures v % 0x80 * p + v / 0x80 * (0x80 * p) == v * p
  {
    assert v == v % 0x80 + 0x80 * (v / 0x80);
    assert v * p == (v % 0x80) * p + (0x80 * (v / 0x80)) * p;
  }

  lemma FitsBelow(a: nat, v: nat, p: nat)
    requires a <= v && v * p < TWO_32
    ensures a * p < TWO_32
  {
  }

  lemma SeventhPower(i: nat)
    ensures Bits.Pow2(7 * (i + 1)) == 0x80 * Bits.Pow2(7 * i)
  {
    assert Bits.Pow2(3) == 8 && Bits.Pow2(4) == 16;
    Bits.Pow2Add(3, 4);
    Bits.Pow2Add(7, 7 * i);
  }

  lemma PositiveShift(v: nat, p: nat)
    requires v >= 1
    ensures v * p >= p
  {
  }

  /** Past the fifth byte there is nothing left of a 32-bit value. */
  lemma FifthIsLast(v: nat, i: nat)
    requires v > 0 && Shifted(v, i) < TWO_32
    ensures i < MAX_VARINT_BYTES
  {
    if i >= MAX_VARINT_BYTES {
      Bits.Pow2Values();
      Bits.Pow2Monotone(32, 7 * i);
      PositiveShift(v, Bits.Pow2(7 * i));
    }
  }

  lemma OneVarintByte(byte: u8, tail: bytes, i: nat, value: nat)
    requires i < MAX_VARINT_BYTES
    ensures ReadVarintFrom([byte] + tail, i, value)
         == (var value := Bits.Or(value, Lane(byte, i));
             if byte < 0x80 then Success((value, tail)) else ReadVarintFrom(tail, i + 1, value))
  {
    hide Lane, Bits.Or;
    assert ([byte] + tail)[1..] == tail;
  }

  lemma NothingFallsOff(x: nat)
    requires x < TWO_32
    ensures x % TWO_32 == x
  {
  }

  lemma LaneAdds(value: nat, byte: nat, i: nat)
    requires value < Bits.Pow2(7 * i) && Shifted(byte % 0x80, i) < TWO_32
    ensures Bits.Or(value, Lane(byte, i)) == value + Shifted(byte % 0x80, i)
  {
    NothingFallsOff(Shifted(byte % 0x80, i));
    Bits.OrDisjoint(value, byte % 0x80, 7 * i);
    hide Bits.Or, Bits.Pow2;
  }

  /** Seven bits at a time: the shifted value is its low lane and its rest shifted further. */
  lemma LanesShift(v: nat, i: nat, value: nat)
    requires Shifted(v, i) < TWO_32 && value < Bits.Pow2(7 * i)
    ensures var low, high := v % 0x80, v / 0x80;
            && Shifted(low, i) < TWO_32 && Shifted(high, i + 1) < TWO_32
            && value + Shifted(low, i) < Bits.Pow2(7 * (i + 1))
            && Shifted(low, i) + Shifted(high, i + 1) == Shifted(v, i)
            && (high == 0 ==> low == v)
            && (high > 0 ==> i + 1 < MAX_VARINT_BYTES)
  {
    var low, high, p := v % 0x80, v / 0x80, Bits.Pow2(7 * i);
    SeventhPower(i);
    hide Bits.Pow2;
    LanesJoin(v, p);
    Carried(high, p);
    FitsBelow(low, v, p);
    FitsBelow(high * 0x80, v, p);
    ValueFits(value, low, p);
    if high > 0 {
      FifthIsLast(high, i + 1);
    }
  }

  lemma Carried(high: nat, p: nat)
    ensures high * (0x80 * p) == (high * 0x80) * p
  {
  }

  lemma {:induction false} VarintFromRoundTrip(v: nat, i: nat, value: nat, rest: bytes)
    requires Shifted(v, i) < TWO_32 && value < Bits.Pow2(7 * i) && i < MAX_VARINT_BYTES
    ensures ReadVarintFrom(VarintBytes(v) + rest, i, value) == Success((value + Shifted(v, i), rest))
    decreases v
  {
    hide Bits.Pow2, Bits.Or, Lane, Shifted, More, ReadVarintFrom;
    LanesShift(v, i, value);
    var low, high := v % 0x80, v / 0x80;
    if high == 0 {
      LaneAdds(value, low, i);
      OneVarintByte(low, rest, i, value);
    } else {
      assert VarintBytes(v) == [More(low)] + VarintBytes(high);
      hide VarintBytes;
      Assoc([More(low)], VarintBytes(high), rest);
      FirstOfMore(value, low, i, VarintBytes(high) + rest);
      VarintFromRoundTrip(high, i + 1, value + Shifted(low, i), rest);
    }
  }

  lemma FirstOfMore(value: nat, low: nat, i: nat, tail: bytes)
    requires low < 0x80 && i < MAX_VARINT_BYTES && value < Bits.Pow2(7 * i) && Shifted(low, i) < TWO_32
    ensures ReadVarintFrom([More(low)] + tail, i, value) == ReadVarintFrom(tail, i + 1, value + Shifted(low, i))
  {
    MoreFollow(low);
    hide ReadVarintFrom, Bits.Or, Bits.Pow2, Lane, More, Shifted;
    LaneAdds(value, More(low), i);
    OneVarintByte(More(low), tail, i, value);
  }

  lemma MoreFollow(low: nat)
    requires low < 0x80
    ensures More(low) >= 0x80 && More(low) % 0x80 == low
  {
    hide Bits.Or;
  }

  lemma ValueFits(value: nat, low: nat, p: nat)
    requires value < p && low < 0x80
    ensures value + low * p < 0x80 * p
  {
    assert low * p <= 0x7f * p;
  }

  lemma VarintRoundTrip(v: u32, rest: bytes)
    ensures ReadVarint(VarintBytes(v) + rest) == Success((v as nat, rest))
  {
    assert Bits.Pow2(0) == 1 && Shifted(v, 0) == v;
    hide ReadVarintFrom, VarintBytes;
    VarintFromRoundTrip(v, 0, 0, rest);
  }

  /** Against all ones, exclusive or is the complement. */
  lemma {:induction false} XorOnes(a: nat, k: nat)
    requires a < Bits.Pow2(k)
    ensures Bits.Xor(a, Bits.Pow2(k) - 1) == Bits.Pow2(k) - 1 - a
    decreases k
  {
    if k > 0 {
      XorOnes(a / 2, k - 1);
    }
  }

  lemma {:induction false} XorZero(a: nat)
    ensures Bits.Xor(a, 0) == a
  {
    if a != 0 {
      XorZero(a / 2);
    }
  }

  lemma Pattern(v: i32)
    ensures (2 * v) % TWO_32 == if v >= 0 then 2 * v else TWO_32 + 2 * v
  {
  }

  lemma Complement32(a: nat)
    requires a < TWO_32
    ensures Bits.Xor(a, TWO_32 - 1) == TWO_32 - 1 - a
  {
    Bits.Pow2Values();
    XorOnes(a, 32);
  }

  /** Zero, -1, 1, -2, 2, ...: small magnitudes get small codes. */
  lemma ZigzagIs(v: i32)
    ensures Zigzag(v) == if v >= 0 then 2 * v else -2 * v - 1
  {
    hide Bits.Xor;
    Pattern(v);
    if v >= 0 {
      XorZero(2 * v);
    } else {
      Complement32(TWO_32 + 2 * v);
    }
  }

  lemma ZigzagInverts(v: i32)
    ensures Zigzag(v) < TWO_32 && Unzigzag(Zigzag(v)) == v
  {
    ZigzagIs(v);
    hide Zigzag;
  }

  lemma ZigzagRoundTrip(v: i32, rest: bytes)
    ensures ReadZigzag(ZigzagBytes(v) + rest) == Success((v as int, rest))
  {
    ZigzagInverts(v);
    hide Zigzag, Unzigzag, VarintBytes, ReadVarint;
    VarintRoundTrip(Zigzag(v), rest);
  }

  lemma PrefixedRoundTrip(b: bytes, rest: bytes)
    requires |b| < TWO_32
    ensures ReadPrefixed(PrefixedBytes(b) + rest) == Success((b, rest))
  {
    Assoc(VarintBytes(|b|), b, rest);
    VarintRoundTrip(|b|, b + rest);
    assert (b + rest)[..|b|] == b && (b + rest)[|b|..] == rest;
  }

  /** A cursor over a packet. */
  class Reader {
    const buf: bytes
    var pos: nat

    ghost predicate Valid()
      reads this
    {
      pos <= |buf|
    }

    /** The bytes not yet read. */
    ghost function Unread(): bytes
      requires Valid()
      reads this
    {
      buf[pos..]
    }

    constructor (buf: bytes)
      ensures Valid() && Unread() == buf
    {
      this.buf := buf;
      pos := 0;
    }

    method Remaining() returns (n: nat)
      requires Valid()
      ensures n == |Unread()|
    {
      n := |buf| - pos;
    }

    method Bytes(n: nat) returns (r: Result<bytes, DecodeError>)
      requires Valid()
      modifies this`pos
      ensures Valid()
      ensures match Take(old(Unread()), n)
              case Success((s, rest)) => r == Success(s) && Unread() == rest
              case Failure(e) => r == Failure(e)
    {
      if pos + n > |buf| {
        return Failure(UnexpectedEnd(n, |buf| - pos));
      }
      r := Success(buf[pos..pos + n]);
      assert buf[pos..][..n] == buf[pos..pos + n] && buf[pos..][n..] == buf[pos + n..];
      pos := pos + n;
    }

    method U8() returns (r: Result<u8, DecodeError>)
      requires Valid()
      modifies this`pos
      ensures Valid()
      ensures match ReadU8(old(Unread()))
              case Success((v, rest)) => r == Success(v) && Unread() == rest
              case Failure(e) => r == Failure(e)
    {
      var s :- Bytes(1);
      r := Success(s[0]);
    }

    method Varint() returns (r: Result<nat, DecodeError>)
      requires Valid()
      modifies this`pos
      ensures Valid()
      ensures match ReadVarint(old(Unread()))
              case Success((v, rest)) => r == Success(v) && Unread() == rest
              case Failure(e) => r == Failure(e)
    {
      hide ReadU8, Lane, Bits.Or;
      var value: nat := 0;
      for i := 0 to MAX_VARINT_BYTES
        invariant Valid()
        invariant ReadVarintFrom(Unread(), i, value) == ReadVarint(old(Unread()))
      {
        var byte :- U8();
        value := Bits.Or(value, Lane(byte, i));
        if byte < 0x80 {
          return Success(value);
        }
      }
      r := Failure(VarintTooLong);
    }

    method Prefixed() returns (r: Result<bytes, DecodeError>)
      requires Valid()
      modifies this`pos
      ensures Valid()
      ensures match ReadPrefixed(old(Unread()))
              case Success((s, rest)) => r == Success(s) && Unread() == rest
              case Failure(e) => r == Failure(e)
    {
      hide ReadVarint;
      var len :- Varint();
      r := Bytes(len);
    }
  }

  /** A growable packet buffer. */
  class Writer {
    var buf: bytes

    constructor ()
      ensures buf == []
    {
      buf := [];
    }

    method U8(v: u8)
      modifies this
      ensures buf == old(buf) + [v]
    {
      buf := buf + [v];
    }

    method U32(v: u32)
      modifies this
      ensures buf == old(buf) + U32Bytes(v)
    {
      buf := buf + U32Bytes(v);
    }

    method Varint(v: u32)
      modifies this
      ensures buf == old(buf) + VarintBytes(v)
    {
      var rest: nat := v;
      while rest / 0x80 != 0
        invariant buf + VarintBytes(rest) == old(buf) + VarintBytes(v)
        decreases rest
      {
        Assoc(buf, [More(rest % 0x80)], VarintBytes(rest / 0x80));
        buf := buf + [More(rest % 0x80)];
        rest := rest / 0x80;
      }
      buf := buf + [rest % 0x80];
    }

    method Zigzag32(v: i32)
      modifies this
      ensures buf == old(buf) + ZigzagBytes(v)
    {
      ZigzagIs(v);
      Varint(Zigzag(v));
    }

    method Bytes(v: bytes)
      modifies this
      ensures buf == old(buf) + v
    {
      buf := buf + v;
    }

    method Prefixed(v: bytes)
      modifies this
      ensures buf == old(buf) + PrefixedBytes(v)
    {
      Varint(Min(|v|, TWO_32 - 1));
      Assoc(old(buf), VarintBytes(Min(|v|, TWO_32 - 1)), v);
      Bytes(v);
    }
  }
}
