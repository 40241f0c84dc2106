/** RakNet's primitive types: big-endian, except the 24-bit little-endian indices. */
module Wire {
  import opened Integers
  import opened Wrappers
  import Bits

  /** Why a frame or one of its fields did not decode. */
  datatype DecodeError = Short(needed: nat, available: nat) | EmptyBody

  // What each write appends.

  function U16Bytes(v: u16): bytes {
    [v / 0x100, v % 0x100]
  }

  function U32Bytes(v: u32): bytes {
    U16Bytes(v / 0x1_0000) + U16Bytes(v % 0x1_0000)
  }

  function U64Bytes(v: u64): bytes {
    U32Bytes(v / 0x1_0000_0000) + U32Bytes(v % 0x1_0000_0000)
  }

  /** Only the low 24 bits go out. */
  function U24Bytes(v: u32): bytes {
    [v % 0x100, v / 0x100 % 0x100, v / 0x1_0000 % 0x100]
  }

  // What each read takes off the front of the unread bytes.

  function BigEndian2(high: nat, low: nat): nat {
    high * 0x100 + low
  }

  function BigEndian4(s: bytes): (v: u32)
    requires |s| == 4
  {
    BigEndian2(s[0], s[1]) * 0x1_0000 + BigEndian2(s[2], s[3])
  }

  function BigEndian8(s: bytes): (v: u64)
    requires |s| == 8
  {
    Joined(BigEndian4(s[..4]), BigEndian4(s[4..]))
  }

  function Joined(high: nat, low: nat): nat {
    high * 0x1_0000_0000 + low
  }

  /** Three little-endian byte lanes. */
  function LittleEndian3(b0: nat, b1: nat, b2: nat): nat {
    Bits.Or(Bits.Or(b0, b1 * 0x100), b2 * 0x1_0000)
  }

  function Take(b: bytes, n: nat): (r: Result<(bytes, bytes), DecodeError>)
    ensures r.Success? <==> n <= |b|
  {
    if n <= |b| then Success((b[..n], b[n..])) else Failure(Short(n, |b|))
  }

  function ReadU8(b: bytes): (r: Result<(u8, bytes), DecodeError>)
    ensures r.Success? ==> |r.value.1| == |b| - 1
  {
    var (s, rest) :- Take(b, 1);
    Success((s[0], rest))
  }

  function ReadU16(b: bytes): (r: Result<(u16, bytes), DecodeError>)
    ensures r.Success? ==> |r.value.1| == |b| - 2
  {
    var (s, rest) :- Take(b, 2);
    Success((BigEndian2(s[0], s[1]), rest))
  }

  function ReadU32(b: bytes): (r: Result<(u32, bytes), DecodeError>)
    ensures r.Success? ==> |r.value.1| == |b| - 4
  {
    var (s, rest) :- Take(b, 4);
    Success((BigEndian4(s), rest))
  }

  /** The bit pattern of a big-endian 64-bit integer. */
  function ReadU64(b: bytes): (r: Result<(u64, bytes), DecodeError>)
    ensures r.Success? ==> |r.value.1| == |b| - 8
  {
    var (s, rest) :- Take(b, 8);
    Success((BigEndian8(s), rest))
  }

  function ReadU24(b: bytes): (r: Result<(u32, bytes), DecodeError>)
    ensures r.Success? ==> |r.value.1| == |b| - 3 && r.value.0 < TWO_24
  {
    var (s, rest) :- Take(b, 3);
    Lanes(s[0], s[1], s[2]);
    Success((LittleEndian3(s[0], s[1], s[2]), rest))
  }

  /** The three byte lanes of a 24-bit index do not overlap. */
  lemma Lanes(b0: nat, b1: nat, b2: nat)
    requires b0 < 0x100 && b1 < 0x100
    ensures LittleEndian3(b0, b1, b2) == b0 + b1 * 0x100 + b2 * 0x1_0000
  {
    Bits.Pow2Values();
    Bits.OrDisjoint(b0, b1, 8);
    Bits.OrDisjoint(b0 + b1 * 0x100, b2, 16);
  }

  lemma U16RoundTrip(v: u16, rest: bytes)
    ensures ReadU16(U16Bytes(v) + rest) == Success((v, rest))
  {
    assert (U16Bytes(v) + rest)[2..] == rest;
  }

  lemma U32RoundTrip(v: u32, rest: bytes)
    ensures BigEndian4(U32Bytes(v)) == v
    ensures ReadU32(U32Bytes(v) + rest) == Success((v, rest))
  {
    var b := U32Bytes(v) + rest;
    assert b[4..] == rest && b[..4] == U32Bytes(v);
    var high, low := v / 0x1_0000, v % 0x1_0000;
    assert BigEndian2(high / 0x100, high % 0x100) == high && BigEndian2(low / 0x100, low % 0x100) == low;
  }

  lemma U64RoundTrip(v: u64, rest: bytes)
    ensures ReadU64(U64Bytes(v) + rest) == Success((v, rest))
  {
    var b := U64Bytes(v) + rest;
    var high, low := v / 0x1_0000_0000, v % 0x1_0000_0000;
    assert b[8..] == rest && b[..8] == U64Bytes(v);
    assert U64Bytes(v)[..4] == U32Bytes(high) && U64Bytes(v)[4..] == U32Bytes(low);
    U32RoundTrip(high, []);
    U32RoundTrip(low, []);
  }

  /** Reading back a 24-bit index gives its low 24 bits, hence the index itself below 2^24. */
  lemma U24RoundTrip(v: u32, rest: bytes)
    ensures ReadU24(U24Bytes(v) + rest) == Success((v % TWO_24, rest))
  {
    var b := U24Bytes(v) + rest;
    assert b[3..] == rest && b[..3] == U24Bytes(v);
    Lanes(b[0], b[1], b[2]);
    Digits3(v);
  }

  /** Below 2^24 nothing is lost. */
  lemma U24Exact(v: u32, rest: bytes)
    requires v < TWO_24
    ensures ReadU24(U24Bytes(v) + rest) == Success((v, rest))
  {
    hide ReadU24, U24Bytes;
    U24RoundTrip(v, rest);
  }

  lemma Digits3(v: nat)
    ensures v % 0x100 + v / 0x100 % 0x100 * 0x100 + v / 0x1_0000 % 0x100 * 0x1_0000 == v % 0x100_0000
  {
    var q := v / 0x100;
    assert v / 0x1_0000 == q / 0x100;
    var t := q / 0x100;
    assert v == v % 0x100 + 0x100 * (q % 0x100) + 0x1_0000 * (t % 0x100) + 0x100_0000 * (t / 0x100);
  }

  /** Reads from a fixed buffer; a read past its end fails and leaves the cursor. */
  class Reader {
    const buf: bytes
    var pos: nat

    ghost predicate Valid()
      reads this
    {
      pos <= |buf|
    }

    /** The bytes not yet read. */
    ghost function Unread(): bytes
      requires Valid()
      reads this
    {
      buf[pos..]
    }

    constructor (buf: bytes)
      ensures Valid() && Unread() == buf && this.buf == buf
    {
      this.buf := buf;
      pos := 0;
    }

    method Remaining() returns (n: nat)
      requires Valid()
      ensures n == |Unread()|
    {
      n := |buf| - pos;
    }

    /** A failed read does not advance the cursor. */
    method Bytes(n: nat) returns (r: Result<bytes, DecodeError>)
      requires Valid()
      modifies this`pos
      ensures Valid()
      ensures match Take(old(Unread()), n)
              case Success((s, rest)) => r == Success(s) && Unread() == rest
              case Failure(e) => r == Failure(e) && Unread() == old(Unread())
    {
      if pos + n > |buf| {
        return Failure(Short(n, |buf| - pos));
      }
      r := Success(buf[pos..pos + n]);
      assert buf[pos..][..n] == buf[pos..pos + n] && buf[pos..][n..] == buf[pos + n..];
      pos := pos + n;
    }

    method U8() returns (r: Result<u8, DecodeError>)
      requires Valid()
      modifies this`pos
      ensures Valid()
      ensures match ReadU8(old(Unread()))
              case Success((v, rest)) => r == Success(v) && Unread() == rest
              case Failure(e) => r == Failure(e)
    {
      var s :- Bytes(1);
      r := Success(s[0]);
    }

    method U16() returns (r: Result<u16, DecodeError>)
      requires Valid()
      modifies this`pos
      ensures Valid()
      ensures match ReadU16(old(Unread()))
              case Success((v, rest)) => r == Success(v) && Unread() == rest
              case Failure(e) => r == Failure(e)
    {
      var s :- Bytes(2);
      r := Success(BigEndian2(s[0], s[1]));
    }

    method U32() returns (r: Result<u32, DecodeError>)
      requires Valid()
      modifies this`pos
      ensures Valid()
      ensures match ReadU32(old(Unread()))
              case Success((v, rest)) => r == Success(v) && Unread() == rest
              case Failure(e) => r == Failure(e)
    {
      var s :- Bytes(4);
      r := Success(BigEndian4(s));
    }

    method U24() returns (r: Result<u32, DecodeError>)
      requires Valid()
      modifies this`pos
      ensures Valid()
      ensures match ReadU24(old(Unread()))
              case Success((v, rest)) => r == Success(v) && Unread() == rest
              case Failure(e) => r == Failure(e)
    {
      var s :- Bytes(3);
      Lanes(s[0], s[1], s[2]);
      r := Success(LittleEndian3(s[0], s[1], s[2]));
    }
  }

  /** Appends to a byte sequence. */
  class Writer {
    var buf: bytes

    constructor ()
      ensures buf == []
    {
      buf := [];
    }

    method U8(v: u8)
      modifies this
      ensures buf == old(buf) + [v]
    {
      buf := buf + [v];
    }

    method U16(v: u16)
      modifies this
      ensures buf == old(buf) + U16Bytes(v)
    {
      buf := buf + [v / 0x100, v % 0x100];
    }

    method U32(v: u32)
      modifies this
      ensures buf == old(buf) + U32Bytes(v)
    {
      U16(v / 0x1_0000);
      U16(v % 0x1_0000);
    }

    method U24(v: u32)
      modifies this
      ensures buf == old(buf) + U24Bytes(v)
    {
      buf := buf + [v % 0x100, v / 0x100 % 0x100, v / 0x1_0000 % 0x100];
    }

    method Bytes(v: bytes)
      modifies this
      ensures buf == old(buf) + v
    {
      buf := buf + v;
    }
  }
}
