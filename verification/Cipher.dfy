/** The encrypted packet stream: one continuous keystream per direction, and an 8-byte checksum per
    packet. The block cipher and the hash are parameters. */
module Ciphers {
  import opened Integers
  import opened Wrappers
  import opened Batches
  import Bits

  const CHECKSUM_LEN: nat := 8

  /** `keystream(key, i)` is byte i of the key's keystream; `digest` is the hash, truncated to the
      checksum's eight bytes. */
  datatype Primitives = Primitives(keystream: (bytes, nat) -> u8, digest: bytes -> bytes) {
    ghost predicate Valid() {
      forall b :: |digest(b)| == CHECKSUM_LEN
    }
  }

  datatype CipherError = TooShort | BadChecksum

  /** Where both directions of one end stand: keystream bytes used, and packets counted. */
  datatype CipherState = CipherState(key: bytes, outbound: nat, inbound: nat, sent: u64, received: u64)

  function NewState(key: bytes): CipherState {
    CipherState(key, 0, 0, 0, 0)
  }

  function CounterBytes(v: nat, n: nat): bytes {
    if n == 0 then [] else [v % 0x100] + CounterBytes(v / 0x100, n - 1)
  }

  function Checksum(p: Primitives, key: bytes, counter: u64, plaintext: bytes): bytes {
    p.digest(CounterBytes(counter, 8) + plaintext + key)
  }

  function XorByte(a: u8, b: u8): u8 {
    XorFits(a, b);
    Bits.Xor(a, b)
  }

  lemma XorFits(a: nat, b: nat)
    requires a < 0x100 && b < 0x100
    ensures Bits.Xor(a, b) < 0x100
  {
    Bits.Pow2Values();
    Bits.XorBound(a, b, 8);
  }

  /** The keystream from `offset`, laid over a buffer. */
  function Masked(p: Primitives, key: bytes, offset: nat, buf: bytes): (r: bytes)
    ensures |r| == |buf|
  {
    seq(|buf|, i requires 0 <= i < |buf| => XorByte(buf[i], p.keystream(key, offset + i)))
  }

  function EncryptStep(p: Primitives, c: CipherState, plaintext: bytes): (CipherState, bytes) {
    var buf := plaintext + Checksum(p, c.key, c.sent, plaintext);
    (c.(sent := (c.sent + 1) % TWO_64, outbound := c.outbound + |buf|), Masked(p, c.key, c.outbound, buf))
  }

  /** A checksum that does not match still uses up the keystream. */
  function DecryptStep(p: Primitives, c: CipherState, ciphertext: bytes): (CipherState, Result<bytes, CipherError>) {
    if |ciphertext| < CHECKSUM_LEN then (c, Failure(TooShort)) else
    var buf := Masked(p, c.key, c.inbound, ciphertext);
    var split := |buf| - CHECKSUM_LEN;
    var after := c.(inbound := c.inbound + |buf|);
    if buf[split..] != Checksum(p, c.key, c.received, buf[..split]) then (after, Failure(BadChecksum))
    else (after.(received := (c.received + 1) % TWO_64), Success(buf[..split]))
  }

  lemma XorByteTwice(a: u8, b: u8)
    ensures XorByte(XorByte(a, b), b) == a
  {
    Bits.XorInvolutive(a, b);
  }

  /** The same stretch of keystream twice is no change. */
  lemma MaskedTwice(p: Primitives, key: bytes, offset: nat, buf: bytes)
    ensures Masked(p, key, offset, Masked(p, key, offset, buf)) == buf
  {
    forall i | 0 <= i < |buf|
      ensures Masked(p, key, offset, Masked(p, key, offset, buf))[i] == buf[i]
    {
      XorByteTwice(buf[i], p.keystream(key, offset + i));
    }
  }

  /** The receiver is where the sender is. */
  predicate InStep(sender: CipherState, receiver: CipherState) {
    receiver.key == sender.key && receiver.inbound == sender.outbound && receiver.received == sender.sent
  }

  lemma OneMessage(p: Primitives, sender: CipherState, receiver: CipherState, plaintext: bytes)
    requires p.Valid() && InStep(sender, receiver)
    ensures var (after, ciphertext) := EncryptStep(p, sender, plaintext);
            var (heard, result) := DecryptStep(p, receiver, ciphertext);
            && |ciphertext| == |plaintext| + CHECKSUM_LEN
            && result == Success(plaintext)
            && InStep(after, heard)
            && after.outbound == sender.outbound + |plaintext| + CHECKSUM_LEN
  {
    var sum := Checksum(p, sender.key, sender.sent, plaintext);
    var buf := plaintext + sum;
    MaskedTwice(p, sender.key, sender.outbound, buf);
    assert buf[..|plaintext|] == plaintext && buf[|plaintext|..] == sum;
    hide Masked, Checksum, CounterBytes;
  }

  /** Each byte of a ciphertext is the plaintext's, or the checksum's behind it, under one byte of the
      keystream, the next one not used before. */
  lemma CiphertextIsMasked(p: Primitives, c: CipherState, plaintext: bytes, i: nat)
    requires p.Valid() && i < |plaintext| + CHECKSUM_LEN
    ensures var ciphertext := EncryptStep(p, c, plaintext).1;
            && |ciphertext| == |plaintext| + CHECKSUM_LEN
            && Bits.Xor(ciphertext[i], p.keystream(c.key, c.outbound + i))
               == if i < |plaintext| then plaintext[i] else Checksum(p, c.key, c.sent, plaintext)[i - |plaintext|]
  {
    hide Bits.Xor, CounterBytes;
    var buf := plaintext + Checksum(p, c.key, c.sent, plaintext);
    XorByteTwice(buf[i], p.keystream(c.key, c.outbound + i));
  }

  function FromLowEnd(b: bytes): nat {
    if b == [] then 0 else b[0] + 0x100 * FromLowEnd(b[1..])
  }

  lemma {:induction false} CounterReadsBack(v: nat, n: nat)
    requires v < Bits.Pow2(8 * n)
    ensures |CounterBytes(v, n)| == n && FromLowEnd(CounterBytes(v, n)) == v
    decreases n
  {
    if n > 0 {
      Bits.Pow2Add(8, 8 * (n - 1));
      Bits.Pow2Values();
      CounterReadsBack(v / 0x100, n - 1);
      assert CounterBytes(v, n)[1..] == CounterBytes(v / 0x100, n - 1);
    }
  }

  /** The checksum is the hash of the counter, low end first, then the plaintext, then the key. */
  lemma ChecksumCovers(p: Primitives, key: bytes, counter: u64, plaintext: bytes) returns (input: bytes)
    ensures Checksum(p, key, counter, plaintext) == p.digest(input)
    ensures |input| == 8 + |plaintext| + |key| && FromLowEnd(input[..8]) == counter
    ensures input[8..8 + |plaintext|] == plaintext && input[8 + |plaintext|..] == key
  {
    Bits.Pow2Values();
    Bits.Pow2Add(32, 32);
    CounterReadsBack(counter, 8);
    hide CounterBytes, FromLowEnd;
    input := CounterBytes(counter, 8) + plaintext + key;
    assert input[..8] == CounterBytes(counter, 8);
  }

  // The server's use of it: the marker in the clear, the rest of the batch encrypted.

  function SendEncrypted(p: Primitives, c: CipherState, packets: seq<Packet>): (CipherState, bytes) {
    var (after, ciphertext) := EncryptStep(p, c, BatchBytesWithMethod(packets)[1..]);
    (after, [MARKER] + ciphertext)
  }

  datatype Reading =
    | Packets(packets: seq<Packet>)
    | DecryptionFailed
    | Undecodable

  /** What a payload turns out to be; the method byte is not looked at again. */
  function OnPayload(p: Primitives, c: CipherState, payload: bytes): (CipherState, Reading) {
    if payload == [] || payload[0] != MARKER then (c, Undecodable) else
    match DecryptStep(p, c, payload[1..])
    case (after, Failure(_)) => (after, DecryptionFailed)
    case (after, Success(plaintext)) =>
      match DecodePackets(if plaintext == [] then [] else plaintext[1..], [])
      case Failure(_) => (after, Undecodable)
      case Success(packets) => (after, Packets(packets))
  }

  datatype Run = Run(sender: CipherState, receiver: CipherState, readings: seq<Reading>, bytesSent: nat)

  /** One batch sent, and read at the other end. */
  function Turn(p: Primitives, before: Run, packets: seq<Packet>): Run {
    var (after, payload) := SendEncrypted(p, before.sender, packets);
    var (heard, reading) := OnPayload(p, before.receiver, payload);
    Run(after, heard, before.readings + [reading], before.bytesSent + |BatchBytesWithMethod(packets)[1..]| + CHECKSUM_LEN)
  }

  /** Every batch sent, and read in order at the other end. */
  function RunAll(p: Primitives, sender: CipherState, receiver: CipherState, batches: seq<seq<Packet>>): Run
    decreases |batches|
  {
    if batches == [] then Run(sender, receiver, [], 0)
    else Turn(p, RunAll(p, sender, receiver, batches[..|batches| - 1]), batches[|batches| - 1])
  }

  /** How a run stands after n batches. */
  ghost predicate Standing(run: Run, n: nat) {
    && InStep(run.sender, run.receiver)
    && run.sender.sent == n % TWO_64
    && run.sender.outbound == run.bytesSent
    && |run.readings| == n
  }

  /** The same packet lists, in the same order. */
  function Expected(batches: seq<seq<Packet>>): (readings: seq<Reading>)
    ensures |readings| == |batches|
    ensures forall n :: 0 <= n < |batches| ==> readings[n] == Packets(TrimmedAll(batches[n]))
    decreases |batches|
  {
    if batches == [] then []
    else Expected(batches[..|batches| - 1]) + [Packets(TrimmedAll(batches[|batches| - 1]))]
  }

  lemma TurnKeepsStanding(p: Primitives, before: Run, packets: seq<Packet>, n: nat)
    requires p.Valid() && Standing(before, n) && AllFramable(packets)
    ensures Standing(Turn(p, before, packets), n + 1)
    ensures Turn(p, before, packets).readings == before.readings + [Packets(TrimmedAll(packets))]
  {
    OneBatch(p, before.sender, before.receiver, packets);
    CountOn(n);
    hide SendEncrypted, OnPayload, TrimmedAll, BatchBytesWithMethod, InStep;
  }

  ghost predicate AllFramable(packets: seq<Packet>) {
    forall i :: 0 <= i < |packets| ==> Framable(packets[i])
  }

  lemma OneBatch(p: Primitives, sender: CipherState, receiver: CipherState, packets: seq<Packet>)
    requires p.Valid() && InStep(sender, receiver) && AllFramable(packets)
    ensures var (after, payload) := SendEncrypted(p, sender, packets);
            var (heard, reading) := OnPayload(p, receiver, payload);
            && InStep(after, heard) && reading == Packets(TrimmedAll(packets))
            && after.outbound == sender.outbound + |BatchBytesWithMethod(packets)[1..]| + CHECKSUM_LEN
            && after.sent == (sender.sent + 1) % TWO_64
  {
    hide EncryptStep, DecryptStep, DecodePackets, StreamBytes, TrimmedAll, BatchBytesWithMethod, InStep, AllFramable;
    BodyReadsBack(packets);
    var body := BatchBytesWithMethod(packets)[1..];
    OneMessage(p, sender, receiver, body);
    OneCounted(p, sender, body);
    var (after, ciphertext) := EncryptStep(p, sender, body);
    assert ([MARKER] + ciphertext)[1..] == ciphertext;
  }

  /** The body of a batch, behind its method byte, is the packets. */
  lemma BodyReadsBack(packets: seq<Packet>)
    requires AllFramable(packets)
    ensures BatchBytesWithMethod(packets) != []
    ensures var body := BatchBytesWithMethod(packets)[1..];
            body != [] && DecodePackets(body[1..], []) == Success(TrimmedAll(packets))
  {
    MethodFollowsMarker(packets);
    var body := BatchBytesWithMethod(packets)[1..];
    assert body == [MethodByte(Plain)] + StreamBytes(packets) && body[1..] == StreamBytes(packets);
    StreamReadsBack(packets, []);
    assert [] + TrimmedAll(packets) == TrimmedAll(packets);
    hide DecodePackets, StreamBytes, TrimmedAll, BatchBytesWithMethod;
  }

  lemma OneCounted(p: Primitives, c: CipherState, plaintext: bytes)
    ensures EncryptStep(p, c, plaintext).0.sent == (c.sent + 1) % TWO_64
  {
    hide Masked, Checksum;
  }

  lemma CountOn(n: nat)
    ensures (n % TWO_64 + 1) % TWO_64 == (n + 1) % TWO_64
  {
  }

  /** In lock-step: over every run of packet lists, reading in order what was encrypted gives the same
      lists (whole, when every id is below 1024 and every subclient below 4), the counters stay equal,
      and the keystream stands at the sum of the body lengths and their checksums. */
  lemma {:induction false} StreamsStayInStep(p: Primitives, key: bytes, batches: seq<seq<Packet>>)
    requires p.Valid() && forall n :: 0 <= n < |batches| ==> AllFramable(batches[n])
    ensures var run := RunAll(p, NewState(key), NewState(key), batches);
            && Standing(run, |batches|)
            && run.readings == Expected(batches)
    decreases |batches|
  {
    if batches != [] {
      var last := |batches| - 1;
      StreamsStayInStep(p, key, batches[..last]);
      var before := RunAll(p, NewState(key), NewState(key), batches[..last]);
      TurnKeepsStanding(p, before, batches[last], last);
      hide Turn, AllFramable, TrimmedAll, InStep;
    }
  }

  /** Both directions as an object; the keystream is laid over arrays in place. */
  class Cipher {
    const p: Primitives
    const key: bytes
    var outbound: nat
    var inbound: nat
    var sent: u64
    var received: u64

    ghost function State(): CipherState
      reads this
    {
      CipherState(key, outbound, inbound, sent, received)
    }

    ghost predicate Valid() {
      p.Valid()
    }

    constructor (p: Primitives, key: bytes)
      requires p.Valid()
      ensures Valid() && this.p == p && State() == NewState(key)
    {
      this.p := p;
      this.key := key;
      this.outbound, this.inbound, this.sent, this.received := 0, 0, 0, 0;
    }

    /** Lays the keystream over a buffer in place. */
    method ApplyKeystream(buf: array<u8>, offset: nat)
      requires Valid()
      modifies buf
      ensures buf[..] == Masked(p, key, offset, old(buf[..]))
    {
      hide Bits.Xor;
      for i := 0 to buf.Length
        invariant forall j :: 0 <= j < i ==> buf[j] == XorByte(old(buf[j]), p.keystream(key, offset + j))
        invariant forall j :: i <= j < buf.Length ==> buf[j] == old(buf[j])
      {
        buf[i] := XorByte(buf[i], p.keystream(key, offset + i));
      }
    }

    method Encrypt(plaintext: bytes) returns (ciphertext: bytes)
      requires Valid()
      modifies this`sent, this`outbound
      ensures Valid()
      ensures (State(), ciphertext) == EncryptStep(p, old(State()), plaintext)
    {
      hide Masked, CounterBytes;
      var whole := plaintext + p.digest(CounterBytes(sent, 8) + plaintext + key);
      sent := (sent + 1) % TWO_64;
      var buf := new u8[|whole|](i requires 0 <= i < |whole| => whole[i]);
      assert buf[..] == whole;
      ApplyKeystream(buf, outbound);
      outbound := outbound + buf.Length;
      ciphertext := buf[..];
    }

    method Decrypt(ciphertext: bytes) returns (r: Result<bytes, CipherError>)
      requires Valid()
      modifies this`received, this`inbound
      ensures Valid()
      ensures (State(), r) == DecryptStep(p, old(State()), ciphertext)
    {
      hide Masked, CounterBytes;
      if |ciphertext| < CHECKSUM_LEN {
        return Failure(TooShort);
      }
      var buf := new u8[|ciphertext|](i requires 0 <= i < |ciphertext| => ciphertext[i]);
      assert buf[..] == ciphertext;
      ApplyKeystream(buf, inbound);
      inbound := inbound + buf.Length;
      var split := buf.Length - CHECKSUM_LEN;
      ghost var all := buf[..];
      assert buf[..split] == all[..split] && buf[split..] == all[split..];
      var expected := p.digest(CounterBytes(received, 8) + buf[..split] + key);
      if buf[split..] != expected {
        return Failure(BadChecksum);
      }
      received := (received + 1) % TWO_64;
      r := Success(buf[..split]);
    }
  }
}
