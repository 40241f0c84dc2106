/** The payloads of an encrypted stream by themselves: what the server makes of its batches, and what the
    client makes of any payloads at all. */
module EncryptedStream {
  import opened Integers
  import opened Batches
  import opened Ciphers
  import Bits
  import CipherRuns
  import SessionSpec

  /** The server's cipher after `batches`, and the payloads it has given to its session. */
  function Encrypted(p: Primitives, key: bytes, batches: seq<seq<Packet>>): (r: (CipherState, seq<bytes>))
    ensures |r.1| == |batches|
    decreases |batches|
  {
    if batches == [] then (NewState(key), []) else
    var (before, payloads) := Encrypted(p, key, batches[..|batches| - 1]);
    var (after, payload) := SendEncrypted(p, before, batches[|batches| - 1]);
    (after, payloads + [payload])
  }

  /** The client's cipher after `payloads`, and what it made of each. */
  function ReadAll(p: Primitives, key: bytes, payloads: seq<bytes>): (r: (CipherState, seq<Reading>))
    ensures |r.1| == |payloads|
    decreases |payloads|
  {
    if payloads == [] then (NewState(key), []) else
    var (before, readings) := ReadAll(p, key, payloads[..|payloads| - 1]);
    var (after, reading) := OnPayload(p, before, payloads[|payloads| - 1]);
    (after, readings + [reading])
  }

  lemma {:induction false} EncryptedPrefix(p: Primitives, key: bytes, batches: seq<seq<Packet>>, n: nat)
    requires n <= |batches|
    ensures Encrypted(p, key, batches).1[..n] == Encrypted(p, key, batches[..n]).1
    decreases |batches|
  {
    if n == |batches| {
      assert batches[..n] == batches;
    } else {
      hide Encrypted;
      var last := |batches| - 1;
      OneMoreEncrypted(p, key, batches);
      EncryptedPrefix(p, key, batches[..last], n);
      assert batches[..last][..n] == batches[..n];
    }
  }

  lemma OneMoreEncrypted(p: Primitives, key: bytes, batches: seq<seq<Packet>>)
    requires batches != []
    ensures var last := |batches| - 1;
            Encrypted(p, key, batches).1[..last] == Encrypted(p, key, batches[..last]).1
  {
    hide SendEncrypted;
  }

  lemma {:induction false} ReadPrefix(p: Primitives, key: bytes, payloads: seq<bytes>, n: nat)
    requires n <= |payloads|
    ensures ReadAll(p, key, payloads).1[..n] == ReadAll(p, key, payloads[..n]).1
    ensures n < |payloads| ==> ReadAll(p, key, payloads).1[n] == OnPayload(p, ReadAll(p, key, payloads[..n]).0, payloads[n]).1
    decreases |payloads|
  {
    if n == |payloads| {
      assert payloads[..n] == payloads;
    } else {
      var last := |payloads| - 1;
      ReadPrefix(p, key, payloads[..last], n);
      assert payloads[..last][..n] == payloads[..n];
      hide OnPayload;
    }
  }

  lemma {:induction false} ExpectedPrefix(batches: seq<seq<Packet>>, n: nat)
    requires n <= |batches|
    ensures Expected(batches[..n]) == Expected(batches)[..n]
  {
    hide TrimmedAll;
  }

  lemma OneMoreKeystream(p: Primitives, c: CipherState, packets: seq<Packet>)
    requires p.Valid()
    ensures var (after, payload) := SendEncrypted(p, c, packets);
            |payload| > 0 && after.outbound == c.outbound + |payload| - 1
  {
    hide Masked, CounterBytes, BatchBytesWithMethod;
  }

  /** No byte of keystream is used twice: the stretch under each payload, which is all of it but the marker,
      ends before the stretch under any later one begins. */
  lemma {:induction false} KeystreamIsNeverReused(p: Primitives, key: bytes, batches: seq<seq<Packet>>, i: nat)
    requires p.Valid() && i < |batches|
    ensures var (after, payloads) := Encrypted(p, key, batches);
            |payloads[i]| > 0 && Encrypted(p, key, batches[..i]).0.outbound + |payloads[i]| - 1 <= after.outbound
    decreases |batches|
  {
    hide SendEncrypted;
    var last := |batches| - 1;
    OneMoreKeystream(p, Encrypted(p, key, batches[..last]).0, batches[last]);
    if i < last {
      KeystreamIsNeverReused(p, key, batches[..last], i);
      assert batches[..last][..i] == batches[..i];
    }
  }

  ghost predicate AllBatchesFramable(batches: seq<seq<Packet>>) {
    forall n :: 0 <= n < |batches| ==> AllFramable(batches[n])
  }

  lemma {:induction false} EncryptedIsApplication(p: Primitives, key: bytes, batches: seq<seq<Packet>>)
    ensures forall n :: 0 <= n < |batches| ==> SessionSpec.IsApp(Encrypted(p, key, batches).1[n])
    decreases |batches|
  {
    if batches != [] {
      EncryptedIsApplication(p, key, batches[..|batches| - 1]);
      hide EncryptStep;
    }
  }

  /** The payloads in order, each read once: every batch is read. */
  lemma {:induction false} InOrderReadsAll(p: Primitives, key: bytes, batches: seq<seq<Packet>>)
    requires p.Valid() && AllBatchesFramable(batches)
    ensures var (sender, payloads) := Encrypted(p, key, batches);
            InStep(sender, ReadAll(p, key, payloads).0) && ReadAll(p, key, payloads).1 == Expected(batches)
    decreases |batches|
  {
    if batches != [] {
      var last := |batches| - 1;
      var (before, sent) := Encrypted(p, key, batches[..last]);
      var (after, payload) := SendEncrypted(p, before, batches[last]);
      InOrderReadsAll(p, key, batches[..last]);
      OneBatch(p, before, ReadAll(p, key, sent).0, batches[last]);
      assert (sent + [payload])[..last] == sent;
      hide SendEncrypted, OnPayload, TrimmedAll, InStep, AllFramable;
    }
  }

  /** The checksum tells the payloads of this stream apart: none passes in the place of an earlier one. */
  ghost predicate NoneMistaken(p: Primitives, key: bytes, batches: seq<seq<Packet>>) {
    var payloads := Encrypted(p, key, batches).1;
    forall n, i :: 0 <= n < i < |batches| ==>
                     OnPayload(p, ReadAll(p, key, payloads[..n]).0, payloads[i]).1 == DecryptionFailed
  }

  /** The client's readings are the batches sent, in order, from the first. */
  ghost predicate ReadsInOrder(p: Primitives, key: bytes, payloads: seq<bytes>, batches: seq<seq<Packet>>) {
    ReadAll(p, key, payloads).1 <= Expected(batches)
  }

  /** It reads them so when it is given them so. */
  lemma PrefixIsRead(p: Primitives, key: bytes, payloads: seq<bytes>, batches: seq<seq<Packet>>)
    requires p.Valid() && AllBatchesFramable(batches) && payloads <= Encrypted(p, key, batches).1
    ensures ReadsInOrder(p, key, payloads, batches)
  {
    hide Encrypted, ReadAll, Expected, AllFramable, TrimmedAll, InStep;
    var n := |payloads|;
    EncryptedPrefix(p, key, batches, n);
    InOrderReadsAll(p, key, batches[..n]);
    ExpectedPrefix(batches, n);
    assert payloads == Encrypted(p, key, batches).1[..n];
    assert Encrypted(p, key, batches[..n]).1 == payloads;
    assert ReadAll(p, key, payloads).1 == Expected(batches)[..n];
  }

  /** And not when a payload takes the place of an earlier one. */
  lemma LaterIsNotRead(p: Primitives, key: bytes, payloads: seq<bytes>, batches: seq<seq<Packet>>, n: nat, i: nat)
    requires NoneMistaken(p, key, batches) && n < i < |batches| && n < |payloads|
    requires payloads[..n] == Encrypted(p, key, batches).1[..n] && payloads[n] == Encrypted(p, key, batches).1[i]
    ensures !ReadsInOrder(p, key, payloads, batches)
  {
    ReadPrefix(p, key, payloads, n);
    hide Encrypted, ReadAll, OnPayload, TrimmedAll;
    assert ReadAll(p, key, payloads).1[n] == DecryptionFailed;
    assert Expected(batches)[n].Packets?;
    hide Expected;
  }

  // A hash that does tell them apart: the checksum is the counter.

  function Counting(): Primitives {
    Primitives((_, _) => 0, b => if |b| < CHECKSUM_LEN then CipherRuns.EIGHT_ZEROS else b[..CHECKSUM_LEN])
  }

  lemma {:induction false} CounterBytesLength(v: nat, n: nat)
    ensures |CounterBytes(v, n)| == n
  {
    if n > 0 {
      CounterBytesLength(v / 0x100, n - 1);
    }
  }

  lemma {:induction false} CounterBytesDiffer(a: nat, b: nat, n: nat)
    requires a != b && a < Bits.Pow2(8 * n) && b < Bits.Pow2(8 * n)
    ensures CounterBytes(a, n) != CounterBytes(b, n)
    decreases n
  {
    if n > 0 {
      Bits.Pow2Add(8, 8 * (n - 1));
      Bits.Pow2Values();
      CounterBytesLength(a / 0x100, n - 1);
      CounterBytesLength(b / 0x100, n - 1);
      if a % 0x100 == b % 0x100 {
        CounterBytesDiffer(a / 0x100, b / 0x100, n - 1);
        assert CounterBytes(a, n)[1..] == CounterBytes(a / 0x100, n - 1);
        assert CounterBytes(b, n)[1..] == CounterBytes(b / 0x100, n - 1);
      } else {
        assert CounterBytes(a, n)[0] != CounterBytes(b, n)[0];
      }
    }
  }

  lemma CountersDiffer(a: u64, b: u64)
    requires a != b
    ensures CounterBytes(a, 8) != CounterBytes(b, 8)
  {
    Bits.Pow2Values();
    Bits.Pow2Add(32, 32);
    CounterBytesDiffer(a, b, 8);
  }

  lemma ChecksumIsTheCounter(key: bytes, counter: u64, plaintext: bytes)
    ensures Checksum(Counting(), key, counter, plaintext) == CounterBytes(counter, 8)
  {
    CounterBytesLength(counter, 8);
    hide CounterBytes;
    var all := CounterBytes(counter, 8) + plaintext + key;
    assert all[..CHECKSUM_LEN] == CounterBytes(counter, 8);
  }

  lemma CountingIsValid()
    ensures Counting().Valid()
    ensures forall k, i :: Counting().keystream(k, i) == 0
  {
  }

  /** Read where the counter stands elsewhere, a payload fails. */
  lemma AnotherCounterFails(sender: CipherState, receiver: CipherState, packets: seq<Packet>)
    requires sender.sent != receiver.received
    ensures OnPayload(Counting(), receiver, SendEncrypted(Counting(), sender, packets).1).1 == DecryptionFailed
  {
    hide BatchBytesWithMethod, CounterBytes, Checksum, Masked, Counting;
    CountingIsValid();
    MethodFollowsMarker(packets);
    var body := BatchBytesWithMethod(packets)[1..];
    var buf := body + CounterBytes(sender.sent, 8);
    ChecksumIsTheCounter(sender.key, sender.sent, body);
    CipherRuns.ZerosMask(Counting(), sender.key, sender.outbound, buf);
    CipherRuns.ZerosMask(Counting(), receiver.key, receiver.inbound, buf);
    CounterBytesLength(sender.sent, 8);
    assert ([MARKER] + buf)[1..] == buf && buf[|buf| - CHECKSUM_LEN..] == CounterBytes(sender.sent, 8);
    ChecksumIsTheCounter(receiver.key, receiver.received, buf[..|buf| - CHECKSUM_LEN]);
    CountersDiffer(sender.sent, receiver.received);
  }

  lemma {:induction false} EachBatchCounts(p: Primitives, key: bytes, batches: seq<seq<Packet>>)
    requires |batches| < TWO_64
    ensures Encrypted(p, key, batches).0.sent == |batches|
    decreases |batches|
  {
    hide SendEncrypted;
    if batches != [] {
      var front := batches[..|batches| - 1];
      EachBatchCounts(p, key, front);
      OneBatchCounts(p, Encrypted(p, key, front).0, batches[|batches| - 1]);
    }
  }

  lemma OneBatchCounts(p: Primitives, c: CipherState, packets: seq<Packet>)
    requires c.sent + 1 < TWO_64
    ensures SendEncrypted(p, c, packets).0.sent == c.sent + 1
  {
    hide EncryptStep, BatchBytesWithMethod;
    BatchIsNotEmpty(packets);
    OneCounted(p, c, BatchBytesWithMethod(packets)[1..]);
    CountsUp(c.sent);
    hide TWO_64;
  }

  lemma BatchIsNotEmpty(packets: seq<Packet>)
    ensures BatchBytesWithMethod(packets) != []
  {
    MethodFollowsMarker(packets);
  }

  lemma CountsUp(n: nat)
    requires n + 1 < TWO_64
    ensures (n + 1) % TWO_64 == n + 1
  {
  }

  /** With it, no payload of any stream shorter than the counter's range passes in another's place. */
  lemma CountingMistakesNone(key: bytes, batches: seq<seq<Packet>>)
    requires AllBatchesFramable(batches) && |batches| < TWO_64
    ensures Counting().Valid() && NoneMistaken(Counting(), key, batches)
  {
    hide Counting, Encrypted, ReadAll, SendEncrypted, OnPayload, AllFramable, Expected;
    CountingIsValid();
    var p := Counting();
    var payloads := Encrypted(p, key, batches).1;
    forall n, i | 0 <= n < i < |batches|
      ensures OnPayload(p, ReadAll(p, key, payloads[..n]).0, payloads[i]).1 == DecryptionFailed
    {
      EncryptedAt(p, key, batches, i);
      EncryptedPrefix(p, key, batches, n);
      InOrderReadsAll(p, key, batches[..n]);
      EachBatchCounts(p, key, batches[..n]);
      EachBatchCounts(p, key, batches[..i]);
      AnotherCounterFails(Encrypted(p, key, batches[..i]).0, ReadAll(p, key, payloads[..n]).0, batches[i]);
    }
  }

  lemma EncryptedAt(p: Primitives, key: bytes, batches: seq<seq<Packet>>, i: nat)
    requires i < |batches|
    ensures Encrypted(p, key, batches).1[i] == SendEncrypted(p, Encrypted(p, key, batches[..i]).0, batches[i]).1
  {
    hide SendEncrypted;
    var next := batches[..i + 1];
    EncryptedPrefix(p, key, batches, i + 1);
    assert Encrypted(p, key, batches).1[i] == Encrypted(p, key, batches).1[..i + 1][i];
    assert next[..i] == batches[..i];
  }
}
