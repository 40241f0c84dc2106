/** The encrypted stream over the transport: the server encrypts each batch and gives the payload to its
    session, whatever the session says; the client decrypts what its own session hands over. */
module EncryptedRuns {
  import opened Integers
  import opened SessionSpec
  import opened Delivery
  import opened Network
  import opened Losses
  import opened EncryptedStream
  import Ciphers
  import Batches
  import Splits
  import Transport

  // Payloads that come from others, none before its place.

  ghost predicate From(payload: bytes, b: seq<bytes>, j: nat) {
    exists i :: j <= i < |b| && b[i] == payload
  }

  ghost predicate Drawn(a: seq<bytes>, b: seq<bytes>) {
    |a| <= |b| && forall j: nat :: j < |a| ==> From(a[j], b, j)
  }

  lemma DrawnGrows(a: seq<bytes>, b: seq<bytes>, payload: bytes, taken: bool)
    requires Drawn(a, b)
    ensures Drawn(a + (if taken then [payload] else []), b + [payload])
  {
    var c, d := a + (if taken then [payload] else []), b + [payload];
    forall j: nat | j < |c|
      ensures From(c[j], d, j)
    {
      if j < |a| {
        assert From(a[j], b, j);
        var i :| j <= i < |b| && b[i] == a[j];
        assert d[i] == c[j];
      } else {
        assert d[|b|] == c[j];
      }
    }
  }

  lemma {:induction false} SubsequenceIsDrawn(a: seq<bytes>, b: seq<bytes>)
    requires Subsequence(a, b)
    ensures Drawn(a, b)
    decreases |b|
  {
    if a != [] {
      var m, n := |a| - 1, |b| - 1;
      assert b == b[..n] + [b[n]];
      if Subsequence(a, b[..n]) {
        SubsequenceIsDrawn(a, b[..n]);
        DrawnGrows(a, b[..n], b[n], false);
        assert a + [] == a;
      } else {
        SubsequenceIsDrawn(a[..m], b[..n]);
        DrawnGrows(a[..m], b[..n], b[n], true);
        assert a == a[..m] + [b[n]];
      }
    }
  }

  lemma DrawnThrough(a: seq<bytes>, b: seq<bytes>, c: seq<bytes>)
    requires Drawn(a, b) && Drawn(b, c)
    ensures Drawn(a, c)
  {
    forall j: nat | j < |a|
      ensures From(a[j], c, j)
    {
      assert From(a[j], b, j);
      var k :| j <= k < |b| && b[k] == a[j];
      assert From(b[k], c, k);
      var i :| k <= i < |c| && c[i] == b[k];
    }
  }

  // Which of the payloads offered to the session it takes.

  /** The payloads given to the left session's `send`, in order. */
  function Offered(ops: seq<Op>): seq<bytes>
    decreases |ops|
  {
    if ops == [] then [] else
    var last := ops[|ops| - 1];
    Offered(ops[..|ops| - 1]) + (if last.onLeft && last.action.Send? then [last.action.payload] else [])
  }

  /** There is room for the payload, and the session is open. */
  predicate Accepts(s: State, payload: bytes) {
    && !IsClosed(s)
    && !Refused(s.config, s.tx, Splits.SplitStep(s.tx.nextSplitId, payload, Capacity(s.config)).0)
  }

  /** How many payloads were accepted before the first that was refused. */
  ghost function Unbroken(left: Config, right: Config, now: nat, ops: seq<Op>): (n: nat)
    ensures n <= |Offered(ops)|
    decreases |ops|
  {
    if ops == [] then 0 else
    var front, last := ops[..|ops| - 1], ops[|ops| - 1];
    var n := Unbroken(left, right, now, front);
    if && last.onLeft && last.action.Send? && n == |Offered(front)|
       && Accepts(Run(Start(left, right, now), front).left.session, last.action.payload)
    then n + 1 else n
  }

  lemma AcceptsIsExact(s: State, payload: bytes, now: nat)
    ensures SendStep(s.config, s.phase, s.tx, payload, now).1.Success? <==> Accepts(s, payload)
  {
    hide Splits.SplitStep, DatagramsNeeded, FlushAll, SessionSpec.Batches, Numbered, Logged, Capacity, Budget;
  }

  /** What a session has sent of what it was offered, the first `n` being accepted: those, and next to
      them one offered later than its place. */
  ghost predicate Skips(sent: seq<bytes>, offered: seq<bytes>, n: nat) {
    && n <= |sent| <= |offered| && sent[..n] == offered[..n]
    && Drawn(sent, offered)
    && (n < |sent| ==> exists i :: n < i < |offered| && sent[n] == offered[i])
  }

  lemma SkipsGrows(sent: seq<bytes>, offered: seq<bytes>, n: nat, payload: bytes, taken: bool)
    requires Skips(sent, offered, n)
    ensures Skips(sent + (if taken then [payload] else []), offered + [payload], if taken && n == |offered| then n + 1 else n)
  {
    var after := offered + [payload];
    DrawnGrows(sent, offered, payload, taken);
    hide Drawn;
    assert after[|offered|] == payload;
    if n < |sent| {
      var i :| n < i < |offered| && sent[n] == offered[i];
      assert after[i] == sent[n];
    } else if n < |offered| && taken {
      assert (sent + [payload])[n] == after[|offered|];
    }
  }

  lemma LeftSentIs(net: Net, op: Op)
    ensures Step(net, op).left.sent
         == net.left.sent + (if op.onLeft && op.action.Send? && Accepts(net.left.session, op.action.payload) then [op.action.payload] else [])
  {
    hide ReceiveStep, TickStep, CloseStep, SendStep, Accepts;
    if op.onLeft && op.action.Send? {
      AcceptsIsExact(net.left.session, op.action.payload, op.action.now);
    }
  }

  lemma {:induction false} RefusalsAreSkipped(left: Config, right: Config, now: nat, ops: seq<Op>)
    ensures Skips(Run(Start(left, right, now), ops).left.sent, Offered(ops), Unbroken(left, right, now, ops))
    decreases |ops|
  {
    if ops != [] {
      var front, op := ops[..|ops| - 1], ops[|ops| - 1];
      var before := Run(Start(left, right, now), front);
      RefusalsAreSkipped(left, right, now, front);
      LeftSentIs(before, op);
      hide Step, Accepts, Skips;
      if op.onLeft && op.action.Send? {
        SkipsGrows(before.left.sent, Offered(front), Unbroken(left, right, now, front), op.action.payload,
                   Accepts(before.left.session, op.action.payload));
      } else {
        assert before.left.sent + [] == before.left.sent && Offered(front) + [] == Offered(front);
      }
    }
  }

  // What the client reads.

  /** The payloads after the first `n`. */
  function After(payloads: seq<bytes>, n: nat): seq<bytes> {
    if |payloads| <= n then [] else payloads[n..]
  }

  /** What the calls of a run give to the server's session: the `plain` payloads that set encryption up,
      which were accepted, and then the batches, encrypted. */
  ghost predicate Carries(left: Config, right: Config, now: nat, ops: seq<Op>, plain: seq<bytes>, payloads: seq<bytes>) {
    && Offered(ops) == plain + payloads
    && |plain| <= Unbroken(left, right, now, ops)
    && forall i :: 0 <= i < |plain| ==> IsApp(plain[i])
  }

  /** What is handed over is a prefix of what was accepted. */
  lemma HandedIsPrefix(left: Config, right: Config, now: nat, ops: seq<Op>)
    requires var net := Run(Start(left, right, now), ops);
             InBounds(net) && NothingLost(left, right, now, ops)
    requires forall i :: 0 <= i < |Offered(ops)| ==> IsApp(Offered(ops)[i])
    ensures var net := Run(Start(left, right, now), ops);
            net.right.handed <= net.left.sent
  {
    RefusalsAreSkipped(left, right, now, ops);
    hide Run, Offered, Unbroken, NothingLost, InBounds, IsApp;
    ApplicationPayloadsArePrefix(left, right, now, ops);
  }

  /** Over every run, whatever is refused or lost: the client reads the batches in order, from the first,
      exactly when the payloads handed to it are those encrypted, in order, from the first. */
  lemma ReadsExactlyThePrefix(left: Config, right: Config, now: nat, ops: seq<Op>,
                              p: Ciphers.Primitives, key: bytes, plain: seq<bytes>, batches: seq<seq<Batches.Packet>>)
    requires InBounds(Run(Start(left, right, now), ops))
    requires p.Valid() && AllBatchesFramable(batches) && NoneMistaken(p, key, batches)
    requires Carries(left, right, now, ops, plain, Encrypted(p, key, batches).1)
    ensures var read := After(Run(Start(left, right, now), ops).right.handed, |plain|);
            ReadsInOrder(p, key, read, batches) <==> read <= Encrypted(p, key, batches).1
  {
    HandedIsDrawn(left, right, now, ops, plain, batches, p, key);
    hide Run, Offered, Unbroken, InBounds, IsApp, Encrypted, NoneMistaken, AllBatchesFramable, ReadsInOrder, Drawn;
    ReadingWhatWasDrawn(Run(Start(left, right, now), ops).right.handed, p, key, plain, batches);
  }

  lemma HandedIsDrawn(left: Config, right: Config, now: nat, ops: seq<Op>, plain: seq<bytes>,
                      batches: seq<seq<Batches.Packet>>, p: Ciphers.Primitives, key: bytes)
    requires InBounds(Run(Start(left, right, now), ops))
    requires Carries(left, right, now, ops, plain, Encrypted(p, key, batches).1)
    ensures Drawn(Run(Start(left, right, now), ops).right.handed, plain + Encrypted(p, key, batches).1)
  {
    EncryptedIsApplication(p, key, batches);
    RefusalsAreSkipped(left, right, now, ops);
    var net := Run(Start(left, right, now), ops);
    Transport.PayloadsArriveInOrder(left, right, now, ops);
    SubsequenceIsDrawn(net.right.handed, AppOnly(net.left.sent));
    hide Run, Offered, Unbroken, InBounds, IsApp, Encrypted, Subsequence, AppOnly;
    assert forall i :: 0 <= i < |net.left.sent| ==> IsApp(net.left.sent[i]);
    Transport.AppOnlyOfApps(net.left.sent);
    hide Drawn;
    DrawnThrough(net.right.handed, net.left.sent, Offered(ops));
  }

  lemma ReadingWhatWasDrawn(handed: seq<bytes>, p: Ciphers.Primitives, key: bytes, plain: seq<bytes>,
                            batches: seq<seq<Batches.Packet>>)
    requires p.Valid() && AllBatchesFramable(batches) && NoneMistaken(p, key, batches)
    requires Drawn(handed, plain + Encrypted(p, key, batches).1)
    ensures var read := After(handed, |plain|);
            ReadsInOrder(p, key, read, batches) <==> read <= Encrypted(p, key, batches).1
  {
    hide Encrypted, NoneMistaken, AllBatchesFramable, ReadsInOrder;
    var payloads, read := Encrypted(p, key, batches).1, After(handed, |plain|);
    if read <= payloads {
      PrefixIsRead(p, key, read, batches);
    } else {
      var m := FirstOff(read, payloads);
      assert From(handed[|plain| + m], plain + payloads, |plain| + m);
      var i :| |plain| + m <= i < |plain + payloads| && (plain + payloads)[i] == handed[|plain| + m];
      assert read[m] == payloads[i - |plain|];
      LaterIsNotRead(p, key, read, batches, m, i - |plain|);
    }
  }

  /** Where two lists first differ. */
  function FirstOff(a: seq<bytes>, b: seq<bytes>): (m: nat)
    requires |a| <= |b| && !(a <= b)
    ensures m < |a| && a[..m] == b[..m] && a[m] != b[m]
    decreases |a|
  {
    var last := |a| - 1;
    if a[..last] <= b then last else FirstOff(a[..last], b)
  }

  /** Over every run that loses nothing at the client: the client reads the batches in order, from the
      first, exactly when nothing has been handed to it that was accepted after a refused send. */
  lemma BatchesArriveInOrder(left: Config, right: Config, now: nat, ops: seq<Op>,
                             p: Ciphers.Primitives, key: bytes, plain: seq<bytes>, batches: seq<seq<Batches.Packet>>)
    requires InBounds(Run(Start(left, right, now), ops)) && NothingLost(left, right, now, ops)
    requires p.Valid() && AllBatchesFramable(batches)
    requires Carries(left, right, now, ops, plain, Encrypted(p, key, batches).1)
    ensures var handed := Run(Start(left, right, now), ops).right.handed;
            && (|handed| <= Unbroken(left, right, now, ops) ==> ReadsInOrder(p, key, After(handed, |plain|), batches))
            && (NoneMistaken(p, key, batches) ==>
                  (ReadsInOrder(p, key, After(handed, |plain|), batches) <==> |handed| <= Unbroken(left, right, now, ops)))
  {
    EncryptedIsApplication(p, key, batches);
    HandedIsPrefix(left, right, now, ops);
    RefusalsAreSkipped(left, right, now, ops);
    var net := Run(Start(left, right, now), ops);
    hide Run, Offered, Unbroken, NothingLost, InBounds, IsApp, Encrypted, NoneMistaken, AllBatchesFramable, ReadsInOrder;
    ReadingWhatWasSent(net.right.handed, net.left.sent, Unbroken(left, right, now, ops), p, key, plain, batches);
  }

  lemma AfterThePlain(handed: seq<bytes>, plain: seq<bytes>, payloads: seq<bytes>, n: nat)
    requires n <= |handed| && n <= |plain| + |payloads| && handed[..n] == (plain + payloads)[..n]
    ensures var m := if n <= |plain| then 0 else n - |plain|;
            m <= |After(handed, |plain|)| && After(handed, |plain|)[..m] == payloads[..m]
  {
    forall j | 0 <= j < n - |plain|
      ensures After(handed, |plain|)[j] == payloads[j]
    {
      assert handed[..n][|plain| + j] == (plain + payloads)[..n][|plain| + j];
    }
  }

  lemma ReadingWhatWasSent(handed: seq<bytes>, sent: seq<bytes>, n: nat,
                           p: Ciphers.Primitives, key: bytes, plain: seq<bytes>, batches: seq<seq<Batches.Packet>>)
    requires p.Valid() && AllBatchesFramable(batches)
    requires handed <= sent && Skips(sent, plain + Encrypted(p, key, batches).1, n) && |plain| <= n
    ensures |handed| <= n ==> ReadsInOrder(p, key, After(handed, |plain|), batches)
    ensures |handed| > n && NoneMistaken(p, key, batches) ==> !ReadsInOrder(p, key, After(handed, |plain|), batches)
  {
    hide Encrypted, NoneMistaken, AllBatchesFramable, ReadsInOrder;
    var payloads, read := Encrypted(p, key, batches).1, After(handed, |plain|);
    var offered := plain + payloads;
    if |handed| <= n {
      AfterThePlain(handed, plain, payloads, |handed|);
      PrefixIsRead(p, key, read, batches);
    } else {
      var m := n - |plain|;
      var i :| n < i < |offered| && sent[n] == offered[i];
      AfterThePlain(handed, plain, payloads, n);
      assert read[m] == payloads[i - |plain|];
      if NoneMistaken(p, key, batches) {
        LaterIsNotRead(p, key, read, batches, m, i - |plain|);
      }
    }
  }

  /** In particular, while no send is refused. */
  lemma NoneRefusedAllRead(left: Config, right: Config, now: nat, ops: seq<Op>,
                           p: Ciphers.Primitives, key: bytes, plain: seq<bytes>, batches: seq<seq<Batches.Packet>>)
    requires InBounds(Run(Start(left, right, now), ops)) && NothingLost(left, right, now, ops)
    requires p.Valid() && AllBatchesFramable(batches)
    requires Carries(left, right, now, ops, plain, Encrypted(p, key, batches).1)
    requires Unbroken(left, right, now, ops) == |Offered(ops)|
    ensures ReadsInOrder(p, key, After(Run(Start(left, right, now), ops).right.handed, |plain|), batches)
  {
    EncryptedIsApplication(p, key, batches);
    HandedIsPrefix(left, right, now, ops);
    RefusalsAreSkipped(left, right, now, ops);
    BatchesArriveInOrder(left, right, now, ops, p, key, plain, batches);
    hide Run, Offered, Unbroken, NothingLost, InBounds, IsApp, Encrypted, ReadsInOrder;
  }
}
