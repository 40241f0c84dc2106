/** What two sessions give their callers over any network, after any run of calls. */
module Transport {
  import opened Integers
  import opened Datagrams
  import opened SessionSpec
  import opened SendHistory
  import opened Sender
  import opened Receiver
  import opened Delivery
  import opened Endpoint
  import opened Network
  import Order
  import Reassembly
  import Sending
  import Splits

  // Reliable, ordered, exactly once.

  /** Payloads `to` has released of those `from` sent: how far it has got. */
  function Reached(to: Side): nat {
    to.session.rx.ordering.expected
  }

  /** `from`'s application payloads arrive in the order sent, none repeated, none made up; the only
      ones missing below the point reached are those dropped with a refused reply. */
  ghost predicate ArriveInOrder(from: Side, to: Side) {
    var accepted, got := from.session.tx.log.accepted, to.session.rx.log;
    && Reached(to) <= |accepted|
    && got.released == accepted[..Reached(to)]
    && Subsequence(to.handed, AppOnly(from.sent))
    && (got.lost == 0 <==> to.handed == AppOnly(accepted[..Reached(to)]))
    && (got.lost == 0 ==> to.handed <= AppOnly(from.sent))
    && (Quiet(accepted) ==> got.lost == 0)
  }

  lemma {:induction false} SubsequenceIsShorter(a: seq<bytes>, b: seq<bytes>)
    requires Subsequence(a, b)
    ensures |a| <= |b| && (|a| == |b| ==> a == b)
    decreases |b|
  {
    if a != [] {
      var n := |b| - 1;
      if Subsequence(a, b[..n]) {
        SubsequenceIsShorter(a, b[..n]);
      } else {
        SubsequenceIsShorter(a[..|a| - 1], b[..n]);
        assert a == a[..|a| - 1] + [a[|a| - 1]] && b == b[..n] + [b[n]];
      }
    }
  }

  lemma SoundArrives(from: Side, to: Side)
    requires SoundEnd(to.session, from.session) && Witnessed(from) && Witnessed(to)
    ensures ArriveInOrder(from, to)
  {
    var accepted, got := from.session.tx.log.accepted, to.session.rx.log;
    var n := Reached(to);
    assert n <= |accepted| && got.released == accepted[..n] && Handed(got, []) && (Quiet(accepted) ==> got.lost == 0) by {
      hide TxInv, Quiet, Handed, Answered, Clean, BatchesTaken;
    }
    hide SoundEnd;
    assert got.delivered + [] == got.delivered;
    SubsequenceIsShorter(to.handed, AppOnly(got.released));
    assert accepted == accepted[..n] + accepted[n..];
    AppOnlyJoins(accepted[..n], accepted[n..]);
    SubsequenceGrows(to.handed, AppOnly(accepted[..n]), AppOnly(accepted[n..]));
    hide AppOnly, Subsequence, Quiet;
  }

  /** Over every run. */
  lemma PayloadsArriveInOrder(left: Config, right: Config, now: nat, ops: seq<Op>)
    requires InBounds(Run(Start(left, right, now), ops))
    ensures var net := Run(Start(left, right, now), ops);
            ArriveInOrder(net.left, net.right)
  {
    RunKeeps(left, right, now, ops);
    var net := Run(Start(left, right, now), ops);
    hide Run, ArriveInOrder, SoundEnd, Witnessed, OnlyEmitted;
    SoundArrives(net.left, net.right);
  }

  /** And the other way, over the same run. */
  lemma AnswersArriveInOrder(left: Config, right: Config, now: nat, ops: seq<Op>)
    requires InBounds(Run(Start(left, right, now), ops))
    ensures var net := Run(Start(left, right, now), ops);
            ArriveInOrder(net.right, net.left)
  {
    RunKeeps(left, right, now, ops);
    var net := Run(Start(left, right, now), ops);
    hide Run, ArriveInOrder, SoundEnd, Witnessed, OnlyEmitted;
    SoundArrives(net.right, net.left);
  }

  lemma {:induction false} AppOnlyOfApps(payloads: seq<bytes>)
    requires forall i :: 0 <= i < |payloads| ==> IsApp(payloads[i])
    ensures AppOnly(payloads) == payloads
    decreases |payloads|
  {
    if payloads != [] {
      AppOnlyOfApps(payloads[..|payloads| - 1]);
      assert payloads == payloads[..|payloads| - 1] + [payloads[|payloads| - 1]];
    }
  }

  // Acknowledgements.

  /** Soundness: over every run, a datagram that has left the in-flight map has been received. */
  lemma OnlyReceivedIsForgotten(left: Config, right: Config, now: nat, ops: seq<Op>, q: nat)
    requires InBounds(Run(Start(left, right, now), ops))
    ensures var net := Run(Start(left, right, now), ops);
            && (q < |net.left.session.tx.log.batches| ==>
                  q in net.left.session.tx.retrans.inFlight || q in net.right.session.rx.log.received)
            && (q < |net.right.session.tx.log.batches| ==>
                  q in net.right.session.tx.retrans.inFlight || q in net.left.session.rx.log.received)
  {
    RunKeeps(left, right, now, ops);
    hide Run, TxInv, RxInv, OnlyEmitted, InBounds;
  }

  lemma EveryFrameTaken(s: State, peer: State, r: nat)
    requires SoundEnd(s, peer) && SoundEnd(peer, s)
    requires s.tx.retrans.inFlight == map[] && Unhurt(peer.rx.log) && r < |s.tx.log.frames|
    ensures r in peer.rx.log.taken
  {
    var log := s.tx.log;
    assert WentOut(log, r) && Answered(s.tx, peer.rx.log.received) && BatchesTaken(log, peer.rx.log) && log.frames[r].reliableIndex == r by {
      hide GoodFrame, GoodBatch, GoodEntry, Answered, WentOut, Handed, RxCore, Clean, BatchesTaken;
    }
    hide SoundEnd;
    var q: nat :| InBatch(log, r, q);
    assert q in peer.rx.log.received;
    var i :| 0 <= i < |log.batches[q]| && log.batches[q][i] == log.frames[r];
    assert AllTaken(log.batches[q], peer.rx.log.taken);
  }

  /** Once every frame of payload k has been taken, and nothing was refused, its index has been pushed. */
  lemma GroupIsPushed(rx: Rx, log: SendLog, k: nat)
    requires GoodLog(log) && Clean(rx, log, -1) && k < |log.accepted| && log.starts[k] < End(log, k)
    requires forall r: nat :: r < |log.frames| ==> r in rx.log.taken
    ensures k in rx.log.pushed
  {
    var first := log.starts[k];
    GroupOf(log, k, first);
    var f := log.frames[first];
    assert Placed(f, rx.log) && GoodFrame(f, log);
    if f.split.Some? {
      var id := f.split.value.id;
      var number: nat := id;
      assert GoodEntry(id, log);
      forall j: nat | j < |log.catalog[id]|
        ensures (number, j) in rx.log.fragments
      {
        FragmentIsStored(rx, log, id, j);
      }
      assert Reassembly.AllOf(rx.log.fragments, id, |log.catalog[id]|);
    }
  }

  lemma FragmentIsStored(rx: Rx, log: SendLog, id: u16, j: nat)
    requires GoodLog(log) && PlacedBut(log, rx.log, -1) && id in log.catalog && j < |log.catalog[id]|
    requires |log.catalog[id]| >= 2
    requires forall r: nat :: r < |log.frames| ==> r in rx.log.taken
    ensures (id as int, j as int) in rx.log.fragments
  {
    assert GoodEntry(id, log);
    var k := log.owner[id];
    var r := log.starts[k] + j;
    GroupOf(log, k, r);
    var f := log.frames[r];
    assert Placed(f, rx.log) && GoodFrame(f, log);
    assert f.split.Some? && f.split.value.index == j;
    assert log.owner[f.split.value.id] == log.owner[id];
  }

  /** Nothing in flight, nothing refused, expired or below the floor: everything sent has arrived. */
  ghost predicate NothingOutstanding(from: Side, to: Side) {
    && Capacity(from.session.config) > 0
    && from.session.tx.retrans.inFlight == map[]
    && Unhurt(to.session.rx.log)
  }

  lemma EverythingReleased(s: State, peer: State)
    requires SoundEnd(s, peer) && SoundEnd(peer, s)
    requires Capacity(s.config) > 0 && s.tx.retrans.inFlight == map[] && Unhurt(peer.rx.log)
    ensures peer.rx.ordering.expected == |s.tx.log.accepted| && peer.rx.log.lost == 0
  {
    var log, got := s.tx.log, peer.rx.log;
    forall r: nat | r < |log.frames|
      ensures r in got.taken
    {
      EveryFrameTaken(s, peer, r);
    }
    assert GoodLog(log) && Framed(log) && Clean(peer.rx, log, -1) && Order.InOrder(peer.rx.ordering, log.accepted, got.released, got.pushed) && got.lost == 0 by {
      hide GoodLog, Framed, Clean, Order.InOrder, Handed, Order.Remembers;
    }
    GoodLogLengths(log);
    hide SoundEnd, GoodLog, Clean;
    var k := peer.rx.ordering.expected;
    if k < |log.accepted| {
      GroupIsPushed(peer.rx, log, k);
    }
  }

  /** Completeness: a sender with nothing left in flight, whose peer never had a call fail, a
      reassembly expire or a first arrival below the deduplication floor, has had everything it sent
      delivered. */
  lemma NothingOutstandingMeansDelivered(left: Config, right: Config, now: nat, ops: seq<Op>)
    requires var net := Run(Start(left, right, now), ops);
             InBounds(net) && NothingOutstanding(net.left, net.right)
    ensures var net := Run(Start(left, right, now), ops);
            && net.right.session.rx.log.released == net.left.session.tx.log.accepted
            && net.right.handed == AppOnly(net.left.sent)
  {
    RunKeeps(left, right, now, ops);
    var net := Run(Start(left, right, now), ops);
    hide Run, SoundEnd, OnlyEmitted, Witnessed, Bounded;
    SoundArrives(net.left, net.right);
    EverythingReleased(net.left.session, net.right.session);
    var accepted := net.left.session.tx.log.accepted;
    assert accepted[..|accepted|] == accepted;
    assert AppOnly(accepted) == AppOnly(net.left.sent) by {
      assert Witnessed(net.left);
    }
  }

  /** Any acknowledgement the network can deliver names ranges that can be walked, and only
      datagrams the other end has received. */
  lemma AcknowledgementsCanBeWalked(left: Config, right: Config, now: nat, ops: seq<Op>, d: bytes)
    requires var net := Run(Start(left, right, now), ops);
             InBounds(net) && d in net.toLeft && DecodeDatagram(d).Success? && !DecodeDatagram(d).value.FrameSet?
    ensures var net := Run(Start(left, right, now), ops);
            var decoded := DecodeDatagram(d).value;
            && decoded.Ack?
            && (forall i :: 0 <= i < |decoded.ranges| ==> decoded.ranges[i].start <= decoded.ranges[i].end)
            && (forall q: nat :: Contains(decoded.ranges, q) ==> q in net.right.session.rx.log.received)
  {
    RunKeeps(left, right, now, ops);
    var net := Run(Start(left, right, now), ops);
    var s := net.right.session;
    SoundHasAGoodLog(s, net.left.session.tx.log, net.left.session.rx.log.received);
    assert Emitted(d, s.tx.log, s.rx.log.received);
    hide Run, SoundEnd, OnlyEmitted, Witnessed, GoodLog, IsBatch, IsAck, DecodeDatagram, Contains;
    if q: nat :| IsBatch(d, s.tx.log, q) {
      BatchDecodes(d, s.tx.log, q);
    } else {
      var ranges :| IsAck(d, ranges, s.rx.log.received);
      AckDecodes(d, ranges, s.rx.log.received);
    }
  }

  // Where the code promises less.

  /** A reply is refused exactly when the session is closed or there is no room for its datagrams. */
  lemma ReplyIsRefusedWhenFull(s: State, payload: bytes, now: nat)
    requires s.tx.retrans.limits == s.config.retransmit
    ensures Handle(s, payload, now).1.Failure? <==>
            && Asks(payload)
            && var frames := Splits.SplitStep(s.tx.nextSplitId, ReplyTo(s, payload, now).value, Capacity(s.config)).0;
            var needed := DatagramsNeeded(frames, Budget(s.config), 0);
            || IsClosed(s)
            || |s.tx.outbox| + needed > s.config.maxOutbox
            || |s.tx.retrans.inFlight| + needed > s.config.retransmit.maxInFlight
  {
    AskingIsNotAnApp(s, payload, now);
    hide ReplyTo, Asks, IsApp, SendStep, DatagramsNeeded, Splits.SplitStep, Capacity;
    if Asks(payload) {
      Sending.SendIsAllOrNothing(s.config, s.phase, s.tx, ReplyTo(s, payload, now).value, now);
    }
  }

  lemma SomeDatagramNeeded(config: Config, nextId: u16, payload: bytes)
    requires Capacity(config) > 0
    ensures DatagramsNeeded(Splits.SplitStep(nextId, payload, Capacity(config)).0, Budget(config), 0) >= 1
  {
    Sending.FragmentsFit(config, nextId, payload);
    hide Splits.SplitStep, Capacity;
  }
}
