/** What every call on a session keeps, given that its peer is one too. */
module Endpoint {
  import opened Integers
  import opened Wrappers
  import opened Datagrams
  import opened SessionSpec
  import opened SendHistory
  import opened Sender
  import opened Receiver
  import opened Delivery
  import Acks
  import Frames
  import Order
  import Reassembly
  import Retransmit
  import RetransmitRuns

  /** All frames of every datagram received have been taken. */
  ghost predicate BatchesTaken(log: SendLog, got: RecvLog) {
    forall q: nat :: q in got.received && q < |log.batches| ==> AllTaken(log.batches[q], got.taken)
  }

  ghost predicate Unhurt(got: RecvLog) {
    !got.failed && !got.expired && !got.late
  }

  ghost predicate RxInv(rx: Rx, log: SendLog) {
    && RxCore(rx, log)
    && Handed(rx.log, [])
    && (rx.log.lost > 0 ==> rx.log.failed)
    && (Quiet(log.accepted) ==> rx.log.lost == 0)
    && (Unhurt(rx.log) ==> Clean(rx, log, -1) && BatchesTaken(log, rx.log))
  }

  // The peer sends more.

  lemma InOrderStays(rx: Rx, a: SendLog, b: SendLog)
    requires Order.InOrder(rx.ordering, a.accepted, rx.log.released, rx.log.pushed) && a.accepted <= b.accepted
    ensures Order.InOrder(rx.ordering, b.accepted, rx.log.released, rx.log.pushed)
  {
  }

  lemma LocatedStillHolds(fragments: set<(int, int)>, a: SendLog, b: SendLog, taken: set<nat>)
    requires Extends(a, b) && AllLocated(fragments, a, taken)
    ensures AllLocated(fragments, b, taken)
  {
  }

  lemma GenuineStays(rx: Rx, a: SendLog, b: SendLog)
    requires Reassembly.Genuine(rx.reasm, a.catalog, rx.log.fragments) && Extends(a, b)
    ensures Reassembly.Genuine(rx.reasm, b.catalog, rx.log.fragments)
  {
    hide Reassembly.EntryFrom;
  }

  lemma CoreStays(rx: Rx, a: SendLog, b: SendLog)
    requires RxCore(rx, a) && Extends(a, b)
    ensures RxCore(rx, b)
  {
    ExtendsLengths(a, b);
    GenuineStays(rx, a, b);
    LocatedStillHolds(rx.log.fragments, a, b, rx.log.taken);
    assert a.accepted <= b.accepted;
    hide Extends, Reassembly.Genuine, AllLocated, Order.Remembers, Order.InOrder;
    InOrderStays(rx, a, b);
  }

  lemma NothingOfTheNew(a: SendLog, b: SendLog, got: RecvLog, id: u16)
    requires AllLocated(got.fragments, a, got.taken) && id in b.catalog && id !in a.catalog && GoodEntry(id, b)
    ensures !Reassembly.SomeOf(got.fragments, id, |b.catalog[id]|) && !Reassembly.AllOf(got.fragments, id, |b.catalog[id]|)
  {
    assert forall g :: g in got.fragments ==> g.0 != id;
    assert (id as int, 0) !in got.fragments;
  }

  lemma ExactStays(rx: Rx, a: SendLog, b: SendLog)
    requires RxCore(rx, a) && Extends(a, b) && GoodLog(b)
    requires Reassembly.Exact(rx.reasm, a.catalog, rx.log.fragments)
    ensures Reassembly.Exact(rx.reasm, b.catalog, rx.log.fragments)
  {
    assert AllLocated(rx.log.fragments, a, rx.log.taken) && Reassembly.Genuine(rx.reasm, a.catalog, rx.log.fragments);
    forall id | id in b.catalog
      ensures Reassembly.ExactAt(rx.reasm, id, |b.catalog[id]|, rx.log.fragments)
    {
      assert GoodEntry(id, b);
      hide GoodLog, RxCore, AllLocated, Reassembly.HasAll;
      if id in a.catalog {
        ExtendsCatalog(a, b, id);
      } else {
        NothingOfTheNew(a, b, rx.log, id);
      }
    }
  }

  lemma WholeStays(rx: Rx, a: SendLog, b: SendLog)
    requires RxCore(rx, a) && Extends(a, b) && GoodLog(a) && GoodLog(b) && WholePushed(a, rx.log)
    ensures WholePushed(b, rx.log)
  {
    var got := rx.log;
    assert AllLocated(got.fragments, a, got.taken) && OneIdEach(a);
    forall id | id in b.catalog && id in b.owner && Reassembly.AllOf(got.fragments, id, |b.catalog[id]|)
      ensures b.owner[id] in got.pushed
    {
      assert GoodEntry(id, b);
      hide GoodLog, RxCore, AllLocated, Reassembly.AllOf;
      if id in a.catalog {
        ExtendsCatalog(a, b, id);
      } else {
        NothingOfTheNew(a, b, got, id);
      }
    }
  }

  lemma PlacedStillHolds(rx: Rx, a: SendLog, b: SendLog)
    requires RxCore(rx, a) && Extends(a, b) && PlacedBut(a, rx.log, -1)
    ensures PlacedBut(b, rx.log, -1)
  {
    ExtendsLengths(a, b);
    hide Extends, Placed, Order.Remembers, Order.InOrder, Reassembly.Genuine, AllLocated;
  }

  lemma BatchesStayTaken(rx: Rx, a: SendLog, b: SendLog)
    requires RxCore(rx, a) && Extends(a, b) && BatchesTaken(a, rx.log)
    ensures BatchesTaken(b, rx.log)
  {
    ExtendsLengths(a, b);
    hide Extends, AllTaken, Order.Remembers, Order.InOrder, Reassembly.Genuine, AllLocated;
  }

  lemma QuietWasQuiet(a: SendLog, b: SendLog)
    requires Extends(a, b) && Quiet(b.accepted)
    ensures Quiet(a.accepted)
  {
    assert forall i :: 0 <= i < |a.accepted| ==> b.accepted[i] == a.accepted[i];
    hide Asks;
  }

  /** Nothing the peer sends later changes what has been received. */
  lemma PeerSends(rx: Rx, a: SendLog, b: SendLog)
    requires RxInv(rx, a) && Extends(a, b) && GoodLog(a) && GoodLog(b)
    ensures RxInv(rx, b)
  {
    CoreStays(rx, a, b);
    hide RxCore, GoodLog, Handed, Extends, Quiet, BatchesTaken, WholePushed, PlacedBut, Reassembly.Exact;
    if Quiet(b.accepted) {
      QuietWasQuiet(a, b);
    }
    if Unhurt(rx.log) {
      ExactStays(rx, a, b);
      WholeStays(rx, a, b);
      PlacedStillHolds(rx, a, b);
      BatchesStayTaken(rx, a, b);
    }
  }

  // Receiving a frame set.

  lemma NotedKeeps(s: State, log: SendLog, q: u32, k: nat)
    requires RxInv(s.rx, log) && TxInv(s.config, s.tx, s.rx.log.received) && q < |log.batches|
    ensures var noted := Noted(s, q);
            && Taking(noted, log, k, [], noted.rx.log.received)
            && (Unhurt(s.rx.log) ==> Clean(noted.rx, log, -1))
  {
    var noted := Noted(s, q);
    HearingKeeps(s.config, s.tx, s.rx.log.received, noted.rx.log.received);
    hide TxInv, Order.Remembers, Order.InOrder, Reassembly.Genuine, AllLocated, Handed, AppOnly, Subsequence;
  }

  lemma BatchIsKnown(log: SendLog, q: nat)
    requires GoodLog(log) && q < |log.batches|
    ensures log.batches[q] != [] && AllKnown(log.batches[q], log, log.batches[q][0].orderIndex)
  {
    var b := log.batches[q];
    assert GoodBatch(b, log);
    forall i | 0 <= i < |b|
      ensures Known(b[i], log)
    {
      assert GoodFrame(log.frames[b[i].reliableIndex], log);
    }
    hide GoodFrame, GoodEntry;
  }

  /** Every datagram sent is still in flight, or the peer has received it. */
  ghost predicate Answered(tx: Tx, heardByPeer: set<u32>) {
    forall q: nat :: q < |tx.log.batches| ==> q in tx.retrans.inFlight || q in heardByPeer
  }

  /** A session in step with a peer that has sent `log` and received `heardByPeer`. */
  ghost predicate Sound(s: State, log: SendLog, heardByPeer: set<u32>) {
    && TxInv(s.config, s.tx, s.rx.log.received)
    && RxInv(s.rx, log)
    && Answered(s.tx, heardByPeer)
  }

  /** What a call leaves of the past. */
  ghost predicate Later(s: State, after: State) {
    && after.config == s.config
    && Extends(s.tx.log, after.tx.log)
    && s.rx.log.received <= after.rx.log.received
  }

  lemma AnsweredStays(config: Config, tx: Tx, after: Tx, heard: set<u32>, heardByPeer: set<u32>)
    requires SendKept(config, tx, after, heard) && Answered(tx, heardByPeer)
    ensures Answered(after, heardByPeer)
  {
    hide TxInv, Extends;
  }

  lemma SettledKeeps(noted: State, log: SendLog, q: u32, after: State, result: Result<seq<bytes>, SessionError>, heard: set<u32>, before: RecvLog)
    requires q < |log.batches|
    requires TookAll(noted, log, log.batches[q], after, result, heard)
    requires noted.rx.log == before.(received := before.received + {q})
    requires before.lost > 0 ==> before.failed
    requires Quiet(log.accepted) ==> before.lost == 0
    requires Unhurt(before) ==> Clean(noted.rx, log, -1) && BatchesTaken(log, before)
    ensures RxInv(Settle(after, result).rx, log)
  {
    var end := Settle(after, result);
    assert SameCall(noted.rx.log, after.rx.log) && RxCore(after.rx, log);
    SettlingIsCore(after.rx, log, end.rx);
    SettlingHands(after, result);
    hide RxCore, Handed, Clean, Quiet, SendKept, AllTaken, Settle;
    if Unhurt(end.rx.log) {
      SettlingIsClean(after, log, result);
      forall p: nat | p in end.rx.log.received && p < |log.batches|
        ensures AllTaken(log.batches[p], end.rx.log.taken)
      {
        if p != q {
          StaysTaken(log.batches[p], before.taken, end.rx.log.taken);
        }
      }
    }
  }

  lemma StaysTaken(frames: seq<Frames.Frame>, taken: set<nat>, more: set<nat>)
    requires AllTaken(frames, taken) && taken <= more
    ensures AllTaken(frames, more)
  {
  }

  lemma SettlingIsCore(rx: Rx, log: SendLog, end: Rx)
    requires RxCore(rx, log)
    requires end == rx.(log := rx.log.(delivered := end.log.delivered, failed := end.log.failed))
    ensures RxCore(end, log)
  {
  }

  lemma SettlingIsClean(after: State, log: SendLog, result: Result<seq<bytes>, SessionError>)
    requires Clean(after.rx, log, -1)
    ensures Clean(Settle(after, result).rx, log, -1)
  {
    hide Reassembly.Exact;
  }

  lemma SettlingHands(after: State, result: Result<seq<bytes>, SessionError>)
    requires Handed(after.rx.log, if result.Success? then result.value else [])
    ensures Handed(Settle(after, result).rx.log, [])
  {
    assert after.rx.log.delivered + [] == after.rx.log.delivered;
    if result.Success? {
      assert after.rx.log.delivered + result.value + [] == after.rx.log.delivered + result.value;
    }
  }

  lemma FrameSetKeeps(s: State, log: SendLog, q: u32, now: nat, heardByPeer: set<u32>)
    requires Sound(s, log, heardByPeer) && GoodLog(log) && Bounded(log) && q < |log.batches|
    requires Bounded(ReceiveFrameSet(s, q, log.batches[q], now).0.tx.log)
    ensures var after := ReceiveFrameSet(s, q, log.batches[q], now).0;
            Sound(after, log, heardByPeer) && Later(s, after)
  {
    var frames, noted := log.batches[q], Noted(s, q);
    BatchIsKnown(log, q);
    var k := frames[0].orderIndex;
    NotedKeeps(s, log, q, k);
    var (after, result) := TakeFrames(noted, frames, [], now);
    hide TakeFrames, GoodLog, Bounded, AllKnown, Taking, TxInv, Clean, Quiet, RxCore, BatchesTaken, Handed;
    TakeFramesKeeps(noted, log, k, frames, [], now, noted.rx.log.received);
    SettledKeeps(noted, log, q, after, result, noted.rx.log.received, s.rx.log);
    AnsweredStays(s.config, s.tx, after.tx, noted.rx.log.received, heardByPeer) by {
      hide RxInv;
    }
    KeptHolds(s.config, s.tx, after.tx, noted.rx.log.received);
    hide RxInv, Answered, Handed;
  }

  // What a datagram of the peer's decodes to.

  lemma FrameIsEncodable(f: Frames.Frame, log: SendLog)
    requires Known(f, log) && Bounded(log) && f.payload != []
    ensures f.Encodable()
  {
  }

  /** An empty payload is a frame of its own, and the first of its datagram. */
  lemma EmptyComesFirst(log: SendLog, q: nat, i: nat)
    requires GoodLog(log) && q < |log.batches| && i < |log.batches[q]| && log.batches[q][i].payload == []
    ensures log.batches[q][0].payload == []
  {
    BatchIsKnown(log, q);
    hide GoodLog;
    assert Known(log.batches[q][0], log) && Known(log.batches[q][i], log);
  }

  lemma EncodableOrEmpty(log: SendLog, q: nat)
    requires GoodLog(log) && Bounded(log) && q < |log.batches|
    ensures var frames := log.batches[q];
            && frames != []
            && (frames[0].payload != [] ==> forall f :: f in frames ==> f.Encodable())
  {
    BatchIsKnown(log, q);
    var frames := log.batches[q];
    hide GoodFrame;
    forall i | 0 <= i < |frames|
      ensures frames[0].payload != [] ==> frames[i].Encodable()
    {
      assert Known(frames[i], log);
      hide GoodLog;
      if frames[i].payload == [] {
        EmptyComesFirst(log, q, i);
      } else {
        FrameIsEncodable(frames[i], log);
      }
    }
  }

  /** It is received as it was sent, unless it carries an empty payload, and then it is refused. */
  lemma BatchDecodes(d: bytes, log: SendLog, q: nat)
    requires IsBatch(d, log, q) && GoodLog(log) && Bounded(log)
    ensures log.batches[q] != []
    ensures DecodeDatagram(d).Failure? <==> log.batches[q][0].payload == []
    ensures DecodeDatagram(d).Success? ==> DecodeDatagram(d) == Success(FrameSet(q, log.batches[q]))
  {
    BatchInRange(d, log, q);
    var frames := log.batches[q];
    EncodableOrEmpty(log, q);
    hide DecodeDatagram, DatagramBytes, GoodLog, Frames.Frame.Encodable;
    if frames[0].payload == [] {
      EmptyPayloadRefused(q, frames);
    } else {
      FrameSetRoundTrip(q, frames);
    }
  }

  lemma AckDecodes(d: bytes, ranges: seq<Range>, heard: set<u32>)
    requires IsAck(d, ranges, heard)
    ensures DecodeDatagram(d).Success? && DecodeDatagram(d).value.Ack?
    ensures var got := DecodeDatagram(d).value.ranges;
            && (forall i :: 0 <= i < |got| ==> got[i].start <= got[i].end)
            && (forall s: nat :: Contains(got, s) ==> s in heard)
  {
    forall r | r in ranges
      ensures r.start < TWO_24 && r.end < TWO_24
    {
      var i :| 0 <= i < |ranges| && ranges[i] == r;
    }
    hide DecodeDatagram, DatagramBytes, Contains;
    AckRoundTrip(ranges);
    var n := Min(|ranges|, MAX_RECORDS);
    forall s: nat | Contains(ranges[..n], s)
      ensures s in heard
    {
      Acks.PrefixContains(ranges, n, s);
    }
  }

  // Receiving an acknowledgement.

  ghost function Unaided(m: Retransmit.Table): map<u32, RetransmitRuns.Sent> {
    map k | k in m :: RetransmitRuns.Sent(m[k].datagram, m[k].sentAt, m[k].retries + 1)
  }

  lemma UnaidedAgrees(m: Retransmit.Table)
    ensures RetransmitRuns.Agrees(m, Unaided(m))
  {
  }

  /** An acknowledgement takes out of flight exactly the sequences it names. */
  lemma AckTakesOut(r: Retransmit.RetransState, ranges: seq<Range>, now: nat)
    ensures var after := Retransmit.AckStep(r, ranges, now);
            && after.limits == r.limits
            && (forall k :: k in after.inFlight <==> k in r.inFlight && !Contains(ranges, k))
            && (forall k :: k in after.inFlight ==> after.inFlight[k] == r.inFlight[k])
  {
    RetransmitRuns.AckKeepsAgreement(r, ranges, now, Unaided(r.inFlight));
  }

  lemma AckKeepsTx(config: Config, tx: Tx, heard: set<u32>, ranges: seq<Range>, now: nat, heardByPeer: set<u32>)
    requires TxInv(config, tx, heard) && Answered(tx, heardByPeer) && forall k: nat :: Contains(ranges, k) ==> k in heardByPeer
    ensures var after := tx.(retrans := Retransmit.AckStep(tx.retrans, ranges, now));
            TxInv(config, after, heard) && Answered(after, heardByPeer)
  {
    AckTakesOut(tx.retrans, ranges, now);
    hide GoodLog, Carried, Cut, Contains, IsBatch, Retransmit.AckStep, AllEmitted;
  }

  lemma AckKeeps(s: State, log: SendLog, ranges: seq<Range>, now: nat, heardByPeer: set<u32>)
    requires Sound(s, log, heardByPeer) && forall k: nat :: Contains(ranges, k) ==> k in heardByPeer
    ensures var after := s.(tx := s.tx.(retrans := Retransmit.AckStep(s.tx.retrans, ranges, now)));
            Sound(after, log, heardByPeer) && Later(s, after)
  {
    AckKeepsTx(s.config, s.tx, s.rx.log.received, ranges, now, heardByPeer);
    GoodLogLengths(s.tx.log);
    ExtendsItself(s.tx.log);
    hide RxInv, TxInv, Answered, Extends, Contains, Retransmit.AckStep;
  }

  lemma HeardLastKeeps(s: State, log: SendLog, now: nat, heardByPeer: set<u32>)
    requires Sound(s, log, heardByPeer)
    ensures Sound(s.(lastHeard := now), log, heardByPeer) && Later(s, s.(lastHeard := now))
  {
    GoodLogLengths(s.tx.log);
    ExtendsItself(s.tx.log);
  }

  /** `receive`, of any datagram the peer ever emitted. */
  lemma ReceiveKeeps(s: State, log: SendLog, d: bytes, now: nat, heardByPeer: set<u32>)
    requires Sound(s, log, heardByPeer) && GoodLog(log) && Bounded(log)
    requires Emitted(d, log, heardByPeer)
    requires Bounded(ReceiveStep(s, d, now).0.tx.log)
    ensures var after := ReceiveStep(s, d, now).0;
            Sound(after, log, heardByPeer) && Later(s, after)
  {
    HeardLastKeeps(s, log, s.lastHeard, heardByPeer);
    HeardLastKeeps(s, log, now, heardByPeer);
    assert s.(lastHeard := s.lastHeard) == s;
    var heard := s.(lastHeard := now);
    hide Sound, Later, GoodLog, IsBatch, IsAck, ReceiveFrameSet, Retransmit.AckStep, DecodeDatagram;
    if q: nat :| IsBatch(d, log, q) {
      BatchDecodes(d, log, q);
      if !IsClosed(s) && DecodeDatagram(d).Success? {
        BatchInRange(d, log, q);
        FrameSetKeeps(heard, log, q, now, heardByPeer);
      }
    } else {
      var ranges :| IsAck(d, ranges, heardByPeer);
      AckDecodes(d, ranges, heardByPeer);
      AckKeeps(heard, log, DecodeDatagram(d).value.ranges, now, heardByPeer);
    }
    LaterOverall(s, heard, ReceiveStep(s, d, now).0);
  }

  lemma BatchInRange(d: bytes, log: SendLog, q: nat)
    requires IsBatch(d, log, q) && Bounded(log)
    ensures q < |log.batches| && q < TWO_24 && q % TWO_32 == q
  {
  }

  lemma LaterOverall(s: State, mid: State, after: State)
    ensures Later(s, mid) && Later(mid, after) ==> Later(s, after)
  {
    if Later(s, mid) && Later(mid, after) {
      ExtendsTransitively(s.tx.log, mid.tx.log, after.tx.log);
    }
  }
}
