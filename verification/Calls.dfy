/** The calls that need nothing from the network: `send`, `tick`, `close` and `poll_transmit`. */
module Calls {
  import opened Integers
  import opened KeyOrder
  import opened Datagrams
  import opened SessionSpec
  import opened SendHistory
  import opened Sender
  import opened Receiver
  import opened Delivery
  import opened Endpoint
  import Acks
  import Order
  import Splits
  import Reassembly
  import Retransmit

  ghost predicate Kept(s: State, after: State, log: SendLog, heardByPeer: set<u32>) {
    Sound(after, log, heardByPeer) && Later(s, after)
  }

  lemma KeptItself(s: State, log: SendLog, heardByPeer: set<u32>)
    requires Sound(s, log, heardByPeer)
    ensures Kept(s, s, log, heardByPeer)
  {
    HeardLastKeeps(s, log, s.lastHeard, heardByPeer);
    assert s.(lastHeard := s.lastHeard) == s;
  }

  lemma SendingKeeps(s: State, log: SendLog, payload: bytes, now: nat, heardByPeer: set<u32>)
    requires Sound(s, log, heardByPeer)
    requires Bounded(SendStep(s.config, s.phase, s.tx, payload, now).0.log)
    ensures Kept(s, s.(tx := SendStep(s.config, s.phase, s.tx, payload, now).0), log, heardByPeer)
  {
    SendKeeps(s.config, s.phase, s.tx, payload, now, s.rx.log.received);
    var tx := SendStep(s.config, s.phase, s.tx, payload, now).0;
    hide SendStep, TxInv, RxInv, Extends;
    AnsweredStays(s.config, s.tx, tx, s.rx.log.received, heardByPeer);
    hide Answered;
  }

  lemma TimesDoNotMatter(s: State, after: State, log: SendLog, heardByPeer: set<u32>)
    requires Sound(s, log, heardByPeer) && after.tx == s.tx && after.rx == s.rx && after.config == s.config
    ensures Kept(s, after, log, heardByPeer)
  {
    KeptItself(s, log, heardByPeer);
    hide TxInv, RxInv, Answered, Extends;
  }

  lemma KeptOverall(s: State, mid: State, after: State, log: SendLog, heardByPeer: set<u32>)
    requires Kept(s, mid, log, heardByPeer) && Kept(mid, after, log, heardByPeer)
    ensures Kept(s, after, log, heardByPeer)
  {
    LaterOverall(s, mid, after);
  }

  lemma QueueEmitted(outbox: seq<bytes>, datagrams: seq<bytes>, max: nat, log: SendLog, heard: set<u32>)
    requires AllEmitted(outbox, log, heard) && AllEmitted(datagrams, log, heard)
    ensures AllEmitted(Queue(outbox, datagrams, max), log, heard)
  {
    hide Emitted;
  }

  // Acknowledging.

  lemma AckIsEmitted(acks: seq<u32>, log: SendLog, heard: set<u32>)
    requires forall i :: 0 <= i < |acks| ==> acks[i] in heard && acks[i] < TWO_24
    ensures AllEmitted([DatagramBytes(Ack(AckRanges(acks)))], log, heard)
  {
    Acks.AcknowledgementIsExact(acks);
    hide Contains, AckRanges, DatagramBytes, DecodeDatagram;
    RangesAreSent(acks, AckRanges(acks), log, heard);
  }

  lemma RangesAreSent(acks: seq<u32>, ranges: seq<Range>, log: SendLog, heard: set<u32>)
    requires forall i :: 0 <= i < |acks| ==> acks[i] in heard && acks[i] < TWO_24
    requires Acks.Separated(ranges) && forall s: nat :: Contains(ranges, s) <==> s in acks
    ensures Emitted(DatagramBytes(Ack(ranges)), log, heard)
  {
    Acks.InsideBounds(acks, ranges);
    hide Contains, DatagramBytes, IsBatch;
    assert forall i :: 0 <= i < |ranges| ==> ranges[i] in ranges;
    assert IsAck(DatagramBytes(Ack(ranges)), ranges, heard);
  }

  lemma NewOutboxKeeps(s: State, outbox: seq<bytes>, log: SendLog, heardByPeer: set<u32>)
    requires Sound(s, log, heardByPeer) && AllEmitted(outbox, s.tx.log, s.rx.log.received)
    ensures Kept(s, s.(tx := s.tx.(outbox := outbox)), log, heardByPeer)
  {
    KeptItself(s, log, heardByPeer);
    hide RxInv, GoodLog, Carried, Cut, AllEmitted, TracksBatches, Extends;
  }

  lemma NothingPendingKeeps(s: State, log: SendLog, heardByPeer: set<u32>)
    requires Sound(s, log, heardByPeer)
    ensures Kept(s, s.(rx := s.rx.(pendingAcks := [])), log, heardByPeer)
  {
    KeptItself(s, log, heardByPeer);
    hide TxInv, Answered, Extends, Handed, Quiet;
  }

  lemma FlushAcksKeeps(s: State, log: SendLog, heardByPeer: set<u32>)
    requires Sound(s, log, heardByPeer) && Bounded(log)
    ensures Kept(s, FlushAcks(s), log, heardByPeer) && FlushAcks(s).tx.log == s.tx.log
  {
    KeptItself(s, log, heardByPeer);
    if s.rx.pendingAcks != [] {
      var ack := DatagramBytes(Ack(AckRanges(s.rx.pendingAcks)));
      var outbox := Queue(s.tx.outbox, [ack], s.config.maxOutbox);
      PendingIsHeard(s, log, heardByPeer);
      AckIsEmitted(s.rx.pendingAcks, s.tx.log, s.rx.log.received);
      assert AllEmitted(s.tx.outbox, s.tx.log, s.rx.log.received);
      hide Sound, AckRanges, DatagramBytes, Queue, AllEmitted, Later;
      QueueEmitted(s.tx.outbox, [ack], s.config.maxOutbox, s.tx.log, s.rx.log.received);
      NewOutboxKeeps(s, outbox, log, heardByPeer);
      var queued := s.(tx := s.tx.(outbox := outbox));
      NothingPendingKeeps(queued, log, heardByPeer);
      KeptOverall(s, queued, queued.(rx := queued.rx.(pendingAcks := [])), log, heardByPeer);
    }
  }

  lemma PendingIsHeard(s: State, log: SendLog, heardByPeer: set<u32>)
    requires Sound(s, log, heardByPeer) && Bounded(log)
    ensures forall i :: 0 <= i < |s.rx.pendingAcks| ==> s.rx.pendingAcks[i] in s.rx.log.received && s.rx.pendingAcks[i] < TWO_24
  {
    hide TxInv, Answered;
  }

  // Sending again.

  lemma {:induction false} TrackedIsEmitted(m: Retransmit.Table, keys: set<nat>, log: SendLog, heard: set<u32>)
    requires TracksBatches(m, log) && forall k :: k in keys ==> k in m
    ensures AllEmitted(Retransmit.DatagramsFrom(m, keys), log, heard)
    decreases |keys|
  {
    if keys != {} {
      var k := Least(keys);
      var rest := Retransmit.DatagramsFrom(m, keys - {k});
      assert Retransmit.DatagramsFrom(m, keys) == [m[k].datagram] + rest;
      hide Emitted, IsBatch, TracksBatches, AllEmitted, Retransmit.DatagramsFrom;
      OneTrackedIsEmitted(m, k, log, heard);
      TrackedIsEmitted(m, keys - {k}, log, heard);
      OneMoreIsEmitted(m[k].datagram, rest, log, heard);
    }
  }

  lemma OneMoreIsEmitted(d: bytes, rest: seq<bytes>, log: SendLog, heard: set<u32>)
    requires Emitted(d, log, heard) && AllEmitted(rest, log, heard)
    ensures AllEmitted([d] + rest, log, heard)
  {
    hide Emitted;
  }

  lemma OneTrackedIsEmitted(m: Retransmit.Table, k: nat, log: SendLog, heard: set<u32>)
    requires TracksBatches(m, log) && k in m
    ensures Emitted(m[k].datagram, log, heard)
  {
    assert IsBatch(m[k].datagram, log, k);
    hide IsBatch, IsAck;
  }

  lemma ResendKeeps(s: State, log: SendLog, now: nat, heardByPeer: set<u32>)
    requires Sound(s, log, heardByPeer)
    ensures Kept(s, Resend(s, now), log, heardByPeer) && Resend(s, now).tx.log == s.tx.log
  {
    var (retrans, out) := Retransmit.DueStep(s.tx.retrans, now);
    var keys := Retransmit.DueKeys(s.tx.retrans, now);
    assert TracksBatches(s.tx.retrans.inFlight, s.tx.log) && AllEmitted(s.tx.outbox, s.tx.log, s.rx.log.received);
    TrackedIsEmitted(s.tx.retrans.inFlight, keys, s.tx.log, s.rx.log.received);
    QueueEmitted(s.tx.outbox, out, s.config.maxOutbox, s.tx.log, s.rx.log.received);
    var outbox := Queue(s.tx.outbox, out, s.config.maxOutbox);
    hide Queue, AllEmitted, TracksBatches, Sound, Kept;
    NewOutboxKeeps(s, outbox, log, heardByPeer);
    var queued := s.(tx := s.tx.(outbox := outbox));
    ResentKeeps(queued, log, now, heardByPeer);
    hide Retransmit.DueStep;
    KeptOverall(s, queued, Resend(s, now), log, heardByPeer);
  }

  lemma ResentKeepsTx(config: Config, tx: Tx, now: nat, heard: set<u32>, heardByPeer: set<u32>)
    requires TxInv(config, tx, heard) && Answered(tx, heardByPeer)
    ensures var after := tx.(retrans := Retransmit.DueStep(tx.retrans, now).0);
            TxInv(config, after, heard) && Answered(after, heardByPeer)
  {
    DueOnlyCounts(tx.retrans, now);
    hide GoodLog, Carried, Cut, AllEmitted, IsBatch, Retransmit.DueStep;
  }

  lemma ResentKeeps(s: State, log: SendLog, now: nat, heardByPeer: set<u32>)
    requires Sound(s, log, heardByPeer)
    ensures Kept(s, s.(tx := s.tx.(retrans := Retransmit.DueStep(s.tx.retrans, now).0)), log, heardByPeer)
  {
    ResentKeepsTx(s.config, s.tx, now, s.rx.log.received, heardByPeer);
    GoodLogLengths(s.tx.log);
    ExtendsItself(s.tx.log);
    hide RxInv, TxInv, Answered, Extends, Retransmit.DueStep;
  }

  lemma DueOnlyCounts(r: Retransmit.RetransState, now: nat)
    ensures var after := Retransmit.DueStep(r, now).0;
            && after.limits == r.limits && after.inFlight.Keys == r.inFlight.Keys
            && forall k :: k in r.inFlight ==> after.inFlight[k].datagram == r.inFlight[k].datagram
  {
    hide Retransmit.DueKeys;
  }

  // Expiry, the keepalive and the whole tick.

  lemma ExpireKeepsRx(rx: Rx, log: SendLog, now: nat, after: Rx)
    requires RxInv(rx, log)
    requires var reasm := Splits.ExpireStep(rx.reasm, now);
             after == rx.(reasm := reasm, log := rx.log.(expired := rx.log.expired || reasm.pending != rx.reasm.pending))
    ensures RxInv(after, log)
  {
    hide Quiet, AllTaken, Subsequence, AppOnly, Reassembly.Genuine, Reassembly.Exact, Order.Remembers, Order.InOrder, AllLocated, Splits.ExpireStep;
    ExpireIsGenuine(rx, log, now);
  }

  lemma ExpireKeeps(s: State, log: SendLog, now: nat, heardByPeer: set<u32>)
    requires Sound(s, log, heardByPeer)
    ensures Kept(s, Expire(s, now), log, heardByPeer) && Expire(s, now).tx.log == s.tx.log
  {
    KeptItself(s, log, heardByPeer);
    ExpireKeepsRx(s.rx, log, now, Expire(s, now).rx);
    hide TxInv, RxInv, Answered, Extends, Splits.ExpireStep;
  }

  lemma ExpireIsGenuine(rx: Rx, log: SendLog, now: nat)
    requires Reassembly.Genuine(rx.reasm, log.catalog, rx.log.fragments)
    ensures var after := Splits.ExpireStep(rx.reasm, now);
            && Reassembly.Genuine(after, log.catalog, rx.log.fragments)
            && (after.pending == rx.reasm.pending && Reassembly.Exact(rx.reasm, log.catalog, rx.log.fragments) ==>
                  Reassembly.Exact(after, log.catalog, rx.log.fragments))
  {
    hide Splits.Held, Reassembly.EntryFrom, Reassembly.HasAll;
  }

  lemma KeepAliveKeeps(s: State, log: SendLog, now: nat, heardByPeer: set<u32>)
    requires Sound(s, log, heardByPeer) && Bounded(KeepAlive(s, now).tx.log)
    ensures Kept(s, KeepAlive(s, now), log, heardByPeer)
  {
    KeptItself(s, log, heardByPeer);
    var pinged := s.(lastPing := now);
    TimesDoNotMatter(s, pinged, log, heardByPeer);
    hide Sound, Later, SendStep, Ping;
    if Monus(now, s.lastPing) >= s.config.keepalive {
      SendingKeeps(pinged, log, Ping(pinged, now), now, heardByPeer);
      KeptOverall(s, pinged, KeepAlive(s, now), log, heardByPeer);
    }
  }

  lemma TickKeeps(s: State, log: SendLog, now: nat, heardByPeer: set<u32>)
    requires Sound(s, log, heardByPeer) && Bounded(log) && Bounded(TickStep(s, now).tx.log)
    ensures Kept(s, TickStep(s, now), log, heardByPeer)
  {
    hide Sound, Later, FlushAcks, Resend, Expire, KeepAlive, Bounded;
    var acked := FlushAcks(s);
    var resent := Resend(acked, now);
    var expired := Expire(resent, now);
    FlushAcksKeeps(s, log, heardByPeer);
    TimesDoNotMatter(s, s.(phase := Finished(Timeout)), log, heardByPeer);
    TimesDoNotMatter(s, s.(phase := Finished(Unreachable)), log, heardByPeer);
    KeptItself(s, log, heardByPeer);
    ResendKeeps(acked, log, now, heardByPeer);
    ExpireKeeps(resent, log, now, heardByPeer);
    KeptOverall(s, acked, resent, log, heardByPeer);
    KeptOverall(s, resent, expired, log, heardByPeer);
    if Bounded(KeepAlive(expired, now).tx.log) {
      KeepAliveKeeps(expired, log, now, heardByPeer);
      KeptOverall(s, expired, KeepAlive(expired, now), log, heardByPeer);
    }
  }

  lemma CloseKeeps(s: State, log: SendLog, now: nat, heardByPeer: set<u32>)
    requires Sound(s, log, heardByPeer) && Bounded(CloseStep(s, now).tx.log)
    ensures Kept(s, CloseStep(s, now), log, heardByPeer)
  {
    KeptItself(s, log, heardByPeer);
    if !IsClosed(s) {
      hide Sound, Later, SendStep;
      SendingKeeps(s, log, [ID_DISCONNECT], now, heardByPeer);
      var sent := s.(tx := SendStep(s.config, s.phase, s.tx, [ID_DISCONNECT], now).0);
      TimesDoNotMatter(sent, CloseStep(s, now), log, heardByPeer);
      KeptOverall(s, sent, CloseStep(s, now), log, heardByPeer);
    }
  }

  lemma PollKeeps(s: State, log: SendLog, heardByPeer: set<u32>)
    requires Sound(s, log, heardByPeer)
    ensures var (after, out) := PollStep(s);
            Kept(s, after, log, heardByPeer) && (out.Some? ==> Emitted(out.value, s.tx.log, s.rx.log.received))
  {
    KeptItself(s, log, heardByPeer);
    if s.tx.outbox != [] {
      assert AllEmitted(s.tx.outbox[1..], s.tx.log, s.rx.log.received) && Emitted(s.tx.outbox[0], s.tx.log, s.rx.log.received);
      hide Sound, Later, Emitted;
      NewOutboxKeeps(s, s.tx.outbox[1..], log, heardByPeer);
    }
  }
}
