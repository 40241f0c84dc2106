/** What each call of a session does for the connection itself: acknowledgements are heeded, overdue
    datagrams go out again, what has been received is acknowledged, silence is noticed, and datagrams
    leave in the order they were queued. */
module Upkeep {
  import opened Integers
  import opened Wrappers
  import opened KeyOrder
  import opened Wire
  import opened Datagrams
  import opened SessionSpec
  import opened Timeouts
  import Acks
  import Endpoint
  import Retransmit
  import RetransmitRuns
  import Splits
  import Order

  /** `wanted` has joined the outbox in order, as much of it as there was room for. */
  ghost predicate Queued(before: seq<bytes>, wanted: seq<bytes>, max: nat, after: seq<bytes>) {
    && before <= after <= before + wanted
    && (|after| < |before| + |wanted| ==> |after| >= max)
    && (|after| > |before| ==> |after| <= max)
  }

  lemma QueueIsExact(before: seq<bytes>, wanted: seq<bytes>, max: nat)
    ensures Queued(before, wanted, max, Queue(before, wanted, max))
  {
  }

  lemma QueuedTwice(before: seq<bytes>, a: seq<bytes>, mid: seq<bytes>, b: seq<bytes>, max: nat, after: seq<bytes>)
    requires Queued(before, a, max, mid) && Queued(mid, b, max, after)
    ensures Queued(before, a + b, max, after)
  {
    Assoc(before, a, b);
    if mid == before + a {
    } else {
      assert |mid| >= max && after == mid;
      assert mid == (before + a)[..|mid|];
      assert before + (a + b) == (before + a) + b;
    }
  }

  // Acknowledgements.

  /** An acknowledgement takes out of flight exactly the sequences it names, leaves every other entry and
      the outbox as they were, measures exactly the entries sent once among them, and counts as hearing
      from the peer. Nothing else of the session changes. */
  lemma AckIsHeeded(s: State, b: bytes, ranges: seq<Range>, now: nat, sent: map<u32, RetransmitRuns.Sent>)
    requires !IsClosed(s) && DecodeDatagram(b) == Success(Ack(ranges))
    requires RetransmitRuns.Agrees(s.tx.retrans.inFlight, sent)
    ensures var (after, result) := ReceiveStep(s, b, now);
            var before, left := s.tx.retrans, after.tx.retrans;
            && result == Success([])
            && (forall k :: k in left.inFlight <==> k in before.inFlight && !Contains(ranges, k))
            && (forall k :: k in left.inFlight ==> left.inFlight[k] == before.inFlight[k])
            && left.rtt == Retransmit.SampleAll(before.rtt, RetransmitRuns.TripsOf(before.inFlight.Keys, sent, ranges, now))
            && left == before.(rtt := left.rtt, inFlight := left.inFlight)
            && after == s.(tx := s.tx.(retrans := left), lastHeard := now)
  {
    hide DecodeDatagram, Retransmit.AckStep, RetransmitRuns.TripsOf, Retransmit.SampleAll, Contains;
    Endpoint.AckTakesOut(s.tx.retrans, ranges, now);
    RetransmitRuns.AckMeasures(s.tx.retrans, sent, ranges, now);
    AckKeepsTheRest(s.tx.retrans, ranges, now);
  }

  /** A negative acknowledgement sends again, at once and in order, the bytes first tracked of whatever
      its ranges name, as much as there is room for; each entry named is counted once for each range
      that names it, and no other changes. */
  lemma NackIsHeeded(s: State, b: bytes, ranges: seq<Range>, now: nat, sent: map<u32, RetransmitRuns.Sent>)
    requires !IsClosed(s) && DecodeDatagram(b) == Success(Nack(ranges))
    requires RetransmitRuns.Agrees(s.tx.retrans.inFlight, sent)
    ensures var (after, result) := ReceiveStep(s, b, now);
            var before, left := s.tx.retrans, after.tx.retrans;
            && result == Success([])
            && left.inFlight.Keys == before.inFlight.Keys
            && (forall k :: k in before.inFlight ==>
                              var n, e := Times(ranges, k), before.inFlight[k];
                              left.inFlight[k] == if n == 0 then e else Retransmit.InFlight(e.datagram, now, e.retries + n))
            && (left.dead <==> before.dead || TriedTooOften(left.inFlight, before.limits))
            && left == before.(inFlight := left.inFlight, dead := left.dead)
            && Queued(s.tx.outbox, RetransmitRuns.OriginalsOf(before.inFlight, sent, ranges), s.config.maxOutbox, after.tx.outbox)
            && after == s.(tx := s.tx.(retrans := left, outbox := after.tx.outbox), lastHeard := now)
  {
    hide DecodeDatagram, RetransmitRuns.OriginalsOf, Retransmit.NackRanges, Queue, Queued, Times;
    NackIsExact(s.tx.retrans, ranges, now);
    NackKeepsTheRest(s.tx.retrans, ranges, now);
    RetransmitRuns.NackSendsOriginals(s.tx.retrans, sent, ranges, now);
    QueueIsExact(s.tx.outbox, RetransmitRuns.OriginalsOf(s.tx.retrans.inFlight, sent, ranges), s.config.maxOutbox);
  }

  /** Every frame set is noted to be acknowledged, whether or not it has come before, and nothing is
      forgotten; whatever comes, even what does not decode, the peer has been heard from. */
  lemma EverythingHeardIsNoted(s: State, b: bytes, now: nat)
    requires !IsClosed(s)
    ensures var after := ReceiveStep(s, b, now).0;
            && after.lastHeard == now
            && after.rx.pendingAcks == s.rx.pendingAcks
                                       + (if DecodeDatagram(b).Success? && DecodeDatagram(b).value.FrameSet?
                                          then [DecodeDatagram(b).value.sequence] else [])
  {
    hide DecodeDatagram, TakeFrames, Retransmit.AckStep, Retransmit.NackStep, Queue;
    var decoded := DecodeDatagram(b);
    if decoded.Success? && decoded.value.FrameSet? {
      TakingLeavesAcks(Noted(s.(lastHeard := now), decoded.value.sequence), decoded.value.frames, [], now);
    }
  }

  /** What does not decode is refused, and so is everything once the session is closed. */
  lemma RefusedOnArrival(s: State, b: bytes, now: nat)
    ensures IsClosed(s) ==> ReceiveStep(s, b, now) == (s, Failure(SessionClosed))
    ensures !IsClosed(s) && DecodeDatagram(b).Failure? ==>
              ReceiveStep(s, b, now) == (s.(lastHeard := now), Failure(BadDatagram(DecodeDatagram(b).error)))
  {
    hide DecodeDatagram, ReceiveFrameSet, Retransmit.AckStep, Retransmit.NackStep;
  }

  lemma {:induction false} HandlingLeavesAcks(s: State, payloads: seq<bytes>, inHand: seq<bytes>, now: nat)
    ensures HandleAll(s, payloads, inHand, now).0.rx == s.rx && HandleAll(s, payloads, inHand, now).0.lastHeard == s.lastHeard
    decreases |payloads|
  {
    hide SendStep, ReplyTo, IsApp, PhaseAfter;
    if payloads != [] {
      var (next, handled) := Handle(s, payloads[0], now);
      if handled.Success? {
        HandlingLeavesAcks(next, payloads[1..], if handled.value.Some? then inHand + [handled.value.value] else inHand, now);
      }
    }
  }

  lemma TakeLeavesAcks(rx: Rx, f: Frames.Frame, now: nat)
    ensures TakeFrame(rx, f, now).0.pendingAcks == rx.pendingAcks
  {
    hide Order.AcceptStep, Order.PushStep, Splits.PushStep;
  }

  lemma {:induction false} TakingLeavesAcks(s: State, frames: seq<Frames.Frame>, inHand: seq<bytes>, now: nat)
    ensures var after := TakeFrames(s, frames, inHand, now).0;
            after.rx.pendingAcks == s.rx.pendingAcks && after.lastHeard == s.lastHeard
    decreases |frames|
  {
    hide TakeFrame, HandleAll, AppOnly;
    if frames != [] {
      var (rx, outcome) := TakeFrame(s.rx, frames[0], now);
      TakeLeavesAcks(s.rx, frames[0], now);
      if outcome.Released? {
        var (after, result) := HandleAll(s.(rx := rx), outcome.payloads, inHand, now);
        HandlingLeavesAcks(s.(rx := rx), outcome.payloads, inHand, now);
        if result.Success? {
          TakingLeavesAcks(after, frames[1..], result.value, now);
        }
      }
    }
  }

  // Time.

  /** One datagram that acknowledges exactly what is pending, or, past 65535 ranges, nothing else. */
  ghost predicate Acknowledges(acks: seq<bytes>, pending: seq<u32>) {
    if pending == [] then acks == [] else
    && |acks| == 1
    && var decoded := DecodeDatagram(acks[0]);
    && decoded.Success? && decoded.value.Ack?
    && (forall q: nat :: Contains(decoded.value.ranges, q) ==> q in pending)
    && (|pending| <= MAX_RECORDS ==> forall q: nat :: Contains(decoded.value.ranges, q) <==> q in pending)
  }

  /** A session after its upkeep: everything received is acknowledged and everything overdue sent again,
      in that order and as far as there is room, and what is too old to complete is dropped. */
  ghost predicate KeptUp(s: State, now: nat, after: State) {
    var before, left := s.tx.retrans, after.tx.retrans;
    && left.limits == before.limits && left.rtt == before.rtt && left.inFlight.Keys == before.inFlight.Keys
    && (forall k :: k in before.inFlight ==>
                      var e := before.inFlight[k];
                      left.inFlight[k] == if Overdue(before, k, now) then Retransmit.InFlight(e.datagram, now, e.retries + 1) else e)
    && (left.dead <==> before.dead || TriedTooOften(left.inFlight, before.limits))
    && (exists acks, again ::
          && Acknowledges(acks, s.rx.pendingAcks)
          && BytesOf(before.inFlight, Sorted(OverdueKeys(before, now)), again)
          && Queued(s.tx.outbox, acks + again, s.config.maxOutbox, after.tx.outbox))
    && (forall id :: id in after.rx.reasm.pending <==>
                     && id in s.rx.reasm.pending && 0 < s.rx.reasm.limits.timeout
                     && now < s.rx.reasm.pending[id].firstSeen + s.rx.reasm.limits.timeout)
    && (forall id :: id in after.rx.reasm.pending ==> after.rx.reasm.pending[id] == s.rx.reasm.pending[id])
    && after == s.(tx := s.tx.(retrans := left, outbox := after.tx.outbox),
                rx := s.rx.(pendingAcks := [], reasm := after.rx.reasm, log := s.rx.log.(expired := after.rx.log.expired)))
  }

  lemma {:induction false} NoMoreRanges(keys: seq<nat>)
    requires forall i :: 0 <= i < |keys| ==> keys[i] < TWO_32
    ensures |Coalesce(keys)| <= |keys|
    decreases |keys|
  {
    if keys != [] {
      NoMoreRanges(keys[..|keys| - 1]);
    }
  }

  lemma {:induction false} SortedLength(s: set<nat>)
    ensures |Sorted(s)| == |s|
    decreases |s|
  {
    if s != {} {
      SortedLength(s - {Least(s)});
    }
  }

  lemma {:induction false} NoMoreThanListed(pending: seq<u32>)
    ensures |Pending(pending)| <= |pending|
    decreases |pending|
  {
    if pending != [] {
      var last := |pending| - 1;
      NoMoreThanListed(pending[..last]);
      assert Pending(pending) == Pending(pending[..last]) + {pending[last]} by {
        assert pending == pending[..last] + [pending[last]];
      }
    }
  }

  lemma FewRanges(pending: seq<u32>)
    ensures |AckRanges(pending)| <= |pending|
  {
    var keys := Sorted(Pending(pending));
    assert forall i :: 0 <= i < |keys| ==> keys[i] in Pending(pending);
    NoMoreRanges(keys);
    SortedLength(Pending(pending));
    NoMoreThanListed(pending);
    hide Coalesce;
  }

  lemma AcknowledgingIsExact(pending: seq<u32>)
    requires pending != [] && forall i :: 0 <= i < |pending| ==> pending[i] < TWO_24
    ensures Acknowledges([DatagramBytes(Ack(AckRanges(pending)))], pending)
  {
    hide AckRanges, DecodeDatagram, DatagramBytes, Contains, Acks.Separated;
    Acks.AcknowledgementIsExact(pending);
    FewRanges(pending);
  }

  /** What flushing queues. */
  lemma FlushIsExact(s: State) returns (acks: seq<bytes>)
    requires forall i :: 0 <= i < |s.rx.pendingAcks| ==> s.rx.pendingAcks[i] < TWO_24
    ensures Acknowledges(acks, s.rx.pendingAcks)
    ensures var after := FlushAcks(s);
            && Queued(s.tx.outbox, acks, s.config.maxOutbox, after.tx.outbox)
            && after == s.(tx := s.tx.(outbox := after.tx.outbox), rx := s.rx.(pendingAcks := []))
  {
    hide AckRanges, DatagramBytes, Acknowledges, Queue, Queued;
    if s.rx.pendingAcks == [] {
      acks := [];
      NothingToSay(s.tx.outbox, s.config.maxOutbox);
    } else {
      acks := [DatagramBytes(Ack(AckRanges(s.rx.pendingAcks)))];
      AcknowledgingIsExact(s.rx.pendingAcks);
      QueueIsExact(s.tx.outbox, acks, s.config.maxOutbox);
    }
  }

  lemma NothingToSay(outbox: seq<bytes>, max: nat)
    ensures Acknowledges([], []) && Queued(outbox, [], max, outbox)
  {
  }

  /** Acknowledging, sending again and expiring, one after another. */
  lemma UpkeepIsExact(s: State, now: nat)
    requires forall i :: 0 <= i < |s.rx.pendingAcks| ==> s.rx.pendingAcks[i] < TWO_24
    ensures KeptUp(s, now, Expire(Resend(FlushAcks(s), now), now))
  {
    hide Acknowledges, Queue, Queued, BytesOf, OverdueKeys, Overdue, Retransmit.DueStep, Splits.ExpireStep, FlushAcks, TriedTooOften;
    var acks := FlushIsExact(s);
    var flushed := FlushAcks(s);
    var resent := Resend(flushed, now);
    var after := Expire(resent, now);
    var again := Retransmit.DueStep(s.tx.retrans, now).1;
    DueIsExact(s.tx.retrans, now);
    QueueIsExact(flushed.tx.outbox, again, s.config.maxOutbox);
    QueuedTwice(s.tx.outbox, acks, flushed.tx.outbox, again, s.config.maxOutbox, resent.tx.outbox);
    Splits.ExpireIsExact(resent.rx.reasm, now);
    assert after.tx.outbox == resent.tx.outbox;
    assert Queued(s.tx.outbox, acks + again, s.config.maxOutbox, after.tx.outbox);
  }

  /** A tick of a session that is open, has heard from its peer within the timeout and has not given it
      up: the upkeep, and then, when the last ping is old enough, one that says how long the session has
      run, if there is room for it. */
  lemma TickKeepsUp(s: State, now: nat)
    requires !IsClosed(s) && Monus(now, s.lastHeard) < s.config.timeout && !s.tx.retrans.dead
    requires forall i :: 0 <= i < |s.rx.pendingAcks| ==> s.rx.pendingAcks[i] < TWO_24
    ensures exists kept ::
              && KeptUp(s, now, kept)
              && TickStep(s, now) == if Monus(now, s.lastPing) < s.config.keepalive then kept else
                                     kept.(lastPing := now,
                                     tx := SendStep(s.config, s.phase, kept.tx, [0x00] + U64Bytes(NowMillis(s, now)), now).0)
  {
    UpkeepIsExact(s, now);
    var kept := Expire(Resend(FlushAcks(s), now), now);
    hide KeptUp, Resend, Expire, FlushAcks, SendStep, U64Bytes, NowMillis;
    UpkeepLeaves(s, now);
  }

  lemma UpkeepLeaves(s: State, now: nat)
    ensures var kept := Expire(Resend(FlushAcks(s), now), now);
            && kept.config == s.config && kept.phase == s.phase && kept.lastPing == s.lastPing && kept.started == s.started
  {
    hide Queue, Retransmit.DueStep, Splits.ExpireStep, AckRanges, DatagramBytes;
  }

  /** A tick closes a session exactly when it is open and has been silent for the timeout, or its peer
      has been given up on; then, and when it was closed, it does nothing else. */
  lemma TickCloses(s: State, now: nat)
    ensures var after := TickStep(s, now);
            var silent := s.config.timeout == 0 || now >= s.lastHeard + s.config.timeout;
            && (IsClosed(s) ==> after == s)
            && (!IsClosed(s) && silent ==> after == s.(phase := Finished(Timeout)))
            && (!IsClosed(s) && !silent && s.tx.retrans.dead ==> after == s.(phase := Finished(Unreachable)))
            && (!IsClosed(s) && !silent && !s.tx.retrans.dead ==> after.phase == s.phase)
  {
    UpkeepLeaves(s, now);
    hide Resend, Expire, FlushAcks, SendStep;
  }

  /** The milliseconds a session has run, rounded down, while they fit. */
  lemma MillisAreExact(s: State, now: nat)
    requires now >= s.started && now - s.started < MAX_I64 * 1_000_000
    ensures NowMillis(s, now) * 1_000_000 <= now - s.started < NowMillis(s, now) * 1_000_000 + 1_000_000
  {
  }

  /** A poll takes the datagram queued longest ago, if there is one, and nothing else. */
  lemma PollTakesTheOldest(s: State)
    ensures var (after, out) := PollStep(s);
            && (out.None? <==> s.tx.outbox == [])
            && (out.None? ==> after == s)
            && (out.Some? ==> s.tx.outbox == [out.value] + after.tx.outbox && after == s.(tx := s.tx.(outbox := after.tx.outbox)))
  {
  }
}
