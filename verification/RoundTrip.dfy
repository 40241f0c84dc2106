/** Datagrams leave in the order they are queued, and one round trip settles what has been received. */
module RoundTrip {
  import opened Integers
  import opened Wrappers
  import opened Wire
  import opened Datagrams
  import opened SessionSpec
  import opened Network
  import opened Upkeep
  import Endpoint
  import KeyOrder
  import Frames
  import Retransmit
  import Sender
  import Sending
  import Splits
  import Timeouts
  import Transport

  // Nothing overtakes in the outbox.

  lemma SendAppends(config: Config, phase: Phase, tx: Tx, payload: bytes, now: nat)
    ensures tx.outbox <= SendStep(config, phase, tx, payload, now).0.outbox
  {
    hide Refused, SpendSplitId, Splits.SplitStep, SendStep, SendFrames, Capacity;
    var frames := Splits.SplitStep(tx.nextSplitId, payload, Capacity(config)).0;
    var splitId := if IsSplit(payload, Capacity(config)) then Some(tx.nextSplitId) else None;
    Sender.SendStepIs(config, phase, tx, payload, now);
    Sender.SpentIs(config, tx, payload);
    var spent := SpendSplitId(config, tx, payload);
    if !phase.Finished? && !Refused(config, spent, frames) {
      SendFramesAppend(config, spent, payload, frames, splitId, now);
    }
  }

  lemma SendFramesAppend(config: Config, tx: Tx, payload: bytes, frames: seq<Frames.Frame>, splitId: Option<u16>, now: nat)
    requires !Refused(config, tx, frames) && (splitId.Some? ==> Capacity(config) > 0)
    ensures tx.outbox <= SendFrames(config, tx, payload, frames, splitId, now).0.outbox
  {
    Sending.FlushingQueues(tx, Batches(config, tx, frames), now);
    hide FlushAll, Batches, Sending.DatagramsOf, DatagramsNeeded, Capacity, Logged;
  }

  lemma {:induction false} HandlingAppends(s: State, payloads: seq<bytes>, inHand: seq<bytes>, now: nat)
    ensures s.tx.outbox <= HandleAll(s, payloads, inHand, now).0.tx.outbox
    decreases |payloads|
  {
    hide SendStep, ReplyTo, IsApp, PhaseAfter;
    if payloads != [] {
      var (next, handled) := Handle(s, payloads[0], now);
      if ReplyTo(s, payloads[0], now).Some? {
        SendAppends(s.config, s.phase, s.tx, ReplyTo(s, payloads[0], now).value, now);
      }
      if handled.Success? {
        HandlingAppends(next, payloads[1..], if handled.value.Some? then inHand + [handled.value.value] else inHand, now);
      }
    }
  }

  lemma {:induction false} TakingAppends(s: State, frames: seq<Frames.Frame>, inHand: seq<bytes>, now: nat)
    ensures s.tx.outbox <= TakeFrames(s, frames, inHand, now).0.tx.outbox
    decreases |frames|
  {
    hide TakeFrame, HandleAll, AppOnly;
    if frames != [] {
      var (rx, outcome) := TakeFrame(s.rx, frames[0], now);
      if outcome.Released? {
        var (after, result) := HandleAll(s.(rx := rx), outcome.payloads, inHand, now);
        HandlingAppends(s.(rx := rx), outcome.payloads, inHand, now);
        if result.Success? {
          TakingAppends(after, frames[1..], result.value, now);
        }
      }
    }
  }

  lemma ReceiveAppends(s: State, d: bytes, now: nat)
    ensures s.tx.outbox <= ReceiveStep(s, d, now).0.tx.outbox
  {
    hide DecodeDatagram, TakeFrames, Retransmit.AckStep, Retransmit.NackStep;
    var decoded := DecodeDatagram(d);
    if decoded.Success? && decoded.value.FrameSet? {
      TakingAppends(Noted(s.(lastHeard := now), decoded.value.sequence), decoded.value.frames, [], now);
    }
  }

  lemma TickAppends(s: State, now: nat)
    ensures s.tx.outbox <= TickStep(s, now).tx.outbox
  {
    hide SendStep, Retransmit.DueStep, Splits.ExpireStep, AckRanges, DatagramBytes, Ping;
    var kept := Expire(Resend(FlushAcks(s), now), now);
    var pinging := kept.(lastPing := now);
    SendAppends(pinging.config, pinging.phase, pinging.tx, Ping(pinging, now), now);
  }

  /** Every call but a poll only adds at the end. */
  lemma ActAppends(net: Net, action: Action)
    ensures !action.Poll? ==> net.left.session.tx.outbox <= Act(net, action).left.session.tx.outbox
    ensures action.Poll? ==> Act(net, action).left.session == PollStep(net.left.session).0
  {
    hide SendStep, ReceiveStep, TickStep;
    var s := net.left.session;
    match action
    case Send(payload, now) => SendAppends(s.config, s.phase, s.tx, payload, now);
    case Receive(d, now) => ReceiveAppends(s, d, now);
    case Tick(now) => TickAppends(s, now);
    case Close(now) => SendAppends(s.config, s.phase, s.tx, [ID_DISCONNECT], now);
    case Poll =>
  }

  /** The datagrams the left end has put on the wire, in order. */
  ghost function Polled(start: Net, ops: seq<Op>): seq<bytes>
    decreases |ops|
  {
    if ops == [] then [] else
    var front, op := ops[..|ops| - 1], ops[|ops| - 1];
    var outbox := Run(start, front).left.session.tx.outbox;
    Polled(start, front) + (if op.onLeft && op.action.Poll? && outbox != [] then [outbox[0]] else [])
  }

  lemma StepAppends(net: Net, op: Op)
    ensures var before, after := net.left.session.tx.outbox, Step(net, op).left.session.tx.outbox;
            if op.onLeft && op.action.Poll? && before != [] then before == [before[0]] + after else before <= after
  {
    hide Act;
    if op.onLeft {
      ActAppends(net, op.action);
      PollTakesTheOldest(net.left.session);
      hide PollStep;
    } else {
      OtherEndStays(Swap(net), op.action);
    }
  }

  lemma OtherEndStays(net: Net, action: Action)
    ensures Act(net, action).right == net.right && Act(net, action).toLeft == net.toLeft
  {
    hide SendStep, ReceiveStep, TickStep, CloseStep;
  }

  /** First in, first out: over every run, what has been put on the wire and then what is still queued
      only ever grows at its end. Nothing overtakes, nothing is dropped and nothing is slipped in. */
  lemma {:induction false} LeavesInOrder(start: Net, ops: seq<Op>, m: nat)
    requires m <= |ops|
    ensures Polled(start, ops[..m]) + Run(start, ops[..m]).left.session.tx.outbox
         <= Polled(start, ops) + Run(start, ops).left.session.tx.outbox
    decreases |ops|
  {
    if m == |ops| {
      assert ops[..m] == ops;
    } else {
      hide Step;
      var front, op := ops[..|ops| - 1], ops[|ops| - 1];
      var before := Run(start, front);
      LeavesInOrder(start, front, m);
      assert front[..m] == ops[..m];
      StepAppends(before, op);
      var outbox, after := before.left.session.tx.outbox, Step(before, op).left.session.tx.outbox;
      if op.onLeft && op.action.Poll? && outbox != [] {
        Assoc(Polled(start, front), [outbox[0]], after);
      } else {
        assert Polled(start, ops) == Polled(start, front);
      }
    }
  }

  // What is to be acknowledged.

  ghost predicate SmallAcks(s: State) {
    forall i :: 0 <= i < |s.rx.pendingAcks| ==> s.rx.pendingAcks[i] < TWO_24
  }

  lemma SequencesAreSmall(d: bytes)
    ensures DecodeDatagram(d).Success? && DecodeDatagram(d).value.FrameSet? ==> DecodeDatagram(d).value.sequence < TWO_24
  {
    hide ReadU24, DecodeFrames, DecodeAck;
  }

  lemma TickClearsAcks(s: State, now: nat)
    ensures TickStep(s, now).rx.pendingAcks == s.rx.pendingAcks || TickStep(s, now).rx.pendingAcks == []
  {
    hide SendStep, Queue, Retransmit.DueStep, Splits.ExpireStep, AckRanges, DatagramBytes;
  }

  lemma ActKeepsAcksSmall(net: Net, action: Action)
    requires SmallAcks(net.left.session)
    ensures SmallAcks(Act(net, action).left.session)
  {
    hide SendStep, ReceiveStep, TickStep, DecodeDatagram;
    match action
    case Send(_, _) =>
    case Poll =>
    case Close(_) =>
    case Tick(now) => TickClearsAcks(net.left.session, now);
    case Receive(d, now) =>
      SequencesAreSmall(d);
      if IsClosed(net.left.session) {
        ClosedReceives(net.left.session, d, now);
      } else {
        EverythingHeardIsNoted(net.left.session, d, now);
      }
  }

  lemma ClosedReceives(s: State, d: bytes, now: nat)
    requires IsClosed(s)
    ensures ReceiveStep(s, d, now).0 == s
  {
  }

  lemma {:induction false} AcksStaySmall(left: Config, right: Config, now: nat, ops: seq<Op>)
    ensures var net := Run(Start(left, right, now), ops);
            SmallAcks(net.left.session) && SmallAcks(net.right.session)
    decreases |ops|
  {
    hide Act, SmallAcks;
    if ops == [] {
      StartsSmall(left, right, now);
    } else {
      var before, op := Run(Start(left, right, now), ops[..|ops| - 1]), ops[|ops| - 1];
      AcksStaySmall(left, right, now, ops[..|ops| - 1]);
      var here := if op.onLeft then before else Swap(before);
      ActKeepsAcksSmall(here, op.action);
      OtherEndStays(here, op.action);
    }
  }

  lemma StartsSmall(left: Config, right: Config, now: nat)
    ensures SmallAcks(Start(left, right, now).left.session) && SmallAcks(Start(left, right, now).right.session)
  {
  }

  // One round trip.

  /** The session can answer: it is open, neither silent for too long nor giving its peer up, has put
      everything on the wire and has something to acknowledge. */
  ghost predicate CanAnswer(s: State, now: nat) {
    && !IsClosed(s) && Monus(now, s.lastHeard) < s.config.timeout && !s.tx.retrans.dead
    && s.tx.outbox == [] && s.config.maxOutbox > 0
    && 0 < |s.rx.pendingAcks| <= MAX_RECORDS
  }

  /** Its next tick puts the acknowledgement first in the outbox. */
  lemma TickAcknowledges(s: State, now: nat) returns (d: bytes)
    requires CanAnswer(s, now) && SmallAcks(s)
    ensures Acknowledges([d], s.rx.pendingAcks)
    ensures var after := TickStep(s, now);
            after.tx.outbox != [] && after.tx.outbox[0] == d && after.rx.pendingAcks == []
  {
    hide TickStep, SendStep, Acknowledges, U64Bytes, NowMillis, KeptUp;
    TickKeepsUp(s, now);
    var kept :| KeptUp(s, now, kept)
                && TickStep(s, now) == if Monus(now, s.lastPing) < s.config.keepalive then kept else
                                       kept.(lastPing := now,
                                       tx := SendStep(s.config, s.phase, kept.tx, [0x00] + U64Bytes(NowMillis(s, now)), now).0);
    SendAppends(s.config, s.phase, kept.tx, [0x00] + U64Bytes(NowMillis(s, now)), now);
    d := UpkeepAcknowledges(s, now, kept);
  }

  lemma UpkeepAcknowledges(s: State, now: nat, kept: State) returns (d: bytes)
    requires KeptUp(s, now, kept) && s.tx.outbox == [] && s.config.maxOutbox > 0 && s.rx.pendingAcks != []
    ensures Acknowledges([d], s.rx.pendingAcks)
    ensures kept.tx.outbox != [] && kept.tx.outbox[0] == d && kept.rx.pendingAcks == []
  {
    hide Acknowledges, Timeouts.BytesOf, Timeouts.OverdueKeys, Timeouts.Overdue;
    var acks, again :| && Acknowledges(acks, s.rx.pendingAcks)
                       && Timeouts.BytesOf(s.tx.retrans.inFlight, KeyOrder.Sorted(Timeouts.OverdueKeys(s.tx.retrans, now)), again)
                       && Queued(s.tx.outbox, acks + again, s.config.maxOutbox, kept.tx.outbox);
    OneAcknowledgement(acks, s.rx.pendingAcks);
    d := acks[0];
    assert acks == [d];
  }

  lemma OneAcknowledgement(acks: seq<bytes>, pending: seq<u32>)
    requires Acknowledges(acks, pending) && pending != []
    ensures |acks| == 1
  {
  }

  /** The right end ticks, its first datagram goes out, and the left end receives it. */
  ghost function Settling(net: Net, d: bytes, t1: nat, t2: nat): Net {
    Step(Step(Step(net, Op(false, Tick(t1))), Op(false, Poll)), Op(true, Receive(d, t2)))
  }

  /** In those three calls everything the right end has to acknowledge leaves the left end's in-flight
      map, and nothing else does. */
  lemma OneRoundTrip(net: Net, t1: nat, t2: nat) returns (d: bytes)
    requires CanAnswer(net.right.session, t1) && SmallAcks(net.right.session) && !IsClosed(net.left.session)
    ensures var before, after := net.left.session.tx.retrans.inFlight, Settling(net, d, t1, t2).left.session.tx.retrans.inFlight;
            && (forall k :: k in after <==> k in before && k !in net.right.session.rx.pendingAcks)
            && (forall k :: k in after ==> after[k] == before[k])
    ensures Settling(net, d, t1, t2).right.session.rx.pendingAcks == []
    ensures Settling(net, d, t1, t2).left.sent == net.left.sent && Settling(net, d, t1, t2).right.handed == net.right.handed
  {
    d := TickAcknowledges(net.right.session, t1);
    hide TickStep, ReceiveStep, CanAnswer, SmallAcks;
    var s := net.left.session;
    var polled := Step(Step(net, Op(false, Tick(t1))), Op(false, Poll));
    assert polled.left == net.left && d in polled.toLeft && polled.right.session.rx.pendingAcks == [];
    Acknowledged(s, d, net.right.session.rx.pendingAcks, t2);
    var after := Step(polled, Op(true, Receive(d, t2)));
    assert after.left.session == ReceiveStep(s, d, t2).0 && after.right == polled.right;
  }

  lemma Acknowledged(s: State, d: bytes, pending: seq<u32>, now: nat)
    requires !IsClosed(s) && Acknowledges([d], pending) && 0 < |pending| <= MAX_RECORDS
    ensures var before, after := s.tx.retrans.inFlight, ReceiveStep(s, d, now).0.tx.retrans.inFlight;
            && (forall k :: k in after <==> k in before && k !in pending)
            && (forall k :: k in after ==> after[k] == before[k])
  {
    hide DecodeDatagram, Contains, ReceiveStep;
    Endpoint.UnaidedAgrees(s.tx.retrans.inFlight);
    AckIsHeeded(s, d, DecodeDatagram(d).value.ranges, now, Endpoint.Unaided(s.tx.retrans.inFlight));
  }

  /** After any run: if everything in flight is waiting to be acknowledged, one round trip leaves nothing
      in flight; and then, unless the other end has ever failed a call, expired a reassembly or met an
      index too late, everything sent has been handed over. */
  lemma RoundTripSettles(left: Config, right: Config, now: nat, ops: seq<Op>, t1: nat, t2: nat) returns (more: seq<Op>)
    requires var net := Run(Start(left, right, now), ops);
             && CanAnswer(net.right.session, t1) && !IsClosed(net.left.session)
             && forall k :: k in net.left.session.tx.retrans.inFlight ==> k in net.right.session.rx.pendingAcks
    ensures |more| == 3
    ensures var net := Run(Start(left, right, now), ops + more);
            && net.left.session.tx.retrans.inFlight == map[]
            && (InBounds(net) && Capacity(net.left.session.config) > 0 && Endpoint.Unhurt(net.right.session.rx.log) ==>
                  && net.right.session.rx.log.released == net.left.session.tx.log.accepted
                  && net.right.handed == AppOnly(net.left.sent))
  {
    var start := Start(left, right, now);
    var net := Run(start, ops);
    AcksStaySmall(left, right, now, ops);
    hide Step, CanAnswer, SmallAcks, Start, InBounds;
    var d := OneRoundTrip(net, t1, t2);
    more := [Op(false, Tick(t1)), Op(false, Poll), Op(true, Receive(d, t2))];
    ThreeMore(start, ops, more[0], more[1], more[2]);
    assert Run(start, ops + more) == Settling(net, d, t1, t2);
    var after := Run(start, ops + more);
    if InBounds(after) && Capacity(after.left.session.config) > 0 && Endpoint.Unhurt(after.right.session.rx.log) {
      Transport.NothingOutstandingMeansDelivered(left, right, now, ops + more);
    }
    hide Run;
  }

  lemma ThreeMore(start: Net, ops: seq<Op>, a: Op, b: Op, c: Op)
    ensures Run(start, ops + [a, b, c]) == Step(Step(Step(Run(start, ops), a), b), c)
  {
    hide Step, Run;
    OneMore(start, ops, a);
    OneMore(start, ops + [a], b);
    OneMore(start, ops + [a] + [b], c);
    assert ops + [a] + [b] + [c] == ops + [a, b, c];
  }

  lemma OneMore(start: Net, ops: seq<Op>, op: Op)
    ensures Run(start, ops + [op]) == Step(Run(start, ops), op)
  {
    hide Step;
    assert (ops + [op])[..|ops|] == ops;
  }
}
