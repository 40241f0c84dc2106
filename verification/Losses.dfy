/** Which calls lose payloads, over a whole run; and that without one, everything arrives in full. */
module Losses {
  import opened Integers
  import opened Wrappers
  import opened Datagrams
  import opened SessionSpec
  import opened SendHistory
  import opened Sender
  import opened Delivery
  import opened Endpoint
  import opened Network
  import opened Refusals
  import opened Transport
  import Frames
  import Retransmit
  import Splits

  /** The call about to be made loses something: the datagram it is given releases an application
      payload, and the answer to one of the payloads it releases is refused. All of it can be told from
      the session as it stands before the call. */
  ghost predicate LosesHere(net: Net, action: Action) {
    && action.Receive? && action.datagram in net.toLeft
    && LosesOn(net.left.session, action.datagram, action.now)
  }

  ghost predicate LosesOn(s: State, d: bytes, now: nat) {
    var decoded := DecodeDatagram(d);
    && !IsClosed(s)
    && decoded.Success? && decoded.value.FrameSet?
    && LosesFrames(s, decoded.value.sequence, decoded.value.frames, now)
  }

  ghost predicate LosesFrames(s: State, q: u32, frames: seq<Frames.Frame>, now: nat) {
    var ready := TakeAll(Noted(s, q).rx, frames, now).1;
    AnyRefused(s, ready, now) && AppOnly(ready) != []
  }

  lemma NotFrames(s: State, d: bytes, now: nat)
    requires DecodeDatagram(d).Failure? || !DecodeDatagram(d).value.FrameSet?
    ensures ReceiveStep(s, d, now).0.rx == s.rx
  {
    hide DecodeDatagram, Retransmit.AckStep, Retransmit.NackStep, Queue;
  }

  lemma ReceiveLoses(s: State, log: SendLog, d: bytes, now: nat, heardByPeer: set<u32>, q: nat)
    requires Sound(s, log, heardByPeer) && GoodLog(log) && Bounded(log) && IsBatch(d, log, q) && !IsClosed(s)
    requires DecodeDatagram(d).Success? && Bounded(ReceiveStep(s, d, now).0.tx.log)
    ensures DecodeDatagram(d) == Success(FrameSet(q, log.batches[q]))
    ensures var ready := TakeAll(Noted(s, q).rx, log.batches[q], now).1;
            ReceiveStep(s, d, now).0.rx.log.lost
            == s.rx.log.lost + (if AnyRefused(s, ready, now) then |AppOnly(ready)| else 0)
  {
    BatchDecodes(d, log, q);
    BatchInRange(d, log, q);
    var heard := s.(lastHeard := now);
    HeardLastKeeps(s, log, now, heardByPeer);
    assert ReceiveStep(s, d, now) == ReceiveFrameSet(heard, q, log.batches[q], now);
    hide DecodeDatagram, Sound, GoodLog, Bounded, IsBatch, TakeAll, AnyRefused, AppOnly, ReceiveFrameSet, ReceiveStep;
    ReceiveLosesWhatIsRefused(heard, log, q, now, heardByPeer);
    NotingDoesNotMatter(s, heard, TakeAll(Noted(s, q).rx, log.batches[q], now).1, now);
  }

  lemma TickLosesNothing(s: State, now: nat)
    ensures TickStep(s, now).rx.log.lost == s.rx.log.lost
  {
    hide Retransmit.DueStep, Splits.ExpireStep, AckRanges, DatagramBytes, Queue, SendStep;
  }

  /** One call loses something exactly when the condition holds before it. */
  lemma ActLoses(net: Net, action: Action)
    requires Paired(net) && InBounds(net) && InBounds(Act(net, action))
    ensures var before, after := net.left.session.rx.log.lost, Act(net, action).left.session.rx.log.lost;
            before <= after && (before < after <==> LosesHere(net, action))
  {
    var s, peer := net.left.session, net.right.session;
    SoundHasAGoodLog(peer, s.tx.log, s.rx.log.received);
    assert SoundEnd(s, peer) && OnlyEmitted(net.toLeft, peer);
    hide Sound, GoodLog, Emitted, Bounded, SendStep, ReceiveStep, TickStep, DecodeDatagram, TakeAll, AnyRefused, AppOnly;
    match action
    case Send(_, _) =>
    case Poll =>
    case Close(_) =>
    case Tick(now) => TickLosesNothing(s, now);
    case Receive(d, now) =>
      if d in net.toLeft {
        assert Emitted(d, peer.tx.log, peer.rx.log.received);
        ReceiveLosesExactly(s, peer.tx.log, d, now, peer.rx.log.received);
      }
  }

  /** The same for a datagram of the peer's. */
  lemma ReceiveLosesExactly(s: State, log: SendLog, d: bytes, now: nat, heardByPeer: set<u32>)
    requires Sound(s, log, heardByPeer) && GoodLog(log) && Bounded(log) && Emitted(d, log, heardByPeer)
    requires Bounded(ReceiveStep(s, d, now).0.tx.log)
    ensures var before, after := s.rx.log.lost, ReceiveStep(s, d, now).0.rx.log.lost;
            && before <= after
            && (before < after <==> LosesOn(s, d, now))
  {
    if IsClosed(s) {
      assert ReceiveStep(s, d, now).0 == s;
    } else {
      hide Sound, GoodLog, Bounded, IsBatch, IsAck, DecodeDatagram, TakeAll, AnyRefused, AppOnly, ReceiveStep;
      if DecodeDatagram(d).Failure? || !DecodeDatagram(d).value.FrameSet? {
        NotFrames(s, d, now);
      } else if q: nat :| IsBatch(d, log, q) {
        ReceiveLoses(s, log, d, now, heardByPeer, q);
      } else {
        var ranges :| IsAck(d, ranges, heardByPeer);
        AckDecodes(d, ranges, heardByPeer);
      }
    }
  }

  // Over a run.

  /** The n-th call of a run is one by which the right end loses something. */
  ghost predicate LosesAt(left: Config, right: Config, now: nat, ops: seq<Op>, n: nat)
    requires n < |ops|
  {
    !ops[n].onLeft && LosesHere(Swap(Run(Start(left, right, now), ops[..n])), ops[n].action)
  }

  ghost predicate NothingLost(left: Config, right: Config, now: nat, ops: seq<Op>) {
    forall n :: 0 <= n < |ops| ==> !LosesAt(left, right, now, ops, n)
  }

  lemma OneCallMore(left: Config, right: Config, now: nat, ops: seq<Op>)
    requires ops != []
    ensures var last := |ops| - 1;
            NothingLost(left, right, now, ops)
            <==> NothingLost(left, right, now, ops[..last]) && !LosesAt(left, right, now, ops, last)
  {
    hide LosesHere, Run;
    var last := |ops| - 1;
    forall n | 0 <= n < last
      ensures LosesAt(left, right, now, ops[..last], n) <==> LosesAt(left, right, now, ops, n)
    {
      assert ops[..last][..n] == ops[..n];
    }
  }

  lemma {:induction false} LostExactlyWhen(left: Config, right: Config, now: nat, ops: seq<Op>)
    requires InBounds(Run(Start(left, right, now), ops))
    ensures Run(Start(left, right, now), ops).right.session.rx.log.lost == 0 <==> NothingLost(left, right, now, ops)
    decreases |ops|
  {
    if ops != [] {
      var last := |ops| - 1;
      var before := Run(Start(left, right, now), ops[..last]);
      RunKeeps(left, right, now, ops[..last]);
      StepIsBounded(before, ops[last]);
      LostExactlyWhen(left, right, now, ops[..last]);
      OneCallMore(left, right, now, ops);
      StepLoses(before, ops[last]);
      hide Run, Step, LosesHere, NothingLost;
    }
  }

  lemma StepLoses(net: Net, op: Op)
    requires Paired(net) && Witnessed(net.left) && Witnessed(net.right) && InBounds(net) && InBounds(Step(net, op))
    ensures var before, after := net.right.session.rx.log.lost, Step(net, op).right.session.rx.log.lost;
            before <= after && (before < after <==> !op.onLeft && LosesHere(Swap(net), op.action))
  {
    hide Act, LosesHere, SoundEnd, OnlyEmitted, Bounded, Witnessed;
    if op.onLeft {
      ActGrows(net, op.action);
    } else {
      ActLoses(Swap(net), op.action);
    }
  }

  /** What has been handed over is everything there was to hand over, up to the point reached, exactly
      when no call of the run released an application payload together with one whose answer is
      refused; and then it is a prefix of the application payloads sent. Pings and connection requests
      may be on the stream. */
  lemma EverythingUnlessRefused(left: Config, right: Config, now: nat, ops: seq<Op>)
    requires InBounds(Run(Start(left, right, now), ops))
    ensures var net := Run(Start(left, right, now), ops);
            && Reached(net.right) <= |net.left.session.tx.log.accepted|
            && (net.right.handed == AppOnly(net.left.session.tx.log.accepted[..Reached(net.right)])
                <==> NothingLost(left, right, now, ops))
            && (NothingLost(left, right, now, ops) ==> net.right.handed <= AppOnly(net.left.sent))
  {
    PayloadsArriveInOrder(left, right, now, ops);
    LostExactlyWhen(left, right, now, ops);
    hide Run, NothingLost, Subsequence, AppOnly, Quiet;
  }

  /** When the caller sends application payloads and no call of the run loses anything, what is handed
      over is a prefix of what was accepted, byte for byte: whatever keepalives and control packets go
      between, and whatever is refused, expires or closes. */
  lemma ApplicationPayloadsArePrefix(left: Config, right: Config, now: nat, ops: seq<Op>)
    requires var net := Run(Start(left, right, now), ops);
             && InBounds(net)
             && NothingLost(left, right, now, ops)
             && forall i :: 0 <= i < |net.left.sent| ==> IsApp(net.left.sent[i])
    ensures var net := Run(Start(left, right, now), ops);
            net.right.handed <= net.left.sent
  {
    EverythingUnlessRefused(left, right, now, ops);
    AppOnlyOfApps(Run(Start(left, right, now), ops).left.sent);
    hide Run, IsApp, NothingLost;
  }

  /** In particular when nothing on the stream asks for an answer. */
  lemma NothingAskedNothingLost(left: Config, right: Config, now: nat, ops: seq<Op>)
    requires InBounds(Run(Start(left, right, now), ops))
    requires Quiet(Run(Start(left, right, now), ops).left.session.tx.log.accepted)
    ensures NothingLost(left, right, now, ops)
  {
    PayloadsArriveInOrder(left, right, now, ops);
    LostExactlyWhen(left, right, now, ops);
    hide Run, NothingLost, Subsequence, AppOnly, Quiet;
  }
}
