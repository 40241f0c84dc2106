/** What never gets through: an accepted payload that no frame can carry holds up everything after it. */
module Stalls {
  import opened Integers
  import opened Datagrams
  import opened SessionSpec
  import opened SendHistory
  import opened Sender
  import opened Receiver
  import opened Delivery
  import opened Endpoint
  import opened Network
  import opened Transport
  import Frames
  import Order
  import Splits
  import Retransmit

  /** Frame r of the record, when it has something to carry. */
  ghost predicate Solid(log: SendLog, r: nat) {
    r < |log.frames| && log.frames[r].payload != []
  }

  ghost predicate TakenFor(log: SendLog, taken: set<nat>, k: nat) {
    exists r: nat :: r in taken && r < |log.frames| && log.frames[r].orderIndex == k
  }

  /** Only frames with something in them are ever taken, and only what a taken frame names is put in
      order. */
  ghost predicate Earned(got: RecvLog, log: SendLog) {
    && (forall r :: r in got.taken ==> Solid(log, r))
    && (forall k :: k in got.pushed ==> TakenFor(log, got.taken, k))
  }

  // Taking frames.

  lemma TakeFrameMarks(rx: Rx, f: Frames.Frame, now: nat)
    requires f.reliability.IsReliable()
    ensures var got := TakeFrame(rx, f, now).0.log;
            && rx.log.taken <= got.taken <= rx.log.taken + {f.reliableIndex}
            && rx.log.pushed <= got.pushed <= rx.log.pushed + {f.orderIndex}
            && (got.pushed != rx.log.pushed ==> f.reliableIndex in got.taken)
  {
    hide Order.AcceptStep, Order.PushStep, Splits.PushStep;
  }

  ghost predicate SolidFrame(f: Frames.Frame, log: SendLog) {
    Solid(log, f.reliableIndex) && f == log.frames[f.reliableIndex] && f.reliability.IsReliable()
  }

  lemma MarksAreEarned(before: RecvLog, after: RecvLog, log: SendLog, f: Frames.Frame)
    requires Earned(before, log) && SolidFrame(f, log)
    requires before.taken <= after.taken <= before.taken + {f.reliableIndex}
    requires before.pushed <= after.pushed <= before.pushed + {f.orderIndex}
    requires after.pushed != before.pushed ==> f.reliableIndex in after.taken
    ensures Earned(after, log)
  {
    forall k | k in after.pushed
      ensures TakenFor(log, after.taken, k)
    {
      if k in before.pushed {
        var r: nat :| r in before.taken && r < |log.frames| && log.frames[r].orderIndex == k;
        assert r in after.taken;
      } else {
        assert f.reliableIndex in after.taken;
      }
    }
  }

  lemma {:induction false} TakeFramesEarn(s: State, log: SendLog, frames: seq<Frames.Frame>, inHand: seq<bytes>, now: nat)
    requires Earned(s.rx.log, log) && forall i :: 0 <= i < |frames| ==> SolidFrame(frames[i], log)
    ensures Earned(TakeFrames(s, frames, inHand, now).0.rx.log, log)
    decreases |frames|
  {
    if frames != [] {
      var (rx, outcome) := TakeFrame(s.rx, frames[0], now);
      TakeFrameMarks(s.rx, frames[0], now);
      MarksAreEarned(s.rx.log, rx.log, log, frames[0]);
      TakeFramesUnfolds(s, frames, inHand, now);
      hide TakeFrames, TakeFrame, HandleAll, AppOnly;
      if outcome.Released? {
        var (next, handled) := HandleAll(s.(rx := rx), outcome.payloads, inHand, now);
        HandleAllGrows(s.(rx := rx), outcome.payloads, inHand, now);
        assert next.rx == rx;
        if handled.Success? {
          assert forall i :: 0 <= i < |frames| - 1 ==> frames[1..][i] == frames[i + 1];
          hide SolidFrame;
          TakeFramesEarn(next, log, frames[1..], handled.value, now);
        } else {
          hide Earned, SolidFrame;
          SameMarks(rx.log, Lost(next, |inHand| + |AppOnly(outcome.payloads)|).rx.log, log);
        }
      }
    }
  }

  lemma SameMarks(a: RecvLog, b: RecvLog, log: SendLog)
    requires Earned(a, log) && b.taken == a.taken && b.pushed == a.pushed
    ensures Earned(b, log)
  {
  }

  lemma EarnedStays(got: RecvLog, a: SendLog, b: SendLog)
    requires Earned(got, a) && Extends(a, b)
    ensures Earned(got, b)
  {
    ExtendsLengths(a, b);
    hide Extends;
    forall k | k in got.pushed
      ensures TakenFor(b, got.taken, k)
    {
      var r: nat :| r in got.taken && r < |a.frames| && a.frames[r].orderIndex == k;
      assert b.frames[r] == a.frames[r];
    }
  }

  // One call.

  lemma DecodedIsSolid(d: bytes, log: SendLog, q: nat)
    requires IsBatch(d, log, q) && GoodLog(log) && Bounded(log) && DecodeDatagram(d).Success?
    ensures q < |log.batches| && forall i :: 0 <= i < |log.batches[q]| ==> SolidFrame(log.batches[q][i], log)
  {
    BatchDecodes(d, log, q);
    BatchIsKnown(log, q);
    EncodableOrEmpty(log, q);
    var frames := log.batches[q];
    hide DecodeDatagram, GoodLog, DatagramBytes;
    forall i | 0 <= i < |frames|
      ensures SolidFrame(frames[i], log)
    {
      assert frames[i] in frames && Known(frames[i], log);
    }
  }

  lemma ReceiveEarns(s: State, log: SendLog, d: bytes, now: nat, heardByPeer: set<u32>)
    requires Earned(s.rx.log, log) && GoodLog(log) && Bounded(log) && Emitted(d, log, heardByPeer)
    ensures Earned(ReceiveStep(s, d, now).0.rx.log, log)
  {
    hide Earned, GoodLog, Bounded, IsBatch, IsAck, DecodeDatagram, Retransmit.AckStep, TakeFrames;
    if q: nat :| IsBatch(d, log, q) {
      BatchDecodes(d, log, q);
      if !IsClosed(s) && DecodeDatagram(d).Success? {
        DecodedIsSolid(d, log, q);
        BatchInRange(d, log, q);
        var noted := Noted(s.(lastHeard := now), q);
        SameMarks(s.rx.log, noted.rx.log, log);
        TakeFramesEarn(noted, log, log.batches[q], [], now);
        var (after, result) := TakeFrames(noted, log.batches[q], [], now);
        SameMarks(after.rx.log, Settle(after, result).rx.log, log);
      }
    } else {
      var ranges :| IsAck(d, ranges, heardByPeer);
      AckDecodes(d, ranges, heardByPeer);
    }
  }

  lemma TickMarksNothing(s: State, now: nat)
    ensures var got := TickStep(s, now).rx.log; got.taken == s.rx.log.taken && got.pushed == s.rx.log.pushed
  {
    hide Retransmit.DueStep, Splits.ExpireStep, AckRanges, DatagramBytes, Queue, SendStep;
  }

  lemma ActEarns(net: Net, action: Action)
    requires Paired(net) && InBounds(net)
    requires Earned(net.left.session.rx.log, net.right.session.tx.log)
    ensures Earned(Act(net, action).left.session.rx.log, net.right.session.tx.log)
  {
    var s, peer := net.left.session, net.right.session;
    SoundHasAGoodLog(peer, s.tx.log, s.rx.log.received);
    assert OnlyEmitted(net.toLeft, peer);
    hide Earned, GoodLog, Sound, SendStep, ReceiveStep, TickStep, Emitted, Bounded;
    match action
    case Send(_, _) =>
    case Poll =>
    case Receive(d, now) =>
      if d in net.toLeft {
        ReceiveEarns(s, peer.tx.log, d, now, peer.rx.log.received);
      }
    case Tick(now) =>
      TickMarksNothing(s, now);
      SameMarks(s.rx.log, TickStep(s, now).rx.log, peer.tx.log);
    case Close(now) =>
  }

  ghost predicate BothEarned(net: Net) {
    && Earned(net.left.session.rx.log, net.right.session.tx.log)
    && Earned(net.right.session.rx.log, net.left.session.tx.log)
  }

  lemma ActKeepsEarned(net: Net, action: Action)
    requires Paired(net) && Witnessed(net.left) && BothEarned(net) && InBounds(Act(net, action)) && InBounds(net)
    ensures BothEarned(Act(net, action))
  {
    ActEarns(net, action);
    ActGrows(net, action);
    SessionKeeps(net, action);
    hide Act, Earned, Paired, Sound, OnlyEmitted, Extends, Bounded, Witnessed;
    EarnedStays(net.right.session.rx.log, net.left.session.tx.log, Act(net, action).left.session.tx.log);
  }

  lemma {:induction false} RunIsEarned(left: Config, right: Config, now: nat, ops: seq<Op>)
    requires InBounds(Run(Start(left, right, now), ops))
    ensures BothEarned(Run(Start(left, right, now), ops))
    decreases |ops|
  {
    if ops != [] {
      var last := |ops| - 1;
      var before := Run(Start(left, right, now), ops[..last]);
      RunKeeps(left, right, now, ops[..last]);
      StepIsBounded(before, ops[last]);
      RunIsEarned(left, right, now, ops[..last]);
      hide Run, Act, Paired, Witnessed, BothEarned, InBounds;
      StepKeepsEarned(before, ops[last]);
    }
  }

  lemma StepKeepsEarned(net: Net, op: Op)
    requires Paired(net) && Witnessed(net.left) && Witnessed(net.right) && BothEarned(net) && InBounds(net) && InBounds(Step(net, op))
    ensures BothEarned(Step(net, op))
  {
    hide Act, Witnessed, SoundEnd, OnlyEmitted, Bounded, Earned;
    ActKeepsEarned(if op.onLeft then net else Swap(net), op.action);
  }

  // The stall.

  /** No frame carries anything of payload k: it is empty, or there was no room for a fragment. */
  ghost predicate Uncarried(config: Config, log: SendLog, k: nat) {
    k < |log.accepted| && (log.accepted[k] == [] || Capacity(config) == 0)
  }

  lemma {:induction false} ConcatHoldsItsParts(parts: seq<bytes>, i: nat)
    requires i < |parts| && parts[i] != []
    ensures Splits.Concat(parts) != []
  {
    if i > 0 {
      ConcatHoldsItsParts(parts[1..], i - 1);
    }
  }

  lemma NoFrameOfIt(config: Config, tx: Tx, heard: set<u32>, k: nat, r: nat)
    requires TxInv(config, tx, heard) && Uncarried(config, tx.log, k)
    ensures !(Solid(tx.log, r) && tx.log.frames[r].orderIndex == k)
  {
    var log := tx.log;
    if Solid(log, r) && log.frames[r].orderIndex == k {
      var f := log.frames[r];
      assert Capacity(config) > 0 && log.accepted[k] == [] && GoodFrame(f, log);
      if f.split.Some? {
        assert GoodEntry(f.split.value.id, log);
        ConcatHoldsItsParts(log.catalog[f.split.value.id], f.split.value.index);
      }
      assert false;
    }
  }

  /** An accepted payload that is empty stops its stream for good: over every run, nothing from it on is
      ever released, whatever is sent afterwards. The same goes for every payload when the datagram has
      no room for a fragment. */
  lemma NothingPassesAnEmptyPayload(left: Config, right: Config, now: nat, ops: seq<Op>, k: nat)
    requires var net := Run(Start(left, right, now), ops);
             InBounds(net) && Uncarried(net.left.session.config, net.left.session.tx.log, k)
    ensures var net := Run(Start(left, right, now), ops);
            && Reached(net.right) <= k
            && net.right.session.rx.log.released <= net.left.session.tx.log.accepted[..k]
  {
    var net := Run(Start(left, right, now), ops);
    RunKeeps(left, right, now, ops);
    RunIsEarned(left, right, now, ops);
    PayloadsArriveInOrder(left, right, now, ops);
    var s, rx := net.left.session, net.right.session.rx;
    var log := s.tx.log;
    assert Order.InOrder(rx.ordering, log.accepted, rx.log.released, rx.log.pushed) && TxInv(s.config, s.tx, s.rx.log.received) by {
      hide Run, TxInv, Order.InOrder, Uncarried, Earned;
    }
    assert Earned(rx.log, log);
    hide Run, TxInv, Paired, Subsequence, AppOnly, Uncarried, BothEarned;
    if k in rx.log.pushed {
      var r: nat :| r in rx.log.taken && r < |log.frames| && log.frames[r].orderIndex == k;
      NoFrameOfIt(s.config, s.tx, s.rx.log.received, k, r);
    }
  }
}
