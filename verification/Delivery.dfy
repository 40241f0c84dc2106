/** From released payloads to what the caller is handed. */
module Delivery {
  import opened Integers
  import opened Wrappers
  import opened SessionSpec
  import opened Sending
  import opened SendHistory
  import opened Sender
  import opened Receiver
  import Frames
  import Order
  import Splits
  import Reassembly

  lemma {:induction false} AppOnlyJoins(a: seq<bytes>, b: seq<bytes>)
    ensures AppOnly(a + b) == AppOnly(a) + AppOnly(b)
    decreases |b|
  {
    if b == [] {
      assert a + b == a;
    } else {
      var last := |b| - 1;
      assert (a + b)[..|a| + last] == a + b[..last];
      AppOnlyJoins(a, b[..last]);
    }
  }

  lemma AppOnlyOfOne(payload: bytes)
    ensures AppOnly([payload]) == if IsApp(payload) then [payload] else []
  {
    assert AppOnly([payload][..0]) == [];
  }

  /** Some of `b`, in the same order and each at most once. */
  ghost predicate Subsequence(a: seq<bytes>, b: seq<bytes>)
    decreases |b|
  {
    || a == []
    || (b != [] && Subsequence(a, b[..|b| - 1]))
    || (b != [] && a[|a| - 1] == b[|b| - 1] && Subsequence(a[..|a| - 1], b[..|b| - 1]))
  }

  lemma {:induction false} SubsequenceOfItself(a: seq<bytes>)
    ensures Subsequence(a, a)
    decreases |a|
  {
    if a != [] {
      SubsequenceOfItself(a[..|a| - 1]);
    }
  }

  lemma {:induction false} DropLast(a: seq<bytes>, b: seq<bytes>)
    requires a != [] && Subsequence(a, b)
    ensures Subsequence(a[..|a| - 1], b)
    decreases |b|
  {
    if b != [] && Subsequence(a, b[..|b| - 1]) {
      DropLast(a, b[..|b| - 1]);
    }
  }

  /** Leaving out the end leaves a subsequence. */
  lemma {:induction false} SubsequenceDrops(a: seq<bytes>, more: seq<bytes>, b: seq<bytes>)
    requires Subsequence(a + more, b)
    ensures Subsequence(a, b)
    decreases |more|
  {
    if more == [] {
      assert a + more == a;
    } else {
      var last := |more| - 1;
      DropLast(a + more, b);
      assert (a + more)[..|a| + last] == a + more[..last];
      SubsequenceDrops(a, more[..last], b);
    }
  }

  /** So does adding to the end of the whole, and adding the same end to both. */
  lemma {:induction false} SubsequenceGrows(a: seq<bytes>, b: seq<bytes>, more: seq<bytes>)
    requires Subsequence(a, b)
    ensures Subsequence(a, b + more) && Subsequence(a + more, b + more)
    decreases |more|
  {
    if more == [] {
      assert a + more == a && b + more == b;
    } else {
      var last := |more| - 1;
      SubsequenceGrows(a, b, more[..last]);
      assert (b + more)[..|b| + last] == b + more[..last];
      assert (a + more)[..|a| + last] == a + more[..last];
    }
  }

  // The record of sends only ever grows.

  ghost predicate Longer(a: SendLog, b: SendLog) {
    && |a.accepted| <= |b.accepted| && |a.frames| <= |b.frames| && |a.batches| <= |b.batches| && a.splits <= b.splits
  }

  lemma SendGrows(config: Config, phase: Phase, tx: Tx, payload: bytes, now: nat)
    ensures var (after, result) := SendStep(config, phase, tx, payload, now);
            && Longer(tx.log, after.log)
            && after.log.accepted == if result.Success? then tx.log.accepted + [payload] else tx.log.accepted
  {
    var frames := Splits.SplitStep(tx.nextSplitId, payload, Capacity(config)).0;
    var splitId := if IsSplit(payload, Capacity(config)) then Some(tx.nextSplitId) else None;
    var spent := SpendSplitId(config, tx, payload);
    SendStepIs(config, phase, tx, payload, now);
    SpentIs(config, tx, payload);
    hide Refused, SpendSplitId, Splits.SplitStep, SendStep, Capacity;
    if !phase.Finished? && !Refused(config, spent, frames) {
      SendFramesGrow(config, spent, payload, frames, splitId, now);
    }
  }

  lemma SendFramesGrow(config: Config, tx: Tx, payload: bytes, frames: seq<Frames.Frame>, splitId: Option<u16>, now: nat)
    requires splitId.Some? ==> Capacity(config) > 0
    ensures var (after, ok) := SendFrames(config, tx, payload, frames, splitId, now);
            && Longer(tx.log, after.log)
            && after.log.accepted == if ok then tx.log.accepted + [payload] else tx.log.accepted
  {
    if !Refused(config, tx, frames) {
      FlushingQueues(tx, Batches(config, tx, frames), now);
      hide FlushAll, Batches, DatagramsOf, DatagramsNeeded, SequenceOf, Numbered, Capacity;
    }
  }

  lemma {:induction false} HandleAllGrows(s: State, payloads: seq<bytes>, delivered: seq<bytes>, now: nat)
    ensures Internal(s.tx.log, HandleAll(s, payloads, delivered, now).0.tx.log) && HandleAll(s, payloads, delivered, now).0.rx == s.rx
    decreases |payloads|
  {
    if payloads != [] {
      HandleGrows(s, payloads[0], now);
      var (after, result) := Handle(s, payloads[0], now);
      hide Handle;
      if result.Success? {
        HandleAllGrows(after, payloads[1..], delivered + (if result.value.Some? then [result.value.value] else []), now);
      }
      assert delivered + [] == delivered;
    }
  }

  lemma InternalSend(config: Config, phase: Phase, tx: Tx, payload: bytes, now: nat)
    requires !IsApp(payload)
    ensures Internal(tx.log, SendStep(config, phase, tx, payload, now).0.log)
  {
    SendGrows(config, phase, tx, payload, now);
    AppOnlyJoins(tx.log.accepted, [payload]);
    AppOnlyOfOne(payload);
    assert AppOnly(tx.log.accepted) + [] == AppOnly(tx.log.accepted);
    hide SendStep, IsApp, AppOnly;
  }

  lemma HandleGrows(s: State, payload: bytes, now: nat)
    ensures Internal(s.tx.log, Handle(s, payload, now).0.tx.log) && Handle(s, payload, now).0.rx == s.rx
  {
    var reply := ReplyTo(s, payload, now);
    if reply.Some? {
      assert !IsApp(reply.value);
      hide SendStep, ReplyTo, IsApp, PhaseAfter, AppOnly;
      InternalSend(s.config, s.phase, s.tx, reply.value, now);
    }
    hide ReplyTo, IsApp;
  }

  lemma TakeFrameHandsNothing(rx: Rx, f: Frames.Frame, now: nat)
    ensures TakeFrame(rx, f, now).0.log.delivered == rx.log.delivered
  {
    hide Order.AcceptStep, Order.PushStep, Splits.PushStep;
  }

  lemma {:induction false} TakeFramesGrows(s: State, frames: seq<Frames.Frame>, delivered: seq<bytes>, now: nat)
    ensures var after := TakeFrames(s, frames, delivered, now).0;
            Internal(s.tx.log, after.tx.log) && after.rx.log.delivered == s.rx.log.delivered
    decreases |frames|
  {
    hide TakeFrame, HandleAll;
    if frames != [] {
      var (rx, outcome) := TakeFrame(s.rx, frames[0], now);
      TakeFrameHandsNothing(s.rx, frames[0], now);
      if outcome.Released? {
        HandleAllGrows(s.(rx := rx), outcome.payloads, delivered, now);
        var (after, result) := HandleAll(s.(rx := rx), outcome.payloads, delivered, now);
        if result.Success? {
          TakeFramesGrows(after, frames[1..], result.value, now);
        }
      }
    }
  }

  /** What a session sends of its own accord is no application payload. */
  ghost predicate Internal(a: SendLog, b: SendLog) {
    Longer(a, b) && AppOnly(b.accepted) == AppOnly(a.accepted)
  }

  // Handling what is released.

  lemma SendKeptItself(config: Config, tx: Tx, heard: set<u32>)
    requires TxInv(config, tx, heard)
    ensures SendKept(config, tx, tx, heard)
  {
    GoodLogLengths(tx.log);
    ExtendsItself(tx.log);
  }

  lemma SendKeptTransitively(config: Config, a: Tx, b: Tx, c: Tx, heard: set<u32>)
    requires SendKept(config, a, b, heard) && SendKept(config, b, c, heard)
    ensures SendKept(config, a, c, heard)
  {
    ExtendsTransitively(a.log, b.log, c.log);
    ExtendsLengths(a.log, b.log);
    hide TxInv, Extends;
  }

  lemma ShorterIsBounded(a: SendLog, b: SendLog)
    requires Longer(a, b) && Bounded(b)
    ensures Bounded(a)
  {
  }

  lemma HandleKeeps(s: State, payload: bytes, now: nat, heard: set<u32>)
    requires TxInv(s.config, s.tx, heard) && Bounded(Handle(s, payload, now).0.tx.log)
    ensures var (after, result) := Handle(s, payload, now);
            && SendKept(s.config, s.tx, after.tx, heard)
            && after == s.(tx := after.tx, phase := after.phase)
            && (result.Success? ==> result.value == if IsApp(payload) then Some(payload) else None)
            && (!Asks(payload) ==> result.Success?)
  {
    SendKeptItself(s.config, s.tx, heard);
    var reply := ReplyTo(s, payload, now);
    AskingIsNotAnApp(s, payload, now);
    hide SendStep, ReplyTo, IsApp, Asks, PhaseAfter, TxInv, SendKept;
    if reply.Some? {
      SendKeeps(s.config, s.phase, s.tx, reply.value, now, heard);
    }
  }

  lemma AskingIsNotAnApp(s: State, payload: bytes, now: nat)
    ensures ReplyTo(s, payload, now).Some? <==> Asks(payload)
    ensures Asks(payload) ==> !IsApp(payload)
  {
  }

  lemma {:induction false} HandleAllKeeps(s: State, payloads: seq<bytes>, delivered: seq<bytes>, now: nat, heard: set<u32>)
    requires TxInv(s.config, s.tx, heard) && Bounded(HandleAll(s, payloads, delivered, now).0.tx.log)
    ensures var (after, result) := HandleAll(s, payloads, delivered, now);
            && SendKept(s.config, s.tx, after.tx, heard)
            && after == s.(tx := after.tx, phase := after.phase)
            && (result.Success? ==> result.value == delivered + AppOnly(payloads))
            && ((forall i :: 0 <= i < |payloads| ==> !Asks(payloads[i])) ==> result.Success?)
    decreases |payloads|
  {
    if payloads == [] {
      SendKeptItself(s.config, s.tx, heard);
      assert delivered + [] == delivered;
    } else {
      var head, tail := payloads[0], payloads[1..];
      var (next, result) := Handle(s, head, now);
      var more := if IsApp(head) then [head] else [];
      AppOnlyOfOne(head);
      HeadTail(payloads);
      AppOnlyJoins([head], tail);
      Assoc(delivered, more, AppOnly(tail));
      assert delivered + [] == delivered;
      hide Handle, AppOnly, IsApp, Asks, TxInv, SendKept, Bounded;
      if result.Success? {
        HandleAllGrows(next, tail, delivered + (if result.value.Some? then [result.value.value] else []), now);
        ShorterIsBounded(next.tx.log, HandleAll(s, payloads, delivered, now).0.tx.log);
        HandleKeeps(s, head, now, heard);
        assert TxInv(next.config, next.tx, heard) by {
          KeptHolds(s.config, s.tx, next.tx, heard);
        }
        HandleAllKeeps(next, tail, delivered + more, now, heard);
        SendKeptTransitively(s.config, s.tx, next.tx, HandleAll(s, payloads, delivered, now).0.tx, heard);
      } else {
        HandleKeeps(s, head, now, heard);
      }
    }
  }

  lemma KeptHolds(config: Config, tx: Tx, after: Tx, heard: set<u32>)
    requires SendKept(config, tx, after, heard)
    ensures TxInv(config, after, heard)
  {
  }

  // Taking the frames of one datagram.

  ghost predicate Quiet(payloads: seq<bytes>) {
    forall i :: 0 <= i < |payloads| ==> !Asks(payloads[i])
  }

  /** What was handed over, `inHand` included, is a subsequence of the application payloads released,
      short by exactly the number dropped with a refused reply. */
  ghost predicate Handed(got: RecvLog, inHand: seq<bytes>) {
    && Subsequence(got.delivered + inHand, AppOnly(got.released))
    && |got.delivered| + |inHand| + got.lost == |AppOnly(got.released)|
  }

  lemma HandedMore(got: RecvLog, after: RecvLog, inHand: seq<bytes>, ready: seq<bytes>)
    requires Handed(got, inHand)
    requires after.released == got.released + ready && after.delivered == got.delivered && after.lost == got.lost
    ensures Handed(after, inHand + AppOnly(ready))
  {
    AppOnlyJoins(got.released, ready);
    SubsequenceGrows(got.delivered + inHand, AppOnly(got.released), AppOnly(ready));
    Assoc(got.delivered, inHand, AppOnly(ready));
  }

  /** Dropping what is in hand is noted. */
  lemma HandedDrops(got: RecvLog, after: RecvLog, inHand: seq<bytes>, ready: seq<bytes>)
    requires Handed(got, inHand)
    requires after.released == got.released + ready && after.delivered == got.delivered
    requires after.lost == got.lost + |inHand| + |AppOnly(ready)|
    ensures Handed(after, [])
  {
    AppOnlyJoins(got.released, ready);
    SubsequenceGrows(got.delivered + inHand, AppOnly(got.released), AppOnly(ready));
    SubsequenceDrops(got.delivered, inHand, AppOnly(after.released));
    assert got.delivered + [] == got.delivered;
  }

  lemma ReadyIsAccepted(rx: Rx, after: Rx, log: SendLog, ready: seq<bytes>)
    requires RxCore(after, log) && OnlyTakes(rx, after, ready) && Quiet(log.accepted)
    ensures Quiet(ready)
  {
    hide Reassembly.Genuine, Order.Remembers, AllLocated, Asks;
    var released := after.log.released;
    assert released == log.accepted[..after.ordering.expected];
    forall i | 0 <= i < |ready|
      ensures !Asks(ready[i])
    {
      assert released[|rx.log.released| + i] == ready[i];
      assert log.accepted[|rx.log.released| + i] == ready[i];
    }
  }

  /** The loop over a datagram's frames: where it starts, or what is left after some of them. */
  ghost predicate Taking(s: State, log: SendLog, k: nat, inHand: seq<bytes>, heard: set<u32>) {
    && TxInv(s.config, s.tx, heard)
    && RxCore(s.rx, log)
    && Handed(s.rx.log, inHand)
    && (inHand != [] ==> GroupTaken(log, s.rx.log.taken, k))
  }

  /** What the loop changes of the receive log. */
  ghost predicate SameCall(a: RecvLog, b: RecvLog) {
    && b.received == a.received && b.delivered == a.delivered && b.failed == a.failed && b.expired == a.expired
    && a.taken <= b.taken && (a.late ==> b.late) && a.lost <= b.lost
  }

  ghost predicate AllTaken(frames: seq<Frames.Frame>, taken: set<nat>) {
    forall i :: 0 <= i < |frames| ==> frames[i].reliableIndex in taken
  }

  ghost predicate TookAll(s: State, log: SendLog, frames: seq<Frames.Frame>, after: State, result: Result<seq<bytes>, SessionError>, heard: set<u32>) {
    && SendKept(s.config, s.tx, after.tx, heard)
    && after == s.(tx := after.tx, rx := after.rx, phase := after.phase)
    && RxCore(after.rx, log)
    && SameCall(s.rx.log, after.rx.log)
    && Handed(after.rx.log, if result.Success? then result.value else [])
    && (Quiet(log.accepted) || result.Success? ==> after.rx.log.lost == s.rx.log.lost)
    && (Clean(s.rx, log, -1) && result.Success? && !after.rx.log.late ==>
          Clean(after.rx, log, -1) && AllTaken(frames, after.rx.log.taken))
  }

  /** The frames of a payload released, its handling leaves the loop ready for the next frame, or
      ends it with the loss noted. */
  ghost predicate Handled(s: State, log: SendLog, k: nat, rx: Rx, ready: seq<bytes>, inHand: seq<bytes>, now: nat, heard: set<u32>) {
    var (after, result) := HandleAll(s.(rx := rx), ready, inHand, now);
    && SendKept(s.config, s.tx, after.tx, heard)
    && after == s.(rx := rx, tx := after.tx, phase := after.phase)
    && (Quiet(log.accepted) ==> result.Success?)
    && (result.Success? ==> Taking(after, log, k, result.value, heard))
    && (result.Failure? ==> Handed(Lost(after, |inHand| + |AppOnly(ready)|).rx.log, []))
  }

  lemma HandlingKeeps(s: State, log: SendLog, k: nat, rx: Rx, ready: seq<bytes>, inHand: seq<bytes>, now: nat, heard: set<u32>)
    requires Taking(s, log, k, inHand, heard) && OnlyTakes(s.rx, rx, ready) && RxCore(rx, log)
    requires ready != [] ==> GroupTaken(log, rx.log.taken, k)
    requires Bounded(HandleAll(s.(rx := rx), ready, inHand, now).0.tx.log)
    ensures Handled(s, log, k, rx, ready, inHand, now, heard)
  {
    var (after, result) := HandleAll(s.(rx := rx), ready, inHand, now);
    HandleAllKeeps(s.(rx := rx), ready, inHand, now, heard);
    hide HandleAll, RxCore, TxInv, Handed, AppOnly, Asks;
    if Quiet(log.accepted) {
      ReadyIsAccepted(s.rx, rx, log, ready);
    }
    KeptHolds(s.config, s.tx, after.tx, heard);
    HandedMore(s.rx.log, rx.log, inHand, ready);
    HandedDrops(s.rx.log, Lost(after, |inHand| + |AppOnly(ready)|).rx.log, inHand, ready);
    EmptyHand(inHand, ready);
    GroupStaysTaken(log, s.rx.log.taken, rx.log.taken, k);
    hide GroupTaken, SendKept;
  }

  /** One frame and the handling of what it releases. */
  lemma OneFrame(s: State, log: SendLog, k: nat, f: Frames.Frame, inHand: seq<bytes>, now: nat, heard: set<u32>)
    requires Taking(s, log, k, inHand, heard)
    requires GoodLog(log) && Bounded(log) && Known(f, log) && f.orderIndex == k
    requires var (rx, outcome) := TakeFrame(s.rx, f, now);
             outcome.Released? ==> Bounded(HandleAll(s.(rx := rx), outcome.payloads, inHand, now).0.tx.log)
    ensures var (rx, outcome) := TakeFrame(s.rx, f, now);
            && Took(s.rx, log, f, rx, outcome)
            && (outcome.Failed? ==> Handed(rx.log, []))
            && (outcome.Released? ==> Handled(s, log, k, rx, outcome.payloads, inHand, now, heard))
  {
    TakeFrameKeeps(s.rx, log, f, now);
    var (rx, outcome) := TakeFrame(s.rx, f, now);
    hide TakeFrame, HandleAll, RxCore, Known, GoodLog, TxInv, SendKept, Clean, Bounded, Handed, Handled, AppOnly, Asks;
    match outcome
    case Failed(_) =>
      assert inHand == [];
      HandedStays(s.rx.log, rx.log);
    case Released(ready) =>
      HandlingKeeps(s, log, k, rx, ready, inHand, now, heard);
  }

  lemma HandedStays(got: RecvLog, after: RecvLog)
    requires Handed(got, []) && after.released == got.released + [] && after.delivered == got.delivered && after.lost == got.lost
    ensures Handed(after, [])
  {
    assert got.released + [] == got.released;
  }

  lemma EmptyHand(inHand: seq<bytes>, ready: seq<bytes>)
    ensures inHand + AppOnly(ready) != [] ==> inHand != [] || ready != []
  {
  }

  lemma GroupStaysTaken(log: SendLog, taken: set<nat>, more: set<nat>, k: nat)
    requires taken <= more
    ensures GroupTaken(log, taken, k) ==> GroupTaken(log, more, k)
  {
  }

  ghost predicate AllKnown(frames: seq<Frames.Frame>, log: SendLog, k: nat) {
    forall i :: 0 <= i < |frames| ==> Known(frames[i], log) && frames[i].orderIndex == k
  }

  lemma {:induction false} TakeFramesKeeps(s: State, log: SendLog, k: nat, frames: seq<Frames.Frame>, inHand: seq<bytes>, now: nat, heard: set<u32>)
    requires Taking(s, log, k, inHand, heard)
    requires GoodLog(log) && Bounded(log) && AllKnown(frames, log, k)
    requires Bounded(TakeFrames(s, frames, inHand, now).0.tx.log)
    ensures var (after, result) := TakeFrames(s, frames, inHand, now);
            TookAll(s, log, frames, after, result, heard)
    decreases |frames|
  {
    if frames == [] {
      SendKeptItself(s.config, s.tx, heard);
      hide SendKept, RxCore, Handed, Clean, Quiet, TxInv, GroupTaken;
      return;
    }
    FirstIsBounded(s, frames, inHand, now);
    assert Known(frames[0], log) && frames[0].orderIndex == k && AllKnown(frames[1..], log, k);
    var (end, result) := TakeFrames(s, frames, inHand, now);
    var (rx, outcome) := TakeFrame(s.rx, frames[0], now);
    TakeFramesUnfolds(s, frames, inHand, now);
    hide TakeFrames, TakeFrame, HandleAll, Taking, GoodLog, Bounded, Known, AllKnown, RxCore, TxInv, SendKept, Clean, Handed, GroupTaken, Took, TookAll, Quiet, AppOnly, Lost;
    OneFrame(s, log, k, frames[0], inHand, now, heard);
    if outcome.Failed? {
      FailedEnd(s, log, k, inHand, frames, rx, end, heard);
    } else {
      var (next, handled) := HandleAll(s.(rx := rx), outcome.payloads, inHand, now);
      if handled.Success? {
        TakeFramesKeeps(next, log, k, frames[1..], handled.value, now, heard);
        Onwards(s, log, frames, rx, next, end, result, heard);
      } else {
        RefusedEnd(s, log, frames, rx, outcome.payloads, next, end, heard);
      }
    }
  }

  lemma TakeFramesUnfolds(s: State, frames: seq<Frames.Frame>, inHand: seq<bytes>, now: nat)
    requires frames != []
    ensures var (end, result) := TakeFrames(s, frames, inHand, now);
            var (rx, outcome) := TakeFrame(s.rx, frames[0], now);
            if outcome.Failed? then end == s.(rx := rx) && result == Failure(outcome.e)
            else
              var (next, handled) := HandleAll(s.(rx := rx), outcome.payloads, inHand, now);
              if handled.Success? then (end, result) == TakeFrames(next, frames[1..], handled.value, now)
              else end == Lost(next, |inHand| + |AppOnly(outcome.payloads)|) && result == Failure(handled.error)
  {
    hide TakeFrame, HandleAll, AppOnly, Lost;
  }

  lemma FirstIsBounded(s: State, frames: seq<Frames.Frame>, inHand: seq<bytes>, now: nat)
    requires frames != [] && Bounded(TakeFrames(s, frames, inHand, now).0.tx.log)
    ensures var (rx, outcome) := TakeFrame(s.rx, frames[0], now);
            outcome.Released? ==> Bounded(HandleAll(s.(rx := rx), outcome.payloads, inHand, now).0.tx.log)
  {
    hide TakeFrame, HandleAll;
      var (rx, outcome) := TakeFrame(s.rx, frames[0], now);
    if outcome.Released? {
      var (next, handled) := HandleAll(s.(rx := rx), outcome.payloads, inHand, now);
      if handled.Success? {
        TakeFramesGrows(next, frames[1..], handled.value, now);
      }
    }
  }

  lemma Onwards(s: State, log: SendLog, frames: seq<Frames.Frame>, rx: Rx, next: State, end: State, result: Result<seq<bytes>, SessionError>, heard: set<u32>)
    requires frames != [] && next == s.(rx := rx, tx := next.tx, phase := next.phase)
    requires SendKept(s.config, s.tx, next.tx, heard)
    requires exists outcome :: Took(s.rx, log, frames[0], rx, outcome) && outcome.Released?
    requires TookAll(next, log, frames[1..], end, result, heard)
    ensures TookAll(s, log, frames, end, result, heard)
  {
    SendKeptTransitively(s.config, s.tx, next.tx, end.tx, heard);
    hide SendKept, RxCore, Handed, Clean, Quiet, GroupTaken;
    if Clean(s.rx, log, -1) && result.Success? && !end.rx.log.late {
      forall i | 0 <= i < |frames|
        ensures frames[i].reliableIndex in end.rx.log.taken
      {
        assert i > 0 ==> frames[i] == frames[1..][i - 1];
      }
    }
  }

  lemma RefusedEnd(s: State, log: SendLog, frames: seq<Frames.Frame>, rx: Rx, ready: seq<bytes>, next: State, end: State, heard: set<u32>)
    requires frames != [] && next == s.(rx := rx, tx := next.tx, phase := next.phase)
    requires SendKept(s.config, s.tx, next.tx, heard) && !Quiet(log.accepted)
    requires Took(s.rx, log, frames[0], rx, Released(ready)) && Handed(end.rx.log, [])
    requires exists lost: nat :: end == Lost(next, lost)
    ensures forall e :: TookAll(s, log, frames, end, Failure(e), heard)
  {
    hide SendKept, Handed, Clean, Quiet, GroupTaken;
    var lost: nat :| end == Lost(next, lost);
    NotingLoss(next, log, lost);
    hide RxCore;
  }

  lemma NotingLoss(s: State, log: SendLog, lost: nat)
    requires RxCore(s.rx, log)
    ensures RxCore(Lost(s, lost).rx, log)
  {
  }

  lemma FailedEnd(s: State, log: SendLog, k: nat, inHand: seq<bytes>, frames: seq<Frames.Frame>, rx: Rx, end: State, heard: set<u32>)
    requires frames != [] && Taking(s, log, k, inHand, heard)
    requires exists outcome :: Took(s.rx, log, frames[0], rx, outcome) && outcome.Failed?
    requires Handed(rx.log, []) && end == s.(rx := rx)
    ensures forall e :: TookAll(s, log, frames, end, Failure(e), heard)
  {
    SendKeptItself(s.config, s.tx, heard);
    hide SendKept, Handed, Clean, Quiet, GroupTaken, RxCore, TxInv;
  }
}
