/** When a call of `receive` is refused for want of an answer, and what it loses. */
module Refusals {
  import opened Integers
  import opened Wrappers
  import opened Datagrams
  import opened SessionSpec
  import opened Sending
  import opened SendHistory
  import opened Sender
  import opened Receiver
  import opened Delivery
  import opened Endpoint
  import Frames
  import Order
  import Reassembly
  import Splits

  // A call as one list of released payloads, handled in order.

  /** What the frames of a datagram release, as long as none is refused. Handling what is released has
      no say in it. */
  function TakeAll(rx: Rx, frames: seq<Frames.Frame>, now: nat): (Rx, seq<bytes>, Option<SessionError>)
    decreases |frames|
  {
    if frames == [] then (rx, [], None) else
    match TakeFrame(rx, frames[0], now)
    case (after, Failed(e)) => (after, [], Some(e))
    case (after, Released(payloads)) =>
      var (end, more, e) := TakeAll(after, frames[1..], now);
      (end, payloads + more, e)
  }

  lemma {:induction false} HandleAllJoins(s: State, a: seq<bytes>, b: seq<bytes>, inHand: seq<bytes>, now: nat)
    ensures var (after, result) := HandleAll(s, a, inHand, now);
            HandleAll(s, a + b, inHand, now)
            == if result.Failure? then (after, result) else HandleAll(after, b, result.value, now)
    decreases |a|
  {
    if a == [] {
      assert a + b == b;
    } else {
      assert (a + b)[1..] == a[1..] + b;
      var (next, handled) := Handle(s, a[0], now);
      assert inHand + [] == inHand;
      hide Handle;
      if handled.Success? {
        HandleAllJoins(next, a[1..], b, inHand + (if handled.value.Some? then [handled.value.value] else []), now);
      }
    }
  }

  lemma {:induction false} HandleAllIgnoresRx(s: State, rx: Rx, payloads: seq<bytes>, inHand: seq<bytes>, now: nat)
    ensures var (after, result) := HandleAll(s, payloads, inHand, now);
            HandleAll(s.(rx := rx), payloads, inHand, now) == (after.(rx := rx), result)
    decreases |payloads|
  {
    if payloads != [] {
      HandleIgnoresRx(s, rx, payloads[0], now);
      var (next, handled) := Handle(s, payloads[0], now);
      assert inHand + [] == inHand;
      hide Handle;
      if handled.Success? {
        HandleAllIgnoresRx(next, rx, payloads[1..], inHand + (if handled.value.Some? then [handled.value.value] else []), now);
      }
    }
  }

  lemma HandleIgnoresRx(s: State, rx: Rx, payload: bytes, now: nat)
    ensures Handle(s.(rx := rx), payload, now) == (Handle(s, payload, now).0.(rx := rx), Handle(s, payload, now).1)
  {
    hide SendStep, IsApp, PhaseAfter;
  }

  /** The loop over a datagram's frames leaves the connection and the sending half where handling the
      released payloads one after another would. */
  lemma {:induction false} TakeFramesHandles(s: State, frames: seq<Frames.Frame>, inHand: seq<bytes>, now: nat)
    ensures var (rx, ready, e) := TakeAll(s.rx, frames, now);
            var (handled, answer) := HandleAll(s, ready, inHand, now);
            var (end, result) := TakeFrames(s, frames, inHand, now);
            && end == handled.(rx := end.rx)
            && result == (if answer.Failure? || e.None? then answer else Failure(e.value))
            && (answer.Success? ==> end.rx == rx)
    decreases |frames|
  {
    if frames != [] {
      var (rx, outcome) := TakeFrame(s.rx, frames[0], now);
      TakeFramesUnfolds(s, frames, inHand, now);
      if outcome.Failed? {
        assert TakeAll(s.rx, frames, now) == (rx, [], Some(outcome.e));
      } else {
        var (end, more, e) := TakeAll(rx, frames[1..], now);
        assert TakeAll(s.rx, frames, now) == (end, outcome.payloads + more, e);
        hide TakeAll, TakeFrames, TakeFrame, HandleAll;
        OneReleaseHandled(s, frames, rx, outcome.payloads, more, inHand, now);
        var (next, handled) := HandleAll(s.(rx := rx), outcome.payloads, inHand, now);
        if handled.Success? {
          HandleAllGrows(s.(rx := rx), outcome.payloads, inHand, now);
          TakeFramesHandles(next, frames[1..], handled.value, now);
        }
      }
    }
  }

  /** The first release handled, and then the others, is all of them handled. */
  lemma OneReleaseHandled(s: State, frames: seq<Frames.Frame>, rx: Rx, payloads: seq<bytes>, more: seq<bytes>, inHand: seq<bytes>, now: nat)
    ensures var (next, handled) := HandleAll(s.(rx := rx), payloads, inHand, now);
            var (all, answer) := HandleAll(s, payloads + more, inHand, now);
            && (handled.Failure? ==> all == next.(rx := all.rx) && answer == handled)
            && (handled.Success? ==>
                  var (rest, last) := HandleAll(next, more, handled.value, now);
                  all == rest.(rx := all.rx) && answer == last)
  {
    HandleAllJoins(s, payloads, more, inHand, now);
    HandleAllIgnoresRx(s, rx, payloads, inHand, now);
    var (after, result) := HandleAll(s, payloads, inHand, now);
    if result.Success? {
      HandleAllIgnoresRx(after, rx, more, result.value, now);
    }
    hide HandleAll;
  }

  // The connection after a call.

  /** How many payloads are handled before an answer is refused. */
  function Met(s: State, payloads: seq<bytes>, now: nat): (n: nat)
    ensures n <= |payloads|
    decreases |payloads|
  {
    if payloads == [] || Handle(s, payloads[0], now).1.Failure? then 0
    else 1 + Met(Handle(s, payloads[0], now).0, payloads[1..], now)
  }

  function PhaseAfterAll(phase: Phase, payloads: seq<bytes>): Phase
    decreases |payloads|
  {
    if payloads == [] then phase else PhaseAfterAll(PhaseAfter(phase, payloads[0]), payloads[1..])
  }

  lemma HandleMoves(s: State, payload: bytes, now: nat)
    ensures var (after, result) := Handle(s, payload, now);
            && after.phase == (if result.Success? then PhaseAfter(s.phase, payload) else s.phase)
            && after == s.(tx := after.tx, phase := after.phase)
  {
    hide SendStep, RequestAccepted, Pong, IsApp;
  }

  /** Handling stops at the first refused answer; the connection is as the payloads before it left it. */
  lemma {:induction false} HandleAllMeets(s: State, payloads: seq<bytes>, inHand: seq<bytes>, now: nat)
    ensures var (after, result) := HandleAll(s, payloads, inHand, now);
            && (result.Failure? <==> Met(s, payloads, now) < |payloads|)
            && after.phase == PhaseAfterAll(s.phase, payloads[..Met(s, payloads, now)])
    decreases |payloads|
  {
    hide Handle, PhaseAfter;
    if payloads != [] {
      var (next, handled) := Handle(s, payloads[0], now);
      HandleMoves(s, payloads[0], now);
      assert inHand + [] == inHand;
      if handled.Success? {
        var n := Met(next, payloads[1..], now);
        assert payloads[..1 + n][0] == payloads[0] && payloads[..1 + n][1..] == payloads[1..][..n];
        HandleAllMeets(next, payloads[1..], inHand + (if handled.value.Some? then [handled.value.value] else []), now);
      }
    }
  }

  // What answering takes.

  /** Datagrams the answer to a payload needs. */
  function NeedsOf(s: State, payload: bytes, now: nat): nat {
    match ReplyTo(s, payload, now)
    case None => 0
    case Some(reply) => DatagramsNeeded(Splits.SplitStep(0, reply, Capacity(s.config)).0, Budget(s.config), 0)
  }

  function Needs(s: State, payloads: seq<bytes>, now: nat): nat
    decreases |payloads|
  {
    if payloads == [] then 0 else NeedsOf(s, payloads[0], now) + Needs(s, payloads[1..], now)
  }

  lemma {:induction false} NeedsJoins(s: State, a: seq<bytes>, b: seq<bytes>, now: nat)
    ensures Needs(s, a + b, now) == Needs(s, a, now) + Needs(s, b, now)
    decreases |a|
  {
    if a == [] {
      assert a + b == b;
    } else {
      assert (a + b)[1..] == a[1..] + b;
      NeedsJoins(s, a[1..], b, now);
    }
  }

  /** The answer to payload i is refused: it wants one, and the session is closed by then, or the answers
      up to it do not fit in the outbox or the window. */
  ghost predicate RefusedAt(s: State, payloads: seq<bytes>, now: nat, i: nat) {
    && i < |payloads| && Asks(payloads[i])
    && var needed := Needs(s, payloads[..i + 1], now);
    || PhaseAfterAll(s.phase, payloads[..i]).Finished?
    || |s.tx.outbox| + needed > s.config.maxOutbox
    || |s.tx.retrans.inFlight| + needed > s.config.retransmit.maxInFlight
  }

  lemma SizesDoNotDependOnTheId(id: u16, payload: bytes, capacity: nat, budget: nat)
    ensures DatagramsNeeded(Splits.SplitStep(id, payload, capacity).0, budget, 0)
         == DatagramsNeeded(Splits.SplitStep(0, payload, capacity).0, budget, 0)
  {
    var a, b := Splits.SplitStep(id, payload, capacity).0, Splits.SplitStep(0, payload, capacity).0;
    hide Splits.Chunks, DatagramsNeeded;
    NumberingKeepsSizes(a, b, budget, 0);
  }

  /** Each batch flushed under a sequence not yet in flight is one entry more. */
  lemma {:induction false} FlushingCounts(tx: Tx, batches: seq<seq<Frames.Frame>>, now: nat)
    requires |tx.retrans.inFlight| + |batches| <= tx.retrans.limits.maxInFlight && |batches| <= TWO_32
    requires forall i: nat :: i < |batches| ==> SequenceOf(tx, i) !in tx.retrans.inFlight
    ensures |FlushAll(tx, batches, now).retrans.inFlight| == |tx.retrans.inFlight| + |batches|
    decreases |batches|
  {
    if batches != [] {
      var next, rest := FlushStep(tx, batches[0], now), batches[1..];
      FlushSplits(tx, batches, now);
      hide FlushStep, DatagramsOf;
      assert SequenceOf(tx, 0) !in tx.retrans.inFlight;
      assert next.retrans.inFlight.Keys == tx.retrans.inFlight.Keys + {tx.nextSequence};
      forall i: nat | i < |rest|
        ensures SequenceOf(next, i) !in next.retrans.inFlight
      {
        SequenceShift(tx, next, i);
        SequencesDiffer(tx, i + 1);
      }
      hide SequenceOf;
      FlushingCounts(next, rest, now);
    }
  }

  lemma SequencesDiffer(tx: Tx, i: nat)
    requires 0 < i < TWO_32
    ensures SequenceOf(tx, i) != tx.nextSequence
  {
  }

  /** A `send` that is accepted takes exactly as much of the outbox and of the window as it needs. */
  lemma SendTakesWhatItNeeds(config: Config, phase: Phase, tx: Tx, payload: bytes, now: nat, heard: set<u32>)
    requires TxInv(config, tx, heard) && Bounded(SendStep(config, phase, tx, payload, now).0.log)
    ensures var (after, result) := SendStep(config, phase, tx, payload, now);
            var needed := DatagramsNeeded(Splits.SplitStep(0, payload, Capacity(config)).0, Budget(config), 0);
            && (result.Failure? <==> phase.Finished? || |tx.outbox| + needed > config.maxOutbox
                                     || |tx.retrans.inFlight| + needed > config.retransmit.maxInFlight)
            && (result.Success? ==> |after.outbox| == |tx.outbox| + needed
                                    && |after.retrans.inFlight| == |tx.retrans.inFlight| + needed)
  {
    var frames := Splits.SplitStep(tx.nextSplitId, payload, Capacity(config)).0;
    SizesDoNotDependOnTheId(tx.nextSplitId, payload, Capacity(config), Budget(config));
    SendIsAllOrNothing(config, phase, tx, payload, now);
    var (after, result) := SendStep(config, phase, tx, payload, now);
    if result.Success? {
      FlushedFresh(config, phase, tx, payload, now, heard);
    }
    hide SendStep, TxInv, Splits.SplitStep, DatagramsNeeded, Capacity, Budget, NumbersMove, SequenceOf;
  }

  lemma FlushedFresh(config: Config, phase: Phase, tx: Tx, payload: bytes, now: nat, heard: set<u32>)
    requires TxInv(config, tx, heard) && Bounded(SendStep(config, phase, tx, payload, now).0.log)
    requires SendStep(config, phase, tx, payload, now).1.Success?
    ensures var frames := Splits.SplitStep(tx.nextSplitId, payload, Capacity(config)).0;
            |SendStep(config, phase, tx, payload, now).0.retrans.inFlight|
            == |tx.retrans.inFlight| + DatagramsNeeded(frames, Budget(config), 0)
  {
    var frames := Splits.SplitStep(tx.nextSplitId, payload, Capacity(config)).0;
    var splitId := if IsSplit(payload, Capacity(config)) then Some(tx.nextSplitId) else None;
    var spent := SpendSplitId(config, tx, payload);
    SendStepIs(config, phase, tx, payload, now);
    SpentIs(config, tx, payload);
    SpendingKeeps(config, tx, payload, heard);
    var batches := Batches(config, spent, frames);
    assert |batches| == DatagramsNeeded(frames, Budget(config), 0);
    hide SendStep, SpendSplitId, Splits.SplitStep, DatagramsNeeded, Batches, Capacity, Budget;
    SendFramesIs(config, spent, payload, frames, splitId, now) by {
      hide SendFrames;
    }
    BatchesAreFresh(spent, batches, SendFrames(config, spent, payload, frames, splitId, now).0.log) by {
      hide Grown;
      GrownLengths(spent.log, batches, payload, Numbered(frames, spent.nextReliable, spent.nextOrder), splitId, Capacity(config));
    }
    hide TxInv, SendFrames;
    FlushingCounts(spent, batches, now);
  }

  lemma BatchesAreFresh(tx: Tx, batches: seq<seq<Frames.Frame>>, log: SendLog)
    requires Counts(tx) && TracksBatches(tx.retrans.inFlight, tx.log)
    requires log.batches == tx.log.batches + batches && |log.batches| <= TWO_24
    ensures |batches| <= TWO_32
    ensures forall i: nat :: i < |batches| ==> SequenceOf(tx, i) !in tx.retrans.inFlight
  {
    forall i: nat | i < |batches|
      ensures SequenceOf(tx, i) !in tx.retrans.inFlight
    {
      FlushedIsBatch(tx, batches, log, i);
      hide DatagramBytes;
    }
  }

  lemma SameQuestionSameAnswer(s: State, next: State, payload: bytes, now: nat)
    requires next.config == s.config && next.started == s.started
    ensures ReplyTo(next, payload, now) == ReplyTo(s, payload, now) && NeedsOf(next, payload, now) == NeedsOf(s, payload, now)
  {
    hide Splits.SplitStep, DatagramsNeeded, EchoedTime;
  }

  lemma {:induction false} SameNeeds(s: State, next: State, payloads: seq<bytes>, now: nat)
    requires next.config == s.config && next.started == s.started
    ensures Needs(next, payloads, now) == Needs(s, payloads, now)
    decreases |payloads|
  {
    if payloads != [] {
      SameQuestionSameAnswer(s, next, payloads[0], now);
      SameNeeds(s, next, payloads[1..], now);
    }
  }

  /** One payload handled: refused exactly as said, and otherwise taking what its answer needs. */
  lemma HandleIsExact(s: State, payload: bytes, now: nat, heard: set<u32>)
    requires TxInv(s.config, s.tx, heard) && Bounded(Handle(s, payload, now).0.tx.log)
    ensures var (after, result) := Handle(s, payload, now);
            && (result.Failure? <==>
                && Asks(payload)
                && (|| s.phase.Finished? || |s.tx.outbox| + NeedsOf(s, payload, now) > s.config.maxOutbox
                    || |s.tx.retrans.inFlight| + NeedsOf(s, payload, now) > s.config.retransmit.maxInFlight))
            && (result.Success? ==>
                  && |after.tx.outbox| == |s.tx.outbox| + NeedsOf(s, payload, now)
                  && |after.tx.retrans.inFlight| == |s.tx.retrans.inFlight| + NeedsOf(s, payload, now))
  {
    AskingIsNotAnApp(s, payload, now);
    var reply := ReplyTo(s, payload, now);
    hide ReplyTo, Asks, IsApp, SendStep, PhaseAfter, TxInv, DatagramsNeeded, Splits.SplitStep, Capacity, Budget;
    if reply.Some? {
      SendTakesWhatItNeeds(s.config, s.phase, s.tx, reply.value, now, heard);
    }
  }

  /** The condition at a later payload, seen from before or after the first. */
  lemma RefusedLater(s: State, next: State, payloads: seq<bytes>, now: nat, i: nat)
    requires payloads != [] && next.config == s.config && next.started == s.started
    requires next.phase == PhaseAfter(s.phase, payloads[0])
    requires |next.tx.outbox| == |s.tx.outbox| + NeedsOf(s, payloads[0], now)
    requires |next.tx.retrans.inFlight| == |s.tx.retrans.inFlight| + NeedsOf(s, payloads[0], now)
    ensures RefusedAt(next, payloads[1..], now, i) <==> RefusedAt(s, payloads, now, i + 1)
  {
    hide PhaseAfter, NeedsOf, Asks;
    var tail := payloads[1..];
    if i < |tail| {
      assert payloads[..i + 2][0] == payloads[0] && payloads[..i + 2][1..] == tail[..i + 1];
      assert payloads[..i + 1][0] == payloads[0] && payloads[..i + 1][1..] == tail[..i];
      SameNeeds(s, next, tail[..i + 1], now);
    }
  }

  lemma RefusedFirst(s: State, payloads: seq<bytes>, now: nat)
    requires payloads != []
    ensures RefusedAt(s, payloads, now, 0) <==>
            && Asks(payloads[0])
            && (|| s.phase.Finished? || |s.tx.outbox| + NeedsOf(s, payloads[0], now) > s.config.maxOutbox
                || |s.tx.retrans.inFlight| + NeedsOf(s, payloads[0], now) > s.config.retransmit.maxInFlight)
  {
    hide NeedsOf, Asks;
    assert payloads[..1] == [payloads[0]] && payloads[..0] == [];
    var one := [payloads[0]];
    assert one[1..] == [];
    assert Needs(s, one, now) == NeedsOf(s, payloads[0], now);
  }

  /** The condition fails at the first n payloads, and holds at the next one, if there is one. */
  ghost predicate FirstRefused(s: State, payloads: seq<bytes>, now: nat, n: nat) {
    && (n < |payloads| ==> RefusedAt(s, payloads, now, n))
    && (forall i: nat :: i < n ==> !RefusedAt(s, payloads, now, i))
  }

  lemma FirstRefusedLater(s: State, next: State, payloads: seq<bytes>, now: nat, n: nat)
    requires payloads != [] && !RefusedAt(s, payloads, now, 0) && FirstRefused(next, payloads[1..], now, n)
    requires next.config == s.config && next.started == s.started && next.phase == PhaseAfter(s.phase, payloads[0])
    requires |next.tx.outbox| == |s.tx.outbox| + NeedsOf(s, payloads[0], now)
    requires |next.tx.retrans.inFlight| == |s.tx.retrans.inFlight| + NeedsOf(s, payloads[0], now)
    ensures FirstRefused(s, payloads, now, n + 1)
  {
    hide RefusedAt, PhaseAfter, NeedsOf;
    RefusedLater(s, next, payloads, now, n);
    forall i: nat | i < n + 1
      ensures !RefusedAt(s, payloads, now, i)
    {
      if i > 0 {
        RefusedLater(s, next, payloads, now, i - 1);
      }
    }
  }

  /** The first answer refused is the first for which the condition holds. */
  lemma {:induction false} MetIsExact(s: State, payloads: seq<bytes>, inHand: seq<bytes>, now: nat, heard: set<u32>)
    requires TxInv(s.config, s.tx, heard) && Bounded(HandleAll(s, payloads, inHand, now).0.tx.log)
    ensures FirstRefused(s, payloads, now, Met(s, payloads, now))
    decreases |payloads|
  {
    if payloads != [] {
      var (next, handled) := Handle(s, payloads[0], now);
      assert Met(s, payloads, now) == if handled.Failure? then 0 else 1 + Met(next, payloads[1..], now);
      hide Met, Handle, HandleAll, RefusedAt, NeedsOf, TxInv, PhaseAfter, Bounded, FirstRefused, IsApp, InHandAfter;
      OneHandled(s, payloads, inHand, now, heard);
      if handled.Success? {
        MetIsExact(next, payloads[1..], InHandAfter(inHand, payloads[0]), now, heard);
        FirstRefusedLater(s, next, payloads, now, Met(next, payloads[1..], now));
      } else {
        RefusedAtOnce(s, payloads, now);
      }
    }
  }

  lemma RefusedAtOnce(s: State, payloads: seq<bytes>, now: nat)
    requires RefusedAt(s, payloads, now, 0)
    ensures FirstRefused(s, payloads, now, 0)
  {
    hide RefusedAt;
  }

  function InHandAfter(inHand: seq<bytes>, payload: bytes): seq<bytes> {
    if IsApp(payload) then inHand + [payload] else inHand
  }

  /** The first payload handled, for the induction above. */
  lemma OneHandled(s: State, payloads: seq<bytes>, inHand: seq<bytes>, now: nat, heard: set<u32>)
    requires payloads != [] && TxInv(s.config, s.tx, heard) && Bounded(HandleAll(s, payloads, inHand, now).0.tx.log)
    ensures var (next, handled) := Handle(s, payloads[0], now);
            && (handled.Failure? <==> RefusedAt(s, payloads, now, 0))
            && (handled.Success? ==>
                  && TxInv(next.config, next.tx, heard)
                  && Bounded(HandleAll(next, payloads[1..], InHandAfter(inHand, payloads[0]), now).0.tx.log)
                  && next.config == s.config && next.started == s.started && next.phase == PhaseAfter(s.phase, payloads[0])
                  && |next.tx.outbox| == |s.tx.outbox| + NeedsOf(s, payloads[0], now)
                  && |next.tx.retrans.inFlight| == |s.tx.retrans.inFlight| + NeedsOf(s, payloads[0], now))
  {
    var (next, handled) := Handle(s, payloads[0], now);
    FirstHandledIsBounded(s, payloads, inHand, now, heard);
    hide Handle, HandleAll, RefusedAt, NeedsOf, TxInv, SendKept, PhaseAfter, Bounded, IsApp, Asks;
    HandleIsExact(s, payloads[0], now, heard);
    HandleMoves(s, payloads[0], now);
    RefusedFirst(s, payloads, now);
    HandleKeeps(s, payloads[0], now, heard);
    KeptHolds(s.config, s.tx, next.tx, heard);
  }

  lemma FirstHandledIsBounded(s: State, payloads: seq<bytes>, inHand: seq<bytes>, now: nat, heard: set<u32>)
    requires payloads != [] && TxInv(s.config, s.tx, heard) && Bounded(HandleAll(s, payloads, inHand, now).0.tx.log)
    ensures var (next, handled) := Handle(s, payloads[0], now);
            && Bounded(next.tx.log)
            && (handled.Success? ==> Bounded(HandleAll(next, payloads[1..], InHandAfter(inHand, payloads[0]), now).0.tx.log))
  {
    var (next, handled) := Handle(s, payloads[0], now);
    var more := InHandAfter(inHand, payloads[0]);
    assert handled.Success? ==> HandleAll(s, payloads, inHand, now) == HandleAll(next, payloads[1..], more, now) by {
      assert handled.Success? ==> handled.value == if IsApp(payloads[0]) then Some(payloads[0]) else None by {
        AskingIsNotAnApp(s, payloads[0], now);
        hide SendStep, ReplyTo, IsApp, Asks;
      }
      hide Handle, IsApp;
    }
    hide Handle, TxInv;
    if handled.Success? {
      HandleAllGrows(next, payloads[1..], more, now);
    }
  }

  ghost predicate AnyRefused(s: State, payloads: seq<bytes>, now: nat) {
    exists i: nat :: RefusedAt(s, payloads, now, i)
  }

  /** Handling a list of released payloads fails exactly when the answer to one of them is refused. */
  lemma HandlingFailsWhenRefused(s: State, payloads: seq<bytes>, inHand: seq<bytes>, now: nat, heard: set<u32>)
    requires TxInv(s.config, s.tx, heard) && Bounded(HandleAll(s, payloads, inHand, now).0.tx.log)
    ensures HandleAll(s, payloads, inHand, now).1.Failure? <==> AnyRefused(s, payloads, now)
  {
    HandleAllMeets(s, payloads, inHand, now);
    MetIsExact(s, payloads, inHand, now, heard);
    hide HandleAll, TxInv, Met, PhaseAfterAll;
    if AnyRefused(s, payloads, now) {
      var i: nat :| RefusedAt(s, payloads, now, i);
      assert i < |payloads|;
    }
  }

  // What a call releases, and what it loses.

  lemma TakenIsSkipped(rx: Rx, log: SendLog, f: Frames.Frame, now: nat)
    requires RxCore(rx, log) && Known(f, log) && f.reliableIndex in rx.log.taken
    ensures TakeFrame(rx, f, now) == (Skipped(rx, f), Released([]))
  {
    Order.AcceptAnswers(rx.dedup, rx.log.taken, f.reliableIndex);
    assert f.reliability.IsReliable();
    hide Order.AcceptStep, Order.Remembers, Order.InOrder, Reassembly.Genuine, AllLocated, Place;
  }

  /** Once all frames of a payload have been taken, none of them releases or fails anything more. */
  lemma {:induction false} GroupIsDone(rx: Rx, log: SendLog, k: nat, frames: seq<Frames.Frame>, now: nat)
    requires RxCore(rx, log) && GoodLog(log) && Bounded(log) && AllKnown(frames, log, k) && GroupTaken(log, rx.log.taken, k)
    ensures var (end, ready, e) := TakeAll(rx, frames, now);
            && ready == [] && e.None?
            && end.log == rx.log.(late := end.log.late)
    decreases |frames|
  {
    if frames != [] {
      var f := frames[0];
      assert Known(f, log) && f.orderIndex == k && f.reliableIndex in rx.log.taken;
      TakenIsSkipped(rx, log, f, now);
      TakeFrameKeeps(rx, log, f, now);
      assert AllKnown(frames[1..], log, k);
      hide RxCore, GoodLog, Known, TakeFrame, Bounded, AllKnown, GroupTaken;
      GroupIsDone(Skipped(rx, f), log, k, frames[1..], now);
    }
  }

  /** What a call does: everything it releases is of one payload group, so all of it is in hand when an
      answer is refused, and lost. */
  ghost predicate CallIs(s: State, frames: seq<Frames.Frame>, now: nat) {
    var (rx, ready, e) := TakeAll(s.rx, frames, now);
    var answer := HandleAll(s, ready, [], now).1;
    var got, log := TakeFrames(s, frames, [], now).0.rx.log, s.rx.log;
    && got.released == log.released + ready
    && got.lost == log.lost + (if answer.Failure? then |AppOnly(ready)| else 0)
    && got.delivered == log.delivered
    && (e.Some? ==> ready == [])
  }

  lemma {:induction false} CallReleases(s: State, log: SendLog, k: nat, frames: seq<Frames.Frame>, now: nat)
    requires RxCore(s.rx, log) && GoodLog(log) && Bounded(log) && AllKnown(frames, log, k)
    ensures CallIs(s, frames, now)
    decreases |frames|
  {
    if frames == [] {
      assert s.rx.log.released + [] == s.rx.log.released;
    } else {
      assert Known(frames[0], log) && frames[0].orderIndex == k && AllKnown(frames[1..], log, k);
      TakeFrameKeeps(s.rx, log, frames[0], now);
      var (rx, outcome) := TakeFrame(s.rx, frames[0], now);
      hide RxCore, GoodLog, Known, TakeFrame, Bounded, AllKnown, GroupTaken, CallIs, Clean;
      if outcome.Failed? {
        FirstFails(s, frames, rx, outcome.e, now);
      } else if outcome.payloads == [] {
        CallReleases(s.(rx := rx), log, k, frames[1..], now);
        FirstReleasesNothing(s, frames, rx, now);
      } else {
        GroupIsDone(rx, log, k, frames[1..], now);
        FirstReleases(s, frames, rx, outcome.payloads, now);
      }
    }
  }

  lemma FirstFails(s: State, frames: seq<Frames.Frame>, rx: Rx, e: SessionError, now: nat)
    requires frames != [] && TakeFrame(s.rx, frames[0], now) == (rx, Failed(e)) && OnlyTakes(s.rx, rx, [])
    ensures CallIs(s, frames, now)
  {
    TakeFramesUnfolds(s, frames, [], now);
    assert TakeAll(s.rx, frames, now) == (rx, [], Some(e));
    hide TakeFrames, TakeFrame, TakeAll;
  }

  lemma FirstReleasesNothing(s: State, frames: seq<Frames.Frame>, rx: Rx, now: nat)
    requires frames != [] && TakeFrame(s.rx, frames[0], now) == (rx, Released([])) && OnlyTakes(s.rx, rx, [])
    requires CallIs(s.(rx := rx), frames[1..], now)
    ensures CallIs(s, frames, now)
  {
    AsIfNotThere(s, frames, rx, now);
    hide TakeFrames, TakeFrame, TakeAll, HandleAll;
    HandleAllIgnoresRx(s, rx, TakeAll(rx, frames[1..], now).1, [], now);
    assert s.rx.log.released + [] == s.rx.log.released;
    hide AppOnly;
  }

  lemma AsIfNotThere(s: State, frames: seq<Frames.Frame>, rx: Rx, now: nat)
    requires frames != [] && TakeFrame(s.rx, frames[0], now) == (rx, Released([]))
    ensures TakeAll(s.rx, frames, now) == TakeAll(rx, frames[1..], now)
    ensures TakeFrames(s, frames, [], now) == TakeFrames(s.(rx := rx), frames[1..], [], now)
  {
    var ready := TakeAll(rx, frames[1..], now).1;
    assert [] + ready == ready;
    assert HandleAll(s.(rx := rx), [], [], now) == (s.(rx := rx), Success([]));
    hide TakeFrame;
  }

  lemma FirstReleases(s: State, frames: seq<Frames.Frame>, rx: Rx, payloads: seq<bytes>, now: nat)
    requires frames != [] && TakeFrame(s.rx, frames[0], now) == (rx, Released(payloads)) && OnlyTakes(s.rx, rx, payloads)
    requires var (end, ready, e) := TakeAll(rx, frames[1..], now);
             ready == [] && e.None? && end.log == rx.log.(late := end.log.late)
    ensures CallIs(s, frames, now)
  {
    TakeFramesUnfolds(s, frames, [], now);
    var (end, ready, e) := TakeAll(rx, frames[1..], now);
    assert payloads + [] == payloads;
    assert TakeAll(s.rx, frames, now) == (end, payloads, None);
    var (next, handled) := HandleAll(s.(rx := rx), payloads, [], now);
    HandleAllIgnoresRx(s, rx, payloads, [], now);
    HandleAllGrows(s.(rx := rx), payloads, [], now);
    if handled.Success? {
      TakeFramesHandles(next, frames[1..], handled.value, now);
      assert HandleAll(next, [], handled.value, now) == (next, handled);
    }
    hide TakeFrames, TakeFrame, TakeAll, HandleAll, AppOnly;
  }

  predicate IsRefusal(e: SessionError) {
    e == OutboxFull || e == SessionClosed
  }

  lemma {:induction false} HandlingErrors(s: State, payloads: seq<bytes>, inHand: seq<bytes>, now: nat)
    ensures var result := HandleAll(s, payloads, inHand, now).1; result.Failure? ==> IsRefusal(result.error)
    decreases |payloads|
  {
    if payloads != [] {
      var (next, handled) := Handle(s, payloads[0], now);
      assert inHand + [] == inHand;
      assert handled.Failure? ==> IsRefusal(handled.error) by {
        hide SendFrames, ReplyTo, SpendSplitId;
      }
      hide Handle;
      if handled.Success? {
        HandlingErrors(next, payloads[1..], inHand + (if handled.value.Some? then [handled.value.value] else []), now);
      }
    }
  }

  lemma TakingError(rx: Rx, f: Frames.Frame, now: nat)
    ensures var outcome := TakeFrame(rx, f, now).1; outcome.Failed? ==> !IsRefusal(outcome.e)
  {
    hide Order.AcceptStep, Order.PushStep, Splits.PushStep;
  }

  lemma {:induction false} TakingErrors(rx: Rx, frames: seq<Frames.Frame>, now: nat)
    ensures var e := TakeAll(rx, frames, now).2; e.Some? ==> !IsRefusal(e.value)
    decreases |frames|
  {
    if frames != [] {
      var (after, outcome) := TakeFrame(rx, frames[0], now);
      TakingError(rx, frames[0], now);
      hide TakeFrame, IsRefusal;
      if outcome.Released? {
        TakingErrors(after, frames[1..], now);
      }
    }
  }

  /** One datagram of the peer's received. The call is refused exactly when the answer to one of the
      payloads it releases is; everything it releases is then lost, and otherwise all of it is handed
      over. */
  lemma ReceiveLosesWhatIsRefused(s: State, log: SendLog, q: u32, now: nat, heardByPeer: set<u32>)
    requires Sound(s, log, heardByPeer) && GoodLog(log) && Bounded(log) && q < |log.batches|
    requires Bounded(ReceiveFrameSet(s, q, log.batches[q], now).0.tx.log)
    ensures var (after, result) := ReceiveFrameSet(s, q, log.batches[q], now);
            var ready := TakeAll(Noted(s, q).rx, log.batches[q], now).1;
            var refused := AnyRefused(s, ready, now);
            && (refused <==> result.Failure? && IsRefusal(result.error))
            && after.rx.log.released == s.rx.log.released + ready
            && after.rx.log.lost == s.rx.log.lost + (if refused then |AppOnly(ready)| else 0)
            && after.rx.log.delivered == s.rx.log.delivered + (if refused then [] else AppOnly(ready))
  {
    hide TakeFrames, TakeAll, HandleAll, RxInv, RxCore, GoodLog, Bounded, AllKnown, TxInv, AppOnly, Handed;
    var frames, noted := log.batches[q], Noted(s, q);
    BatchIsKnown(log, q);
    NotedKeeps(s, log, q, frames[0].orderIndex);
    CallReleases(noted, log, frames[0].orderIndex, frames, now);
    TakeFramesHandles(noted, frames, [], now);
    var (rx, ready, e) := TakeAll(noted.rx, frames, now);
    var (end, result) := TakeFrames(noted, frames, [], now);
    var heard := noted.rx.log.received;
    assert Bounded(HandleAll(noted, ready, [], now).0.tx.log);
    HandlingFailsWhenRefused(noted, ready, [], now, heard);
    HandleAllKeeps(noted, ready, [], now, heard);
    HandlingErrors(noted, ready, [], now);
    TakingErrors(noted.rx, frames, now);
    NotingDoesNotMatter(s, noted, ready, now);
    assert [] + AppOnly(ready) == AppOnly(ready);
    assert s.rx.log.delivered + [] == s.rx.log.delivered;
    NothingIsNothing();
  }

  lemma NothingIsNothing()
    ensures AppOnly([]) == []
  {
  }

  /** Only the connection and the sending half decide what is refused. */
  lemma NotingDoesNotMatter(s: State, t: State, payloads: seq<bytes>, now: nat)
    requires t.config == s.config && t.started == s.started && t.phase == s.phase && t.tx == s.tx
    ensures AnyRefused(t, payloads, now) <==> AnyRefused(s, payloads, now)
  {
    hide Needs;
    forall i: nat
      ensures RefusedAt(t, payloads, now, i) <==> RefusedAt(s, payloads, now, i)
    {
      if i < |payloads| {
        SameNeeds(s, t, payloads[..i + 1], now);
      }
    }
    hide RefusedAt;
  }

  /** A call that releases an application payload and a ping together, with no room for the answer: the
      caller is handed nothing, and the application payload is released and gone. */
  lemma RefusedReplyLosesPayloads(s: State, log: SendLog, q: u32, now: nat, heardByPeer: set<u32>, app: bytes, ping: bytes)
    requires Sound(s, log, heardByPeer) && GoodLog(log) && Bounded(log) && q < |log.batches|
    requires Bounded(ReceiveFrameSet(s, q, log.batches[q], now).0.tx.log)
    requires TakeAll(Noted(s, q).rx, log.batches[q], now).1 == [app, ping] && IsApp(app) && Asks(ping)
    requires Capacity(s.config) > 0 && |s.tx.outbox| >= s.config.maxOutbox
    ensures var (after, result) := ReceiveFrameSet(s, q, log.batches[q], now);
            && result.Failure?
            && after.rx.log.released == s.rx.log.released + [app, ping]
            && after.rx.log.delivered == s.rx.log.delivered
            && after.rx.log.lost == s.rx.log.lost + 1
  {
    hide ReceiveFrameSet, TakeAll, AnyRefused, AppOnly, Sound, GoodLog, Bounded, Asks, IsApp, Capacity;
    ReceiveLosesWhatIsRefused(s, log, q, now, heardByPeer);
    PingIsRefused(s, app, ping, now);
    OneAppOfTwo(s, app, ping, now);
    assert s.rx.log.delivered + [] == s.rx.log.delivered;
  }

  lemma OneAppOfTwo(s: State, app: bytes, ping: bytes, now: nat)
    requires IsApp(app) && Asks(ping)
    ensures AppOnly([app, ping]) == [app]
  {
    AppOnlyOfOne(app);
    AppOnlyOfOne(ping);
    AppOnlyJoins([app], [ping]);
    AskingIsNotAnApp(s, ping, now);
    hide AppOnly, IsApp, Asks;
    assert [app] + [ping] == [app, ping] && [app] + [] == [app];
  }

  lemma PingIsRefused(s: State, app: bytes, ping: bytes, now: nat)
    requires IsApp(app) && Asks(ping) && Capacity(s.config) > 0 && |s.tx.outbox| >= s.config.maxOutbox
    ensures AnyRefused(s, [app, ping], now)
  {
    var both := [app, ping];
    AskingIsNotAnApp(s, app, now);
    AskingIsNotAnApp(s, ping, now);
    var reply := ReplyTo(s, ping, now).value;
    FragmentsFit(s.config, 0, reply);
    assert NeedsOf(s, ping, now) >= 1 by {
      hide Splits.SplitStep, Capacity;
    }
    assert both[..2] == both && both[1..] == [ping];
    var none: seq<bytes> := both[1..][1..];
    assert none == [];
    hide NeedsOf, ReplyTo, Asks, IsApp, Capacity;
    assert Needs(s, both, now) >= NeedsOf(s, ping, now);
    assert RefusedAt(s, both, now, 1);
  }
}
