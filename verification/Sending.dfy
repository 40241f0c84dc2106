/** What `send` does: all of a payload is queued and tracked, or none of it. */
module Sending {
  import opened Integers
  import opened Wrappers
  import opened Datagrams
  import opened SessionSpec
  import Frames
  import Splits
  import Retransmit

  function Flatten(batches: seq<seq<Frames.Frame>>): seq<Frames.Frame> {
    if batches == [] then [] else batches[0] + Flatten(batches[1..])
  }

  /** Packing loses, repeats and reorders no frame, and cuts no empty batch. */
  lemma {:induction false} PackingKeepsEveryFrame(frames: seq<Frames.Frame>, budget: nat, batch: seq<Frames.Frame>, used: nat)
    ensures Flatten(Pack(frames, budget, batch, used)) == batch + frames
    ensures forall b :: b in Pack(frames, budget, batch, used) ==> b != []
    decreases |frames|
  {
    if frames == [] {
      assert Flatten([batch]) == batch by {
        assert [batch][1..] == [];
      }
      assert batch + [] == batch;
    } else {
      HeadTail(frames);
      var size := Frames.EncodedLen(frames[0]);
      if batch != [] && used + size > budget {
        PackingKeepsEveryFrame(frames[1..], budget, [frames[0]], size);
        var rest := Pack(frames[1..], budget, [frames[0]], size);
        assert ([batch] + rest)[1..] == rest;
      } else {
        PackingKeepsEveryFrame(frames[1..], budget, batch + [frames[0]], used + size);
        Assoc(batch, [frames[0]], frames[1..]);
      }
    }
  }

  ghost predicate AllFit(batches: seq<seq<Frames.Frame>>, budget: nat) {
    forall i :: 0 <= i < |batches| ==> |FramesBytes(batches[i])| <= budget
  }

  lemma OneMoreFits(batch: seq<Frames.Frame>, rest: seq<seq<Frames.Frame>>, budget: nat)
    requires |FramesBytes(batch)| <= budget && AllFit(rest, budget)
    ensures AllFit([batch] + rest, budget)
  {
  }

  lemma BatchGrowth(batch: seq<Frames.Frame>, f: Frames.Frame)
    ensures |FramesBytes(batch + [f])| == |FramesBytes(batch)| + Frames.EncodedLen(f)
    ensures |FramesBytes([f])| == Frames.EncodedLen(f) && FramesBytes([]) == []
  {
    FramesAppend(batch, f);
    FramesAppend([], f);
    assert [] + [f] == [f];
  }

  lemma PackUnfolds(frames: seq<Frames.Frame>, budget: nat, batch: seq<Frames.Frame>, used: nat)
    requires frames != []
    ensures var size := Frames.EncodedLen(frames[0]);
            Pack(frames, budget, batch, used)
            == if batch != [] && used + size > budget then [batch] + Pack(frames[1..], budget, [frames[0]], size)
            else Pack(frames[1..], budget, batch + [frames[0]], used + size)
  {
    hide Frames.EncodedLen;
  }

  ghost predicate EachFits(frames: seq<Frames.Frame>, budget: nat) {
    forall i :: 0 <= i < |frames| ==> Frames.EncodedLen(frames[i]) <= budget
  }

  lemma FrontFits(frames: seq<Frames.Frame>, budget: nat)
    requires EachFits(frames, budget) && frames != []
    ensures Frames.EncodedLen(frames[0]) <= budget && EachFits(frames[1..], budget)
  {
    hide Frames.EncodedLen;
  }

  lemma PackEnds(budget: nat, batch: seq<Frames.Frame>, used: nat)
    requires |FramesBytes(batch)| <= budget
    ensures AllFit(Pack([], budget, batch, used), budget)
  {
  }

  /** No batch outgrows the datagram, as long as no single frame does. */
  lemma {:induction false} PackingFits(frames: seq<Frames.Frame>, budget: nat, batch: seq<Frames.Frame>, used: nat)
    requires EachFits(frames, budget)
    requires used == |FramesBytes(batch)| <= budget
    ensures AllFit(Pack(frames, budget, batch, used), budget)
    decreases |frames|
  {
    hide FramesBytes, Frames.EncodedLen, AllFit, EachFits, Pack;
    if frames == [] {
      PackEnds(budget, batch, used);
      return;
    }
    var f, tail := frames[0], frames[1..];
    var size := Frames.EncodedLen(f);
    FrontFits(frames, budget);
    BatchGrowth(batch, f);
    PackUnfolds(frames, budget, batch, used);
    if batch != [] && used + size > budget {
      PackingFits(tail, budget, [f], size);
      OneMoreFits(batch, Pack(tail, budget, [f], size), budget);
    } else {
      PackingFits(tail, budget, batch + [f], used + size);
    }
  }

  /** A batch ends only where the next frame would not have fit. */
  ghost predicate Tight(batches: seq<seq<Frames.Frame>>, budget: nat) {
    forall i :: 0 < i < |batches| ==> batches[i] != [] && |FramesBytes(batches[i - 1])| + Frames.EncodedLen(batches[i][0]) > budget
  }

  lemma TightBefore(batch: seq<Frames.Frame>, rest: seq<seq<Frames.Frame>>, budget: nat)
    requires Tight(rest, budget) && rest != [] && rest[0] != []
    requires |FramesBytes(batch)| + Frames.EncodedLen(rest[0][0]) > budget
    ensures Tight([batch] + rest, budget)
  {
    var all := [batch] + rest;
    forall i | 0 < i < |all|
      ensures all[i] != [] && |FramesBytes(all[i - 1])| + Frames.EncodedLen(all[i][0]) > budget
    {
      if i > 1 {
        assert all[i] == rest[i - 1] && all[i - 1] == rest[i - 2];
      }
    }
    hide FramesBytes, Frames.EncodedLen;
  }

  lemma PackedNothing(budget: nat, batch: seq<Frames.Frame>, used: nat)
    ensures var out := Pack([], budget, batch, used);
            Tight(out, budget) && (batch != [] ==> out == [batch])
  {
  }

  /** No datagram is cut short: whatever the frames, each batch but the last is as full as the next frame
      lets it be. */
  lemma {:induction false} PackingIsTight(frames: seq<Frames.Frame>, budget: nat, batch: seq<Frames.Frame>, used: nat)
    requires used == |FramesBytes(batch)|
    ensures var out := Pack(frames, budget, batch, used);
            && Tight(out, budget)
            && (batch != [] ==> out != [] && batch <= out[0])
    decreases |frames|
  {
    hide FramesBytes, Frames.EncodedLen, Tight, Pack;
    if frames == [] {
      PackedNothing(budget, batch, used);
      return;
    }
    var f, tail := frames[0], frames[1..];
    var size := Frames.EncodedLen(f);
    BatchGrowth(batch, f);
    PackUnfolds(frames, budget, batch, used);
    if batch != [] && used + size > budget {
      PackingIsTight(tail, budget, [f], size);
      TightBefore(batch, Pack(tail, budget, [f], size), budget);
    } else {
      PackingIsTight(tail, budget, batch + [f], used + size);
    }
  }

  /** A full fragment by itself fills its datagram to the last byte of the limit, unless the length field
      sets a lower one; with 24 bytes or less there is no room for any. */
  lemma FragmentsFillTheLimit(config: Config)
    ensures var capacity := Capacity(config);
            && (config.payloadLimit <= 24 ==> capacity == 0)
            && (24 < config.payloadLimit <= 24 + 8191 ==> 4 + 20 + capacity == config.payloadLimit)
            && (config.payloadLimit > 24 + 8191 ==> capacity == 8191)
            && (config.payloadLimit >= 4 ==> |DatagramBytes(FrameSet(0, []))| + Budget(config) == config.payloadLimit)
            && Frames.HeaderLen(Frames.ReliableOrdered, true) == 20
  {
  }

  /** The datagrams of consecutive batches. */
  function DatagramsOf(sequence: nat, batches: seq<seq<Frames.Frame>>): (datagrams: seq<bytes>)
    ensures |datagrams| == |batches|
  {
    seq(|batches|, i requires 0 <= i < |batches| => DatagramBytes(FrameSet((sequence + i) % TWO_32, batches[i])))
  }

  function SequenceOf(tx: Tx, i: nat): u32 {
    (tx.nextSequence + i) % TWO_32
  }

  lemma SequenceShift(tx: Tx, next: Tx, i: nat)
    requires next.nextSequence == SequenceOf(tx, 1)
    ensures SequenceOf(next, i) == SequenceOf(tx, i + 1)
  {
  }

  /** An entry of the table after flushing: as before, or one of the datagrams just flushed. */
  ghost predicate TrackedFrom(before: Retransmit.Table, tx: Tx, batches: seq<seq<Frames.Frame>>, now: nat, k: u32, e: Retransmit.InFlight) {
    || (k in before && before[k] == e)
    || exists i: nat :: i < |batches| && k == SequenceOf(tx, i)
                        && e == Retransmit.InFlight(DatagramsOf(tx.nextSequence, batches)[i], now, 0)
  }

  /** Flushing queues each batch once, under consecutive sequence numbers. */
  lemma {:induction false} FlushingQueues(tx: Tx, batches: seq<seq<Frames.Frame>>, now: nat)
    requires |tx.retrans.inFlight| + |batches| <= tx.retrans.limits.maxInFlight
    ensures var after := FlushAll(tx, batches, now);
            && after.outbox == tx.outbox + DatagramsOf(tx.nextSequence, batches)
            && after.nextSequence == SequenceOf(tx, |batches|)
            && after.log == tx.log.(batches := tx.log.batches + batches)
            && (after.nextReliable, after.nextOrder, after.nextSplitId) == (tx.nextReliable, tx.nextOrder, tx.nextSplitId)
            && after.retrans == tx.retrans.(inFlight := after.retrans.inFlight)
            && |after.retrans.inFlight| <= |tx.retrans.inFlight| + |batches|
    decreases |batches|
  {
    if batches == [] {
      assert tx.outbox + [] == tx.outbox && tx.log.batches + [] == tx.log.batches;
    } else {
      var next, rest := FlushStep(tx, batches[0], now), batches[1..];
      FlushingQueues(next, rest, now);
      FlushSplits(tx, batches, now);
      SequenceShift(tx, next, |rest|);
      assert FlushAll(tx, batches, now) == FlushAll(next, rest, now);
      hide FlushStep, FlushAll, DatagramsOf, SequenceOf;
    }
  }

  /** Flushing takes nothing out of the table. */
  lemma {:induction false} FlushingKeeps(tx: Tx, batches: seq<seq<Frames.Frame>>, now: nat)
    requires |tx.retrans.inFlight| + |batches| <= tx.retrans.limits.maxInFlight
    ensures tx.retrans.inFlight.Keys <= FlushAll(tx, batches, now).retrans.inFlight.Keys
    decreases |batches|
  {
    if batches != [] {
      var next := FlushStep(tx, batches[0], now);
      assert FlushAll(tx, batches, now) == FlushAll(next, batches[1..], now);
      FlushSplits(tx, batches, now);
      hide FlushStep, FlushAll, DatagramsOf, SequenceOf;
      FlushingKeeps(next, batches[1..], now);
    }
  }

  /** It puts each of the datagrams there. */
  lemma {:induction false} FlushingAdds(tx: Tx, batches: seq<seq<Frames.Frame>>, now: nat, i: nat)
    requires |tx.retrans.inFlight| + |batches| <= tx.retrans.limits.maxInFlight && i < |batches|
    ensures SequenceOf(tx, i) in FlushAll(tx, batches, now).retrans.inFlight
    decreases |batches|
  {
    var next, rest := FlushStep(tx, batches[0], now), batches[1..];
    assert FlushAll(tx, batches, now) == FlushAll(next, rest, now);
    FlushSplits(tx, batches, now);
    hide FlushStep, FlushAll, DatagramsOf, SequenceOf;
    if i == 0 {
      FlushingKeeps(next, rest, now);
    } else {
      FlushingAdds(next, rest, now, i - 1);
      SequenceShift(tx, next, i - 1);
    }
  }

  /** And nothing else. */
  lemma {:induction false} FlushingAddsOnly(tx: Tx, batches: seq<seq<Frames.Frame>>, now: nat, k: u32)
    requires |tx.retrans.inFlight| + |batches| <= tx.retrans.limits.maxInFlight
    requires k in FlushAll(tx, batches, now).retrans.inFlight
    ensures TrackedFrom(tx.retrans.inFlight, tx, batches, now, k, FlushAll(tx, batches, now).retrans.inFlight[k])
    decreases |batches|
  {
    if batches != [] {
      var next, rest := FlushStep(tx, batches[0], now), batches[1..];
      var after := FlushAll(tx, batches, now);
      assert after == FlushAll(next, rest, now);
      FlushSplits(tx, batches, now);
      hide FlushStep, FlushAll, DatagramsOf, SequenceOf, TrackedFrom;
      FlushingAddsOnly(next, rest, now, k);
      TrackedLater(tx, next, batches, now, k, after.retrans.inFlight[k]);
    }
  }

  /** Flushing tracks each datagram: the table is as before, and they. */
  lemma FlushingTracks(tx: Tx, batches: seq<seq<Frames.Frame>>, now: nat)
    requires |tx.retrans.inFlight| + |batches| <= tx.retrans.limits.maxInFlight
    ensures var after := FlushAll(tx, batches, now);
            && (forall i: nat :: i < |batches| ==> SequenceOf(tx, i) in after.retrans.inFlight)
            && (forall k :: k in tx.retrans.inFlight ==> k in after.retrans.inFlight)
            && (forall k :: k in after.retrans.inFlight ==>
                              TrackedFrom(tx.retrans.inFlight, tx, batches, now, k, after.retrans.inFlight[k]))
  {
    hide FlushAll, SequenceOf, TrackedFrom;
    var after := FlushAll(tx, batches, now);
    FlushingKeeps(tx, batches, now);
    forall i: nat | i < |batches|
      ensures SequenceOf(tx, i) in after.retrans.inFlight
    {
      FlushingAdds(tx, batches, now, i);
    }
    forall k | k in after.retrans.inFlight
      ensures TrackedFrom(tx.retrans.inFlight, tx, batches, now, k, after.retrans.inFlight[k])
    {
      FlushingAddsOnly(tx, batches, now, k);
    }
  }

  lemma TrackedLater(tx: Tx, next: Tx, batches: seq<seq<Frames.Frame>>, now: nat, k: u32, e: Retransmit.InFlight)
    requires batches != [] && next.nextSequence == SequenceOf(tx, 1)
    requires next.retrans.inFlight == tx.retrans.inFlight[tx.nextSequence := Retransmit.InFlight(DatagramsOf(tx.nextSequence, batches)[0], now, 0)]
    requires forall i: nat :: i < |batches| - 1 ==> DatagramsOf(next.nextSequence, batches[1..])[i] == DatagramsOf(tx.nextSequence, batches)[i + 1]
    requires TrackedFrom(next.retrans.inFlight, next, batches[1..], now, k, e)
    ensures TrackedFrom(tx.retrans.inFlight, tx, batches, now, k, e)
  {
    hide DatagramsOf;
    if k in next.retrans.inFlight && next.retrans.inFlight[k] == e {
      if !(k in tx.retrans.inFlight && tx.retrans.inFlight[k] == e) {
        assert k == SequenceOf(tx, 0);
      }
    } else {
      var i: nat :| i < |batches| - 1 && k == SequenceOf(next, i)
                    && e == Retransmit.InFlight(DatagramsOf(next.nextSequence, batches[1..])[i], now, 0);
      SequenceShift(tx, next, i);
    }
  }

  lemma FlushSplits(tx: Tx, batches: seq<seq<Frames.Frame>>, now: nat)
    requires batches != [] && |tx.retrans.inFlight| < tx.retrans.limits.maxInFlight
    ensures var next := FlushStep(tx, batches[0], now);
            && next.nextSequence == SequenceOf(tx, 1)
            && tx.nextSequence == SequenceOf(tx, 0)
            && next.retrans == tx.retrans.(inFlight :=
                               tx.retrans.inFlight[tx.nextSequence := Retransmit.InFlight(DatagramsOf(tx.nextSequence, batches)[0], now, 0)])
            && tx.outbox + DatagramsOf(tx.nextSequence, batches) == next.outbox + DatagramsOf(next.nextSequence, batches[1..])
            && tx.log.batches + batches == next.log.batches + batches[1..]
            && next.log == tx.log.(batches := next.log.batches)
            && (next.nextReliable, next.nextOrder, next.nextSplitId) == (tx.nextReliable, tx.nextOrder, tx.nextSplitId)
            && (forall i: nat :: i < |batches| - 1 ==> DatagramsOf(next.nextSequence, batches[1..])[i] == DatagramsOf(tx.nextSequence, batches)[i + 1])
  {
    var next := FlushStep(tx, batches[0], now);
    var all, rest := DatagramsOf(tx.nextSequence, batches), DatagramsOf(next.nextSequence, batches[1..]);
    OneFlushed(tx, batches, now);
    DatagramsShift(tx.nextSequence, next.nextSequence, batches);
    hide FlushStep, DatagramsOf, DatagramBytes, TWO_32;
    Assoc(tx.outbox, [all[0]], rest);
    HeadTail(batches);
    Assoc(tx.log.batches, [batches[0]], batches[1..]);
  }

  lemma OneFlushed(tx: Tx, batches: seq<seq<Frames.Frame>>, now: nat)
    requires batches != [] && |tx.retrans.inFlight| < tx.retrans.limits.maxInFlight
    ensures var next, first := FlushStep(tx, batches[0], now), DatagramsOf(tx.nextSequence, batches)[0];
            && next.nextSequence == SequenceOf(tx, 1) == (tx.nextSequence + 1) % TWO_32 && tx.nextSequence == SequenceOf(tx, 0)
            && next == tx.(nextSequence := next.nextSequence,
                       retrans := tx.retrans.(inFlight := tx.retrans.inFlight[tx.nextSequence := Retransmit.InFlight(first, now, 0)]),
                       outbox := tx.outbox + [first],
                       log := tx.log.(batches := tx.log.batches + [batches[0]]))
  {
    hide DatagramBytes;
  }

  lemma DatagramsShift(sequence: u32, next: u32, batches: seq<seq<Frames.Frame>>)
    requires batches != [] && next == (sequence + 1) % TWO_32
    ensures var all, rest := DatagramsOf(sequence, batches), DatagramsOf(next, batches[1..]);
            && all == [all[0]] + rest
            && forall i: nat :: i < |batches| - 1 ==> rest[i] == all[i + 1]
  {
    hide DatagramBytes;
    var all, rest := DatagramsOf(sequence, batches), DatagramsOf(next, batches[1..]);
    forall i: nat | i < |batches| - 1
      ensures rest[i] == all[i + 1]
    {
      assert (next + i) % TWO_32 == (sequence + (i + 1)) % TWO_32;
    }
  }

  /** Every frame the splitter cuts fits a datagram of the configured size by itself and states its
      length exactly. */
  lemma FragmentsFit(config: Config, nextId: u16, payload: bytes)
    requires Capacity(config) > 0
    ensures var frames := Splits.SplitStep(nextId, payload, Capacity(config)).0;
            && frames != []
            && forall f :: f in frames ==> Frames.EncodedLen(f) <= Budget(config) && |f.payload| <= Frames.MAX_FRAME_PAYLOAD
  {
    var capacity := Capacity(config);
    Splits.ChunksAreThePayload(payload, capacity);
    var frames := Splits.SplitStep(nextId, payload, capacity).0;
    hide Splits.Chunks, Splits.Concat;
    forall f | f in frames
      ensures |f.payload| <= capacity && f.reliability == Frames.ReliableOrdered
    {
    }
  }

  lemma DatagramSize(sequence: u32, batch: seq<Frames.Frame>)
    ensures |DatagramBytes(FrameSet(sequence, batch))| == DATAGRAM_HEADER_LEN + |FramesBytes(batch)|
  {
  }

  lemma PackedFits(config: Config, tx: Tx, nextId: u16, payload: bytes, frames: seq<Frames.Frame>)
    requires Capacity(config) > 0 && frames == Splits.SplitStep(nextId, payload, Capacity(config)).0
    ensures AllFit(Batches(config, tx, frames), Budget(config))
  {
    FragmentsFit(config, nextId, payload);
    hide Splits.SplitStep, Capacity, Budget, AllFit;
    var numbered := Numbered(frames, tx.nextReliable, tx.nextOrder);
    forall i | 0 <= i < |numbered|
      ensures Frames.EncodedLen(numbered[i]) <= Budget(config)
    {
      assert frames[i] in frames;
    }
    PackingFits(numbered, Budget(config), [], 0);
  }

  lemma DatagramsFit(sequence: nat, batches: seq<seq<Frames.Frame>>, limit: nat)
    requires limit >= DATAGRAM_HEADER_LEN && AllFit(batches, limit - DATAGRAM_HEADER_LEN)
    ensures var datagrams := DatagramsOf(sequence, batches);
            forall i :: 0 <= i < |datagrams| ==> |datagrams[i]| <= limit
  {
    hide DatagramBytes, FramesBytes;
    forall i | 0 <= i < |batches|
      ensures |DatagramsOf(sequence, batches)[i]| <= limit
    {
      DatagramSize((sequence + i) % TWO_32, batches[i]);
    }
  }

  lemma BatchesFit(config: Config, tx: Tx, nextId: u16, payload: bytes, frames: seq<Frames.Frame>)
    requires Capacity(config) > 0 && frames == Splits.SplitStep(nextId, payload, Capacity(config)).0
    ensures var datagrams := DatagramsOf(tx.nextSequence, Batches(config, tx, frames));
            forall i :: 0 <= i < |datagrams| ==> |datagrams[i]| <= config.payloadLimit
  {
    PackedFits(config, tx, nextId, payload, frames);
    hide Batches, AllFit, DatagramsOf, Splits.SplitStep;
    DatagramsFit(tx.nextSequence, Batches(config, tx, frames), config.payloadLimit);
  }

  lemma AcceptedIsQueued(config: Config, tx: Tx, nextId: u16, payload: bytes, splitId: Option<u16>, now: nat)
    requires tx.retrans.limits == config.retransmit && (splitId.Some? ==> Capacity(config) > 0)
    requires var frames := Splits.SplitStep(nextId, payload, Capacity(config)).0; !Refused(config, tx, frames)
    ensures var frames := Splits.SplitStep(nextId, payload, Capacity(config)).0;
            var needed := DatagramsNeeded(frames, Budget(config), 0);
            var after := SendFrames(config, tx, payload, frames, splitId, now).0;
            Queued(config, tx, after, needed) && NumbersMove(tx, after, needed, |frames|)
  {
    hide FlushAll, DatagramsOf, Batches, Splits.SplitStep, DatagramsNeeded, SequenceOf, TrackedFrom, Capacity, Logged;
    var frames := Splits.SplitStep(nextId, payload, Capacity(config)).0;
    var batches := Batches(config, tx, frames);
    FlushingQueues(tx, batches, now);
    FlushingTracks(tx, batches, now);
    if Capacity(config) > 0 {
      BatchesFit(config, tx, nextId, payload, frames);
    }
    var queued := FlushAll(tx, batches, now);
    assert forall i :: |tx.outbox| <= i < |queued.outbox| ==>
                         queued.outbox[i] == DatagramsOf(tx.nextSequence, batches)[i - |tx.outbox|];
  }

  /** `send` is all or nothing. Refused, it changes nothing but the split id it spent; accepted, it
      queues exactly the reserved number of datagrams, each within the payload limit, and tracks each
      of them under its own sequence number. */
  lemma SendIsAllOrNothing(config: Config, phase: Phase, tx: Tx, payload: bytes, now: nat)
    requires tx.retrans.limits == config.retransmit
    ensures var (after, result) := SendStep(config, phase, tx, payload, now);
            var frames := Splits.SplitStep(tx.nextSplitId, payload, Capacity(config)).0;
            var needed := DatagramsNeeded(frames, Budget(config), 0);
            && (result.Failure? <==> phase.Finished? || |tx.outbox| + needed > config.maxOutbox
                                     || |tx.retrans.inFlight| + needed > config.retransmit.maxInFlight)
            && (result.Failure? ==> after == tx.(nextSplitId := after.nextSplitId, log := tx.log.(splits := after.log.splits)))
            && (result.Success? ==> Queued(config, tx, after, needed) && NumbersMove(tx, after, needed, |frames|))
  {
    SendAnswers(config, phase, tx, payload, now);
    hide SendStep, DatagramsNeeded, Splits.SplitStep, Capacity, Budget, Queued, NumbersMove;
    if SendStep(config, phase, tx, payload, now).1.Success? {
      AcceptedSend(config, phase, tx, payload, now);
    }
  }

  lemma SendAnswers(config: Config, phase: Phase, tx: Tx, payload: bytes, now: nat)
    requires tx.retrans.limits == config.retransmit
    ensures var (after, result) := SendStep(config, phase, tx, payload, now);
            var frames := Splits.SplitStep(tx.nextSplitId, payload, Capacity(config)).0;
            var needed := DatagramsNeeded(frames, Budget(config), 0);
            && (result.Failure? <==> phase.Finished? || |tx.outbox| + needed > config.maxOutbox
                                     || |tx.retrans.inFlight| + needed > config.retransmit.maxInFlight)
            && (result.Failure? ==> after == tx.(nextSplitId := after.nextSplitId, log := tx.log.(splits := after.log.splits)))
  {
    hide FlushAll, Splits.SplitStep, DatagramsNeeded, Capacity, Logged;
  }

  lemma AcceptedSend(config: Config, phase: Phase, tx: Tx, payload: bytes, now: nat)
    requires tx.retrans.limits == config.retransmit && SendStep(config, phase, tx, payload, now).1.Success?
    ensures var after := SendStep(config, phase, tx, payload, now).0;
            var frames := Splits.SplitStep(tx.nextSplitId, payload, Capacity(config)).0;
            var needed := DatagramsNeeded(frames, Budget(config), 0);
            Queued(config, tx, after, needed) && NumbersMove(tx, after, needed, |frames|)
  {
    hide FlushAll, Splits.SplitStep, DatagramsNeeded, Capacity, Logged;
    var frames := Splits.SplitStep(tx.nextSplitId, payload, Capacity(config)).0;
    var spent := SpendSplitId(config, tx, payload);
    var splitId := if IsSplit(payload, Capacity(config)) then Some(tx.nextSplitId) else None;
    assert SendStep(config, phase, tx, payload, now).0 == SendFrames(config, spent, payload, frames, splitId, now).0;
    AcceptedIsQueued(config, spent, tx.nextSplitId, payload, splitId, now);
    assert forall i: nat :: SequenceOf(spent, i) == SequenceOf(tx, i);
    hide SendStep, SendFrames;
  }

  ghost predicate Queued(config: Config, tx: Tx, after: Tx, needed: nat) {
    && |after.outbox| == |tx.outbox| + needed <= config.maxOutbox
    && tx.outbox <= after.outbox
    && (Capacity(config) > 0 ==> forall i :: |tx.outbox| <= i < |after.outbox| ==> |after.outbox[i]| <= config.payloadLimit)
    && (forall i: nat :: i < needed ==> SequenceOf(tx, i) in after.retrans.inFlight)
    && (forall k :: k in tx.retrans.inFlight ==> k in after.retrans.inFlight)
    && |after.retrans.inFlight| <= config.retransmit.maxInFlight
  }

  ghost predicate NumbersMove(tx: Tx, after: Tx, datagrams: nat, frames: nat) {
    && after.nextSequence == SequenceOf(tx, datagrams)
    && after.nextReliable == (tx.nextReliable + frames) % TWO_32
    && after.nextOrder == (tx.nextOrder + 1) % TWO_32
  }
}
