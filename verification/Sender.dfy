/** The sending half of an endpoint: what every `send` keeps. */
module Sender {
  import opened Integers
  import opened Wrappers
  import opened Datagrams
  import opened SessionSpec
  import opened Sending
  import opened SendHistory
  import Frames
  import Splits
  import Retransmit

  /** The datagram is the frame set sent under sequence q. */
  ghost predicate IsBatch(d: bytes, log: SendLog, q: nat) {
    q < |log.batches| && d == DatagramBytes(FrameSet(q % TWO_32, log.batches[q]))
  }

  /** The datagram acknowledges only datagrams this end has heard. */
  ghost predicate IsAck(d: bytes, ranges: seq<Range>, heard: set<u32>) {
    && d == DatagramBytes(Ack(ranges))
    && (forall i :: 0 <= i < |ranges| ==> ranges[i].start <= ranges[i].end < TWO_24)
    && (forall s: nat :: Contains(ranges, s) ==> s in heard)
  }

  /** Everything an endpoint ever puts on the wire. */
  ghost predicate Emitted(d: bytes, log: SendLog, heard: set<u32>) {
    (exists q: nat :: IsBatch(d, log, q)) || (exists ranges :: IsAck(d, ranges, heard))
  }

  ghost predicate AllEmitted(datagrams: seq<bytes>, log: SendLog, heard: set<u32>) {
    forall i :: 0 <= i < |datagrams| ==> Emitted(datagrams[i], log, heard)
  }

  /** What is in flight is what was sent under that sequence. */
  ghost predicate TracksBatches(table: Retransmit.Table, log: SendLog) {
    forall k :: k in table ==> IsBatch(table[k].datagram, log, k)
  }

  ghost predicate Counts(tx: Tx) {
    && tx.nextSequence == |tx.log.batches| % TWO_32
    && tx.nextReliable == |tx.log.frames| % TWO_32
    && tx.nextOrder == |tx.log.accepted| % TWO_32
    && tx.nextSplitId == tx.log.splits % TWO_16
  }

  /** Every payload was cut into frames, or, with no room for a fragment, none ever was. */
  ghost predicate Cut(config: Config, log: SendLog) {
    if Capacity(config) > 0 then Framed(log) else log.frames == []
  }

  ghost predicate TxInv(config: Config, tx: Tx, heard: set<u32>) {
    && GoodLog(tx.log) && Carried(tx.log)
    && Cut(config, tx.log)
    && Counts(tx)
    && tx.retrans.limits == config.retransmit
    && AllEmitted(tx.outbox, tx.log, heard)
    && TracksBatches(tx.retrans.inFlight, tx.log)
  }

  lemma BatchStays(d: bytes, a: SendLog, b: SendLog, q: nat)
    requires IsBatch(d, a, q) && Extends(a, b)
    ensures IsBatch(d, b, q)
  {
  }

  lemma EmittedStays(d: bytes, a: SendLog, b: SendLog, heard: set<u32>, later: set<u32>)
    requires Emitted(d, a, heard) && Extends(a, b) && heard <= later
    ensures Emitted(d, b, later)
  {
    if q: nat :| IsBatch(d, a, q) {
      BatchStays(d, a, b, q);
    } else {
      var ranges :| IsAck(d, ranges, heard);
      assert IsAck(d, ranges, later);
    }
  }

  lemma AllEmittedStays(datagrams: seq<bytes>, a: SendLog, b: SendLog, heard: set<u32>, later: set<u32>)
    requires AllEmitted(datagrams, a, heard) && Extends(a, b) && heard <= later
    ensures AllEmitted(datagrams, b, later)
  {
    hide Extends, Emitted;
    forall i | 0 <= i < |datagrams|
      ensures Emitted(datagrams[i], b, later)
    {
      EmittedStays(datagrams[i], a, b, heard, later);
    }
  }

  lemma TracksStays(table: Retransmit.Table, a: SendLog, b: SendLog)
    requires TracksBatches(table, a) && Extends(a, b)
    ensures TracksBatches(table, b)
  {
    hide Extends, IsBatch;
    forall k | k in table
      ensures IsBatch(table[k].datagram, b, k)
    {
      BatchStays(table[k].datagram, a, b, k);
    }
  }

  /** The invariant survives hearing more. */
  lemma HearingKeeps(config: Config, tx: Tx, heard: set<u32>, later: set<u32>)
    requires TxInv(config, tx, heard) && heard <= later
    ensures TxInv(config, tx, later)
  {
    ExtendsItself(tx.log);
    AllEmittedStays(tx.outbox, tx.log, tx.log, heard, later);
  }

  // One `send`.

  lemma FlushedIsBatch(tx: Tx, batches: seq<seq<Frames.Frame>>, log: SendLog, i: nat)
    requires tx.nextSequence == |tx.log.batches| % TWO_32 && i < |batches|
    requires log.batches == tx.log.batches + batches && |log.batches| <= TWO_24
    ensures SequenceOf(tx, i) == |tx.log.batches| + i
    ensures IsBatch(DatagramsOf(tx.nextSequence, batches)[i], log, |tx.log.batches| + i)
  {
    hide DatagramBytes;
  }

  lemma FlushedAreEmitted(tx: Tx, batches: seq<seq<Frames.Frame>>, log: SendLog, heard: set<u32>)
    requires AllEmitted(tx.outbox, tx.log, heard) && Extends(tx.log, log)
    requires tx.nextSequence == |tx.log.batches| % TWO_32
    requires log.batches == tx.log.batches + batches && |log.batches| <= TWO_24
    ensures AllEmitted(tx.outbox + DatagramsOf(tx.nextSequence, batches), log, heard)
  {
    AllEmittedStays(tx.outbox, tx.log, log, heard, heard);
    hide DatagramsOf, IsBatch, Extends;
    var out := DatagramsOf(tx.nextSequence, batches);
    forall i | 0 <= i < |out|
      ensures Emitted(out[i], log, heard)
    {
      FlushedIsBatch(tx, batches, log, i);
    }
  }

  lemma TrackedIsBatch(tx: Tx, batches: seq<seq<Frames.Frame>>, log: SendLog, now: nat, k: u32, e: Retransmit.InFlight)
    requires TrackedFrom(tx.retrans.inFlight, tx, batches, now, k, e)
    requires k in tx.retrans.inFlight && tx.retrans.inFlight[k] == e ==> IsBatch(e.datagram, log, k)
    requires tx.nextSequence == |tx.log.batches| % TWO_32
    requires log.batches == tx.log.batches + batches && |log.batches| <= TWO_24
    ensures IsBatch(e.datagram, log, k)
  {
    hide DatagramsOf, SequenceOf, IsBatch;
    if !(k in tx.retrans.inFlight && tx.retrans.inFlight[k] == e) {
      var i: nat :| i < |batches| && k == SequenceOf(tx, i) && e == Retransmit.InFlight(DatagramsOf(tx.nextSequence, batches)[i], now, 0);
      FlushedIsBatch(tx, batches, log, i);
    }
  }

  ghost predicate TrackedAll(tx: Tx, batches: seq<seq<Frames.Frame>>, now: nat, table: Retransmit.Table) {
    && (forall k :: k in table ==> TrackedFrom(tx.retrans.inFlight, tx, batches, now, k, table[k]))
    && (forall i: nat :: i < |batches| ==> SequenceOf(tx, i) in table)
  }

  lemma FlushAllTracks(tx: Tx, batches: seq<seq<Frames.Frame>>, now: nat)
    requires |tx.retrans.inFlight| + |batches| <= tx.retrans.limits.maxInFlight
    ensures var table := FlushAll(tx, batches, now).retrans.inFlight;
            TrackedAll(tx, batches, now, table) && forall k :: k in tx.retrans.inFlight ==> k in table
  {
    hide TrackedFrom, SequenceOf;
    FlushingTracks(tx, batches, now);
  }

  lemma FlushedAreBatches(tx: Tx, batches: seq<seq<Frames.Frame>>, log: SendLog, now: nat, table: Retransmit.Table)
    requires TracksBatches(tx.retrans.inFlight, log)
    requires tx.nextSequence == |tx.log.batches| % TWO_32
    requires log.batches == tx.log.batches + batches && |log.batches| <= TWO_24
    requires TrackedAll(tx, batches, now, table)
    ensures TracksBatches(table, log)
  {
    hide TrackedFrom, DatagramsOf, SequenceOf, IsBatch;
    forall k | k in table
      ensures IsBatch(table[k].datagram, log, k)
    {
      TrackedIsBatch(tx, batches, log, now, k, table[k]);
    }
  }

  lemma FlushedAreTracked(tx: Tx, batches: seq<seq<Frames.Frame>>, log: SendLog, now: nat, table: Retransmit.Table)
    requires tx.nextSequence == |tx.log.batches| % TWO_32
    requires log.batches == tx.log.batches + batches && |log.batches| <= TWO_24
    requires TrackedAll(tx, batches, now, table)
    ensures forall q :: |tx.log.batches| <= q < |log.batches| ==> q in table
  {
    hide TrackedFrom, DatagramsOf, SequenceOf, IsBatch;
    forall q | |tx.log.batches| <= q < |log.batches|
      ensures q in table
    {
      FlushedIsBatch(tx, batches, log, q - |tx.log.batches|);
    }
  }

  lemma SpendingKeepsLog(log: SendLog, splits: nat)
    requires GoodLog(log) && Carried(log) && log.splits <= splits
    ensures var after := log.(splits := splits);
            GoodLog(after) && Carried(after) && Extends(log, after) && (Framed(log) ==> Framed(after))
  {
    var after := log.(splits := splits);
    assert Extends(log, after);
    hide GoodFrame, GoodBatch, GoodEntry, WentOut, Extends;
    forall r: nat | r < |log.frames|
      ensures GoodFrame(after.frames[r], after) && WentOut(after, r)
    {
      GoodFrameStays(log.frames[r], log, after);
      OutStays(log, after, r);
    }
    forall q | 0 <= q < |log.batches|
      ensures GoodBatch(after.batches[q], after)
    {
      GoodBatchStays(log.batches[q], log, after);
    }
    forall id | id in log.catalog
      ensures GoodEntry(id, after)
    {
      GoodEntryStays(id, log, after);
    }
  }

  lemma OutStays(a: SendLog, b: SendLog, r: nat)
    requires Extends(a, b) && WentOut(a, r)
    ensures WentOut(b, r)
  {
    var q: nat :| InBatch(a, r, q);
    assert InBatch(b, r, q);
  }

  lemma SpentIs(config: Config, tx: Tx, payload: bytes)
    ensures var after := SpendSplitId(config, tx, payload);
            && after == tx.(nextSplitId := after.nextSplitId, log := tx.log.(splits := after.log.splits))
            && after.log.splits == tx.log.splits + (if IsSplit(payload, Capacity(config)) then 1 else 0)
  {
    hide Splits.SplitStep, Capacity;
  }

  lemma SpendingKeeps(config: Config, tx: Tx, payload: bytes, heard: set<u32>)
    requires TxInv(config, tx, heard)
    ensures var after := SpendSplitId(config, tx, payload);
            TxInv(config, after, heard) && Extends(tx.log, after.log)
  {
    var after := SpendSplitId(config, tx, payload);
    SpentCounts(config, tx, payload);
    SpentIs(config, tx, payload);
    hide SpendSplitId, GoodLog, Carried, Capacity, Framed, Extends, AllEmitted, TracksBatches, Counts;
    SpendingKeepsLog(tx.log, after.log.splits);
    AllEmittedStays(tx.outbox, tx.log, after.log, heard, heard);
    TracksStays(tx.retrans.inFlight, tx.log, after.log);
  }

  /** Fewer than 2^16 split payloads so far, so the id of the next one is new. */
  lemma NextIdIsNew(log: SendLog, nextSplitId: u16)
    requires GoodLog(log) && nextSplitId == log.splits % TWO_16 && log.splits < TWO_16
    ensures nextSplitId !in log.catalog
  {
    hide GoodFrame, GoodBatch;
  }

  lemma SpentCounts(config: Config, tx: Tx, payload: bytes)
    requires Counts(tx)
    ensures Counts(SpendSplitId(config, tx, payload))
  {
    hide Splits.Chunks, Capacity;
  }

  /** What a `send` adds: the sending half still holds its invariant, the record only grew, whatever
      was in flight still is and so is everything new. */
  ghost predicate SendKept(config: Config, tx: Tx, after: Tx, heard: set<u32>) {
    && TxInv(config, after, heard)
    && Extends(tx.log, after.log)
    && (forall k :: k in tx.retrans.inFlight ==> k in after.retrans.inFlight)
    && (forall q :: |tx.log.batches| <= q < |after.log.batches| ==> q in after.retrans.inFlight)
  }

  lemma CountsAreExact(tx: Tx)
    requires Counts(tx) && |tx.log.frames| <= TWO_24 && |tx.log.accepted| <= TWO_24
    ensures tx.nextReliable == |tx.log.frames| && tx.nextOrder == |tx.log.accepted|
  {
  }

  lemma SendFramesOnlySends(config: Config, tx: Tx, payload: bytes, frames: seq<Frames.Frame>, splitId: Option<u16>, now: nat)
    requires splitId.Some? ==> Capacity(config) > 0
    ensures var (after, ok) := SendFrames(config, tx, payload, frames, splitId, now);
            && after.log.splits == tx.log.splits
            && (ok <==> !Refused(config, tx, frames))
  {
    if !Refused(config, tx, frames) {
      FlushingQueues(tx, Batches(config, tx, frames), now);
      hide FlushAll, Batches, DatagramsOf, DatagramsNeeded, SequenceOf;
    }
  }

  lemma BatchesAreTheNumberedFrames(config: Config, tx: Tx, nextId: u16, payload: bytes)
    requires Counts(tx)
    requires var frames := Splits.SplitStep(nextId, payload, Capacity(config)).0;
             |tx.log.frames| + |frames| <= TWO_24 && |tx.log.accepted| < TWO_24
    ensures var frames := Splits.SplitStep(nextId, payload, Capacity(config)).0;
            var splitId := if IsSplit(payload, Capacity(config)) then Some(nextId) else None;
            var batches, numbered := Batches(config, tx, frames), Numbered(frames, tx.nextReliable, tx.nextOrder);
            && |numbered| == |frames|
            && (Capacity(config) > 0 <==> numbered != [])
            && Flatten(batches) == numbered && (forall b :: b in batches ==> b != [])
            && GoodGroup(numbered, |tx.log.frames|, |tx.log.accepted|, payload, splitId,
                         if splitId.Some? then Splits.Chunks(payload, Capacity(config)) else [])
  {
    var frames := Splits.SplitStep(nextId, payload, Capacity(config)).0;
    var numbered := Numbered(frames, tx.nextReliable, tx.nextOrder);
    PackingKeepsEveryFrame(numbered, Budget(config), [], 0);
    assert [] + numbered == numbered;
    CapacityIsSmall(config);
    CountsAreExact(tx);
    if Capacity(config) > 0 {
      FragmentsFit(config, nextId, payload);
    }
    hide Splits.SplitStep, Splits.Chunks, Capacity, Flatten, Counts;
    SplittingMakesAGoodGroup(nextId, payload, Capacity(config), |tx.log.frames|, |tx.log.accepted|);
  }

  /** The state after the packing loop, as the record the lemmas above speak of. */
  lemma SendFramesIs(config: Config, tx: Tx, payload: bytes, frames: seq<Frames.Frame>, splitId: Option<u16>, now: nat)
    requires splitId.Some? ==> Capacity(config) > 0
    requires !Refused(config, tx, frames) && Counts(tx)
    ensures var after := SendFrames(config, tx, payload, frames, splitId, now).0;
            var batches, numbered := Batches(config, tx, frames), Numbered(frames, tx.nextReliable, tx.nextOrder);
            && after.log == Grown(tx.log, batches, payload, numbered, splitId, Capacity(config))
            && Counts(after)
            && after.outbox == tx.outbox + DatagramsOf(tx.nextSequence, batches)
            && |tx.retrans.inFlight| + |batches| <= tx.retrans.limits.maxInFlight
            && after.retrans == FlushAll(tx, batches, now).retrans
            && after.retrans.limits == tx.retrans.limits
  {
    var batches := Batches(config, tx, frames);
    FlushingQueues(tx, batches, now);
    CountsGrow(tx, SendFrames(config, tx, payload, frames, splitId, now).0, |batches|, |frames|);
    hide FlushAll, Batches, DatagramsOf, DatagramsNeeded, Counts, SequenceOf;
  }

  lemma CountsGrow(tx: Tx, after: Tx, batches: nat, frames: nat)
    requires Counts(tx)
    requires after.nextSequence == SequenceOf(tx, batches) && |after.log.batches| == |tx.log.batches| + batches
    requires after.nextReliable == (tx.nextReliable + frames) % TWO_32 && |after.log.frames| == |tx.log.frames| + frames
    requires after.nextOrder == (tx.nextOrder + 1) % TWO_32 && |after.log.accepted| == |tx.log.accepted| + 1
    requires after.nextSplitId == tx.nextSplitId && after.log.splits == tx.log.splits
    ensures Counts(after)
  {
  }

  lemma FramesKeep(config: Config, tx: Tx, payload: bytes, nextId: u16, now: nat, heard: set<u32>)
    requires TxInv(config, tx, heard)
    requires IsSplit(payload, Capacity(config)) ==> nextId !in tx.log.catalog && nextId < tx.log.splits
    requires var frames := Splits.SplitStep(nextId, payload, Capacity(config)).0;
             var splitId := if IsSplit(payload, Capacity(config)) then Some(nextId) else None;
             && !Refused(config, tx, frames)
             && Bounded(SendFrames(config, tx, payload, frames, splitId, now).0.log)
    ensures var frames := Splits.SplitStep(nextId, payload, Capacity(config)).0;
            var splitId := if IsSplit(payload, Capacity(config)) then Some(nextId) else None;
            var after := SendFrames(config, tx, payload, frames, splitId, now).0;
            SendKept(config, tx, after, heard) && after.log.accepted == tx.log.accepted + [payload]
  {
    hide SendFrames, GoodGroup, Splits.SplitStep, Splits.Chunks, Flatten, Batches, Capacity, Refused, FlushAll, DatagramsOf, IsBatch;
    hide GoodLog, Carried, Extends, Grown, Cut, Counts, AllEmitted, TracksBatches;
    var capacity := Capacity(config);
    var frames := Splits.SplitStep(nextId, payload, capacity).0;
    var splitId := if IsSplit(payload, capacity) then Some(nextId) else None;
    var batches, numbered := Batches(config, tx, frames), Numbered(frames, tx.nextReliable, tx.nextOrder);
    var after := SendFrames(config, tx, payload, frames, splitId, now).0;
    SendFramesIs(config, tx, payload, frames, splitId, now);
    GrownLengths(tx.log, batches, payload, numbered, splitId, capacity);
    BatchesAreTheNumberedFrames(config, tx, nextId, payload);
    GrownKeeps(config, tx.log, batches, payload, numbered, splitId);
    FlushKeeps(tx, batches, after.log, now, heard);
  }

  lemma GrownKeeps(config: Config, log: SendLog, batches: seq<seq<Frames.Frame>>, payload: bytes, numbered: seq<Frames.Frame>, splitId: Option<u16>)
    requires GoodLog(log) && Carried(log) && (splitId.Some? ==> Capacity(config) > 0) && NewId(log, splitId)
    requires Cut(config, log) && (Capacity(config) > 0 <==> numbered != [])
    requires GoodGroup(numbered, |log.frames|, |log.accepted|, payload, splitId, if splitId.Some? then Splits.Chunks(payload, Capacity(config)) else [])
    requires Flatten(batches) == numbered && forall b :: b in batches ==> b != []
    ensures var after := Grown(log, batches, payload, numbered, splitId, Capacity(config));
            Extends(log, after) && GoodLog(after) && Carried(after) && Cut(config, after)
  {
    hide GoodGroup, Flatten, Carried, Extends, Framed, Capacity, Splits.Chunks, Grown;
    GoodLogLengths(log);
    hide GoodLog;
    GrownExtends(log, batches, payload, numbered, splitId, Capacity(config));
    GrownIsGood(log, batches, payload, numbered, splitId, Capacity(config));
    GrownIsCarried(log, batches, payload, numbered, splitId, Capacity(config));
    if Capacity(config) > 0 {
      GrownIsFramed(log, batches, payload, numbered, splitId, Capacity(config));
    } else {
      GrownLengths(log, batches, payload, numbered, splitId, Capacity(config));
    }
  }

  lemma FlushKeeps(tx: Tx, batches: seq<seq<Frames.Frame>>, log: SendLog, now: nat, heard: set<u32>)
    requires |tx.retrans.inFlight| + |batches| <= tx.retrans.limits.maxInFlight
    requires Counts(tx) && AllEmitted(tx.outbox, tx.log, heard) && TracksBatches(tx.retrans.inFlight, tx.log)
    requires Extends(tx.log, log) && log.batches == tx.log.batches + batches && |log.batches| <= TWO_24
    ensures AllEmitted(tx.outbox + DatagramsOf(tx.nextSequence, batches), log, heard)
    ensures var table := FlushAll(tx, batches, now).retrans.inFlight;
            && TracksBatches(table, log)
            && (forall k :: k in tx.retrans.inFlight ==> k in table)
            && (forall q :: |tx.log.batches| <= q < |log.batches| ==> q in table)
  {
    SequenceIsExact(tx);
    FlushedAreEmitted(tx, batches, log, heard);
    FlushAllTracks(tx, batches, now);
    var table := FlushAll(tx, batches, now).retrans.inFlight;
    hide FlushAll, DatagramsOf, IsBatch, Extends, Counts, AllEmitted, TracksBatches, TrackedAll;
    TracksStays(tx.retrans.inFlight, tx.log, log);
    FlushedAreBatches(tx, batches, log, now, table);
    FlushedAreTracked(tx, batches, log, now, table);
  }

  lemma SequenceIsExact(tx: Tx)
    requires Counts(tx)
    ensures tx.nextSequence == |tx.log.batches| % TWO_32
  {
  }

  lemma CapacityIsSmall(config: Config)
    ensures Capacity(config) <= Frames.MAX_FRAME_PAYLOAD
  {
  }

  lemma SendStepIs(config: Config, phase: Phase, tx: Tx, payload: bytes, now: nat)
    ensures var frames := Splits.SplitStep(tx.nextSplitId, payload, Capacity(config)).0;
            var splitId := if IsSplit(payload, Capacity(config)) then Some(tx.nextSplitId) else None;
            var spent := SpendSplitId(config, tx, payload);
            SendStep(config, phase, tx, payload, now)
            == if phase.Finished? then (tx, Failure(SessionClosed))
            else if Refused(config, spent, frames) then (spent, Failure(OutboxFull))
            else (SendFrames(config, spent, payload, frames, splitId, now).0, Success(()))
  {
    hide Splits.SplitStep, SpendSplitId, FlushAll, Batches, Capacity, Logged;
  }

  lemma SpendKept(config: Config, tx: Tx, payload: bytes, heard: set<u32>)
    requires TxInv(config, tx, heard)
    ensures var spent := SpendSplitId(config, tx, payload);
            && TxInv(config, spent, heard) && SendKept(config, tx, spent, heard) && spent.log.batches == tx.log.batches && spent.log.accepted == tx.log.accepted
            && (IsSplit(payload, Capacity(config)) && spent.log.splits <= TWO_16 ==>
                  tx.nextSplitId !in spent.log.catalog && tx.nextSplitId < spent.log.splits)
  {
    assert GoodLog(tx.log) && Counts(tx) by {
      hide GoodLog, Counts;
    }
    hide TxInv, GoodLog, Extends, SpendSplitId, Capacity;
    SpendingKeeps(config, tx, payload, heard);
    SpentIs(config, tx, payload);
    if IsSplit(payload, Capacity(config)) && tx.log.splits < TWO_16 {
      NextIdIsNew(tx.log, tx.nextSplitId);
    }
  }

  lemma SendKeptItself(config: Config, tx: Tx, heard: set<u32>)
    requires TxInv(config, tx, heard)
    ensures SendKept(config, tx, tx, heard)
  {
    assert GoodLog(tx.log) by {
      hide GoodLog;
    }
    hide TxInv, Extends, GoodLog;
    GoodLogLengths(tx.log);
    ExtendsItself(tx.log);
  }

  lemma SendKeptThrough(config: Config, tx: Tx, next: Tx, after: Tx, heard: set<u32>)
    requires SendKept(config, tx, next, heard) && SendKept(config, next, after, heard)
    requires next.log.batches == tx.log.batches
    ensures SendKept(config, tx, after, heard)
  {
    hide TxInv, Extends;
    ExtendsTransitively(tx.log, next.log, after.log);
  }

  lemma SendKeeps(config: Config, phase: Phase, tx: Tx, payload: bytes, now: nat, heard: set<u32>)
    requires TxInv(config, tx, heard)
    requires Bounded(SendStep(config, phase, tx, payload, now).0.log)
    ensures var (after, result) := SendStep(config, phase, tx, payload, now);
            && SendKept(config, tx, after, heard)
            && after.log.accepted == if result.Success? then tx.log.accepted + [payload] else tx.log.accepted
  {
    hide TxInv, SpendSplitId, Refused, Splits.SplitStep, Capacity, SendStep, SendFrames, SendKept;
    var frames := Splits.SplitStep(tx.nextSplitId, payload, Capacity(config)).0;
    var splitId := if IsSplit(payload, Capacity(config)) then Some(tx.nextSplitId) else None;
    var spent := SpendSplitId(config, tx, payload);
    SendStepIs(config, phase, tx, payload, now);
    SendKeptItself(config, tx, heard);
    SpendKept(config, tx, payload, heard);
    if !phase.Finished? && !Refused(config, spent, frames) {
      SendFramesOnlySends(config, spent, payload, frames, splitId, now);
      FramesKeep(config, spent, payload, tx.nextSplitId, now, heard);
      SendKeptThrough(config, tx, spent, SendFrames(config, spent, payload, frames, splitId, now).0, heard);
    }
  }
}
