/** The session object. Each method is proved to perform the step of the same name in SessionSpec. */
module Sessions {
  import opened Integers
  import opened Wrappers
  import opened Wire
  import opened KeyOrder
  import opened Datagrams
  import opened SessionSpec
  import SendHistory
  import Frames
  import Splits
  import Order
  import Retransmit
  import Walks

  /** One turn of the loop over a datagram's frames, and the rest of the loop after it. */
  function Turn(s: State, f: Frames.Frame, delivered: seq<bytes>, now: nat): (State, Result<seq<bytes>, SessionError>) {
    match TakeFrame(s.rx, f, now)
    case (rx, Failed(e)) => (s.(rx := rx), Failure(e))
    case (rx, Released(payloads)) =>
      match HandleAll(s.(rx := rx), payloads, delivered, now)
      case (after, Failure(e)) => (Lost(after, |delivered| + |AppOnly(payloads)|), Failure(e))
      case (after, Success(more)) => (after, Success(more))
  }

  function AfterTurn(s: State, f: Frames.Frame, rest: seq<Frames.Frame>, delivered: seq<bytes>, now: nat): (State, Result<seq<bytes>, SessionError>) {
    match Turn(s, f, delivered, now)
    case (after, Failure(e)) => (after, Failure(e))
    case (after, Success(more)) => SessionSpec.TakeFrames(after, rest, more, now)
  }

  method CoalesceAll(sequences: seq<nat>) returns (ranges: seq<Range>)
    requires forall i :: 0 <= i < |sequences| ==> sequences[i] < TWO_32
    ensures ranges == Coalesce(sequences)
  {
    ranges := [];
    for i := 0 to |sequences|
      invariant ranges == Coalesce(sequences[..i])
    {
      assert sequences[..i + 1][..i] == sequences[..i];
      var k, last := sequences[i], |ranges| - 1;
      if ranges != [] && k == ranges[last].end + 1 {
        ranges := ranges[..last] + [Range(ranges[last].start, k)];
      } else {
        ranges := ranges + [Range(k, k)];
      }
    }
    assert sequences[..|sequences|] == sequences;
  }

  // How the packing loop stands between two frames.

  /** The numbers move on while the frames are numbered; flushing does not look at them. */
  ghost function Advanced(tx: Tx, reliable: nat, order: u32): Tx {
    tx.(nextReliable := reliable % TWO_32, nextOrder := order)
  }

  /** Flushing what is still to be packed leads where flushing the whole payload leads. */
  ghost predicate ToFlush(tx: Tx, rest: seq<Frames.Frame>, budget: nat, batch: seq<Frames.Frame>, used: nat, now: nat,
                          start: Tx, batches: seq<seq<Frames.Frame>>)
  {
    var left := Pack(rest, budget, batch, used);
    && tx.retrans.limits == start.retrans.limits
    && |start.retrans.inFlight| + |batches| <= start.retrans.limits.maxInFlight
    && |tx.retrans.inFlight| + |left| <= tx.retrans.limits.maxInFlight
    && FlushAll(tx, left, now) == FlushAll(start, batches, now)
  }

  predicate Flushes(batch: seq<Frames.Frame>, used: nat, f: Frames.Frame, budget: nat) {
    batch != [] && used + Frames.EncodedLen(f) > budget
  }

  ghost function FlushedIf(flush: bool, tx: Tx, batch: seq<Frames.Frame>, now: nat): Tx
    requires flush ==> |tx.retrans.inFlight| < tx.retrans.limits.maxInFlight
  {
    if flush then FlushStep(tx, batch, now) else tx
  }

  lemma RoomToFlush(tx: Tx, rest: seq<Frames.Frame>, budget: nat, batch: seq<Frames.Frame>, used: nat, now: nat,
                    start: Tx, batches: seq<seq<Frames.Frame>>)
    requires ToFlush(tx, rest, budget, batch, used, now, start, batches)
    requires if rest == [] then batch != [] else Flushes(batch, used, rest[0], budget)
    ensures |tx.retrans.inFlight| < tx.retrans.limits.maxInFlight
  {
    hide FlushAll, Frames.EncodedLen;
  }

  lemma OneFrameOn(tx: Tx, rest: seq<Frames.Frame>, budget: nat, batch: seq<Frames.Frame>, used: nat, now: nat,
                   start: Tx, batches: seq<seq<Frames.Frame>>)
    requires rest != [] && ToFlush(tx, rest, budget, batch, used, now, start, batches)
    requires Flushes(batch, used, rest[0], budget) ==> |tx.retrans.inFlight| < tx.retrans.limits.maxInFlight
    ensures var flush, size := Flushes(batch, used, rest[0], budget), Frames.EncodedLen(rest[0]);
            ToFlush(FlushedIf(flush, tx, batch, now), rest[1..], budget, (if flush then [] else batch) + [rest[0]],
                    (if flush then 0 else used) + size, now, start, batches)
  {
    var size := Frames.EncodedLen(rest[0]);
    if Flushes(batch, used, rest[0], budget) {
      var left := Pack(rest[1..], budget, [rest[0]], size);
      assert Pack(rest, budget, batch, used) == [batch] + left;
      assert ([batch] + left)[1..] == left;
      assert [] + [rest[0]] == [rest[0]];
      hide Pack, FlushStep, Frames.EncodedLen;
    } else {
      assert Pack(rest, budget, batch, used) == Pack(rest[1..], budget, batch + [rest[0]], used + size);
      hide Pack, FlushAll, FlushStep, Frames.EncodedLen;
    }
  }

  /** With no frame left, one flush of the last batch ends it. */
  lemma LastFlush(tx: Tx, budget: nat, batch: seq<Frames.Frame>, used: nat, now: nat, start: Tx, batches: seq<seq<Frames.Frame>>)
    requires ToFlush(tx, [], budget, batch, used, now, start, batches)
    ensures batch != [] ==> |tx.retrans.inFlight| < tx.retrans.limits.maxInFlight
    ensures FlushedIf(batch != [], tx, batch, now) == FlushAll(start, batches, now)
  {
    if batch != [] {
      assert Pack([], budget, batch, used) == [batch] && [batch][1..] == [];
      var after := FlushStep(tx, batch, now);
      assert FlushAll(after, [], now) == after;
      hide FlushStep;
      assert FlushAll(tx, [batch], now) == after;
    }
  }

  lemma FlushedAdvanced(flush: bool, tx: Tx, reliable: nat, order: u32, batch: seq<Frames.Frame>, now: nat)
    requires flush ==> |tx.retrans.inFlight| < tx.retrans.limits.maxInFlight
    ensures FlushedIf(flush, Advanced(tx, reliable, order), batch, now) == Advanced(FlushedIf(flush, tx, batch, now), reliable, order)
  {
    hide DatagramBytes;
  }

  lemma AdvancedNext(tx: Tx, reliable: nat, order: u32)
    ensures var before := Advanced(tx, reliable, order);
            && before.nextReliable == reliable % TWO_32 && before.nextOrder == order
            && before.retrans == tx.retrans
            && before.(nextReliable := (before.nextReliable + 1) % TWO_32) == Advanced(tx, reliable + 1, order)
  {
  }

  lemma NotAdvanced(tx: Tx)
    ensures Advanced(tx, tx.nextReliable + 0, tx.nextOrder) == tx
  {
  }

  lemma OrderAdvanced(tx: Tx, reliable: nat, order: u32)
    ensures Advanced(tx, reliable, order).(nextOrder := (order + 1) % TWO_32) == Advanced(tx, reliable, (order + 1) % TWO_32)
  {
  }

  lemma Slices<T>(s: seq<T>, i: nat)
    requires i <= |s|
    ensures s[0..] == s && s[|s|..] == []
    ensures i < |s| ==> s[i..][0] == s[i] && s[i..][1..] == s[i + 1..]
  {
  }

  lemma OnePackingTurn(numbered: seq<Frames.Frame>, i: nat, batch: seq<Frames.Frame>, used: nat, budget: nat, now: nat,
                       reliable: nat, order: u32, start: Tx, tx: Tx, batches: seq<seq<Frames.Frame>>)
    requires i < |numbered| && ToFlush(tx, numbered[i..], budget, batch, used, now, start, batches)
    ensures var flush := Flushes(batch, used, numbered[i], budget);
            && (flush ==> |tx.retrans.inFlight| < tx.retrans.limits.maxInFlight)
            && FlushedIf(flush, Advanced(tx, reliable + 1, order), batch, now)
               == Advanced(FlushedIf(flush, tx, batch, now), reliable + 1, order)
            && ToFlush(FlushedIf(flush, tx, batch, now), numbered[i + 1..], budget,
                       (if flush then [] else batch) + [numbered[i]], (if flush then 0 else used) + Frames.EncodedLen(numbered[i]),
                       now, start, batches)
  {
    hide FlushStep, FlushAll, ToFlush, Flushes, FlushedIf, Advanced, Frames.EncodedLen;
    Slices(numbered, i);
    var flush := Flushes(batch, used, numbered[i], budget);
    if flush {
      RoomToFlush(tx, numbered[i..], budget, batch, used, now, start, batches);
    }
    OneFrameOn(tx, numbered[i..], budget, batch, used, now, start, batches);
    AdvancedNext(tx, reliable + 1, order);
    FlushedAdvanced(flush, tx, reliable + 1, order, batch, now);
  }

  /** The first i frames are numbered, and packed or flushed. */
  ghost predicate PackingAt(at: Tx, frames: seq<Frames.Frame>, i: nat, batch: seq<Frames.Frame>, used: nat, budget: nat, now: nat,
                            start: Tx, tx: Tx, batches: seq<seq<Frames.Frame>>)
  {
    && i <= |frames|
    && at == Advanced(tx, start.nextReliable + i, start.nextOrder)
    && ToFlush(tx, Numbered(frames, start.nextReliable, start.nextOrder)[i..], budget, batch, used, now, start, batches)
  }

  lemma PackingTurn(at: Tx, frames: seq<Frames.Frame>, i: nat, batch: seq<Frames.Frame>, used: nat, budget: nat, now: nat,
                    start: Tx, tx: Tx, batches: seq<seq<Frames.Frame>>)
    requires i < |frames| && PackingAt(at, frames, i, batch, used, budget, now, start, tx, batches)
    ensures var frame := frames[i].(reliableIndex := at.nextReliable, orderIndex := at.nextOrder);
            var flush := Flushes(batch, used, frame, budget);
            var numbered := at.(nextReliable := (at.nextReliable + 1) % TWO_32);
            && numbered.retrans == tx.retrans
            && (flush ==> |tx.retrans.inFlight| < tx.retrans.limits.maxInFlight)
            && PackingAt(FlushedIf(flush, numbered, batch, now), frames, i + 1, (if flush then [] else batch) + [frame],
                         (if flush then 0 else used) + Frames.EncodedLen(frame), budget, now, start, FlushedIf(flush, tx, batch, now), batches)
  {
    hide FlushStep, FlushAll, ToFlush, Flushes, FlushedIf, Advanced, Frames.EncodedLen, Numbered;
    var numbered, reliable := Numbered(frames, start.nextReliable, start.nextOrder), start.nextReliable + i;
    AdvancedNext(tx, reliable, start.nextOrder);
    SendHistory.NumberedAt(frames, start.nextReliable, start.nextOrder, i);
    AdvancedNext(tx, reliable + 1, start.nextOrder);
    OnePackingTurn(numbered, i, batch, used, budget, now, reliable, start.nextOrder, start, tx, batches);
  }

  lemma PackingStarts(config: Config, start: Tx, frames: seq<Frames.Frame>, now: nat)
    requires !Refused(config, start, frames)
    ensures |Numbered(frames, start.nextReliable, start.nextOrder)| == |frames|
    ensures PackingAt(start, frames, 0, [], 0, Budget(config), now, start, start, Batches(config, start, frames))
  {
    NotAdvanced(start);
    Slices(Numbered(frames, start.nextReliable, start.nextOrder), 0);
    hide FlushAll;
  }

  lemma FlushIs(tx: Tx, after: Tx, frames: seq<Frames.Frame>, now: nat)
    requires |tx.retrans.inFlight| < tx.retrans.limits.maxInFlight
    requires var datagram := DatagramBytes(FrameSet(tx.nextSequence, frames));
             after == tx.(nextSequence := (tx.nextSequence + 1) % TWO_32,
             retrans := Retransmit.TrackStep(tx.retrans, tx.nextSequence, datagram, now).value,
             outbox := tx.outbox + [datagram],
             log := tx.log.(batches := tx.log.batches + [frames]))
    ensures after == FlushStep(tx, frames, now)
  {
    hide DatagramBytes;
  }

  /** With every frame packed, one flush is left. */
  lemma PackingEnds(at: Tx, frames: seq<Frames.Frame>, batch: seq<Frames.Frame>, used: nat, budget: nat, now: nat,
                    start: Tx, tx: Tx, batches: seq<seq<Frames.Frame>>)
    requires PackingAt(at, frames, |frames|, batch, used, budget, now, start, tx, batches)
    ensures batch != [] ==> |tx.retrans.inFlight| < tx.retrans.limits.maxInFlight
    ensures at == Advanced(tx, start.nextReliable + |frames|, start.nextOrder) && at.nextOrder == start.nextOrder
    ensures FlushedIf(batch != [], tx, batch, now) == FlushAll(start, batches, now)
  {
    assert |Numbered(frames, start.nextReliable, start.nextOrder)| == |frames|;
    hide FlushAll, FlushedIf, ToFlush, Numbered;
    LastFlush(tx, budget, batch, used, now, start, batches);
  }

  /** Where the packing ends. */
  lemma SendFramesEnds(config: Config, start: Tx, payload: bytes, frames: seq<Frames.Frame>, splitId: Option<u16>, now: nat, end: Tx)
    requires !Refused(config, start, frames) && (splitId.Some? ==> Capacity(config) > 0)
    requires var flushed := FlushAll(start, Batches(config, start, frames), now);
             end == Advanced(flushed, start.nextReliable + |frames|, (start.nextOrder + 1) % TWO_32)
    ensures end.(log := Logged(end.log, payload, Numbered(frames, start.nextReliable, start.nextOrder), splitId, Capacity(config)))
         == SessionSpec.SendFrames(config, start, payload, frames, splitId, now).0
  {
    hide FlushAll, Batches, Numbered, Logged, Capacity;
  }

  lemma NeededIsBatches(config: Config, tx: Tx, frames: seq<Frames.Frame>)
    ensures |Batches(config, tx, frames)| == DatagramsNeeded(frames, Budget(config), 0)
  {
  }

  method Encoded(d: Datagram) returns (b: bytes)
    ensures b == DatagramBytes(d)
  {
    hide DatagramBytes;
    var w := new Writer();
    Datagrams.Encode(d, w);
    assert [] + DatagramBytes(d) == DatagramBytes(d);
    b := w.buf;
  }

  method CountDatagrams(frames: seq<Frames.Frame>, budget: nat) returns (count: nat)
    ensures count == DatagramsNeeded(frames, budget, 0)
  {
    count := 0;
    var used: nat := 0;
    assert frames[0..] == frames;
    for i := 0 to |frames|
      invariant count + DatagramsNeeded(frames[i..], budget, used) == DatagramsNeeded(frames, budget, 0)
    {
      assert frames[i..][1..] == frames[i + 1..];
      var size := Frames.EncodedLen(frames[i]);
      if used == 0 || used + size > budget {
        count := count + 1;
        used := 0;
      }
      used := used + size;
    }
  }

  class Session {
    const config: Config
    var phase: Phase

    var nextSequence: u32
    var nextReliable: u32
    var nextOrder: u32
    const splitter: Splits.Splitter
    const retransmitter: Retransmit.Retransmitter
    var outbox: seq<bytes>

    const reassembler: Splits.Reassembler
    const ordering: Order.Ordering
    const dedup: Order.Dedup
    var pendingAcks: seq<u32>

    const started: nat
    var lastHeard: nat
    var lastPing: nat

    ghost var sendLog: SendLog
    ghost var recvLog: RecvLog

    ghost function TxState(): Tx
      reads this, splitter, retransmitter, retransmitter.rtt
    {
      Tx(nextSequence, nextReliable, nextOrder, splitter.nextId, retransmitter.State(), outbox, sendLog)
    }

    ghost function RxState(): Rx
      reads this, reassembler, ordering, dedup
    {
      Rx(reassembler.State(), ordering.State(), dedup.State(), pendingAcks, recvLog)
    }

    ghost function View(): State
      reads this, splitter, retransmitter, retransmitter.rtt, reassembler, ordering, dedup
    {
      State(config, phase, TxState(), RxState(), started, lastHeard, lastPing)
    }

    ghost predicate Valid()
      reads this, reassembler
    {
      retransmitter.limits == config.retransmit && reassembler.Valid()
    }

    constructor (config: Config, now: nat)
      ensures Valid() && View() == NewState(config, now)
      ensures fresh(splitter) && fresh(retransmitter) && fresh(retransmitter.rtt)
      ensures fresh(reassembler) && fresh(ordering) && fresh(dedup)
    {
      this.config := config;
      this.phase := Connecting;
      this.nextSequence, this.nextReliable, this.nextOrder := 0, 0, 0;
      this.splitter := new Splits.Splitter();
      this.retransmitter := new Retransmit.Retransmitter(config.retransmit);
      this.outbox := [];
      this.reassembler := new Splits.Reassembler(config.split);
      this.ordering := new Order.Ordering(config.orderWindow);
      this.dedup := new Order.Dedup(config.dedupWindow);
      this.pendingAcks := [];
      this.started, this.lastHeard, this.lastPing := now, now, now;
      this.sendLog := SendLog([], [], [], [], 0, map[], map[]);
      this.recvLog := RecvLog({}, {}, {}, {}, [], [], 0, false, false, false);
    }

    // Sending.

    /** A payload is split if it does not fit, and queued whole or not at all. */
    method Send(payload: bytes, now: nat) returns (r: Result<(), SessionError>)
      requires Valid()
      modifies this`nextSequence, this`nextReliable, this`nextOrder, this`outbox, this`sendLog, splitter, retransmitter
      ensures Valid()
      ensures (TxState(), r) == SendStep(config, phase, old(TxState()), payload, now)
    {
      if phase.Finished? {
        return Failure(SessionClosed);
      }
      ghost var before := TxState();
      var capacity := Splits.FragmentCapacity(config.payloadLimit);
      assert capacity == Capacity(config);
      hide Splits.SplitStep, SessionSpec.SendFrames, Capacity, Splits.Reassembler.Valid;
      var frames := splitter.Split(payload, capacity);
      ghost var splitId := if IsSplit(payload, capacity) then Some(before.nextSplitId) else None;
      sendLog := SpendSplitId(config, before, payload).log;
      assert TxState() == SpendSplitId(config, before, payload);
      r := SendFrames(payload, frames, splitId, now);
    }

    method SendFrames(ghost payload: bytes, frames: seq<Frames.Frame>, ghost splitId: Option<u16>, now: nat) returns (r: Result<(), SessionError>)
      requires Valid() && (splitId.Some? ==> Capacity(config) > 0)
      modifies this`nextSequence, this`nextReliable, this`nextOrder, this`outbox, this`sendLog, retransmitter
      ensures Valid()
      ensures var (after, ok) := SessionSpec.SendFrames(config, old(TxState()), payload, frames, splitId, now);
              TxState() == after && r == if ok then Success(()) else Failure(OutboxFull)
    {
      var budget := Monus(config.payloadLimit, DATAGRAM_HEADER_LEN);
      var needed := CountDatagrams(frames, budget);
      if |outbox| + needed > config.maxOutbox || |retransmitter.inFlight| + needed > config.retransmit.maxInFlight {
        return Failure(OutboxFull);
      }
      NeededIsBatches(config, TxState(), frames);
      Queue(payload, frames, splitId, budget, now);
      r := Success(());
    }

    /** Numbers the frames and flushes them in batches that fit the budget. Room has been reserved, so
        no flush fails. */
    method Queue(ghost payload: bytes, frames: seq<Frames.Frame>, ghost splitId: Option<u16>, budget: nat, now: nat)
      requires Valid() && (splitId.Some? ==> Capacity(config) > 0)
      requires budget == Budget(config) && !Refused(config, TxState(), frames)
      modifies this`nextSequence, this`nextReliable, this`nextOrder, this`outbox, this`sendLog, retransmitter`inFlight
      ensures Valid()
      ensures TxState() == SessionSpec.SendFrames(config, old(TxState()), payload, frames, splitId, now).0
    {
      ghost var start := TxState();
      hide FlushAll, FlushedIf, Numbered, Batches, PackingAt, Refused, SessionSpec.SendFrames, Logged, Capacity;
      QueueFrames(frames, budget, now);
      SendFramesEnds(config, start, payload, frames, splitId, now, TxState());
      hide Advanced;
      sendLog := Logged(sendLog, payload, Numbered(frames, start.nextReliable, start.nextOrder), splitId, Capacity(config));
    }

    /** The frames go out, and the payload's order index is used up. */
    method QueueFrames(frames: seq<Frames.Frame>, budget: nat, now: nat)
      requires Valid() && budget == Budget(config) && !Refused(config, TxState(), frames)
      modifies this`nextSequence, this`nextReliable, this`nextOrder, this`outbox, this`sendLog, retransmitter`inFlight
      ensures Valid()
      ensures var start := old(TxState());
              var flushed := FlushAll(start, Batches(config, start, frames), now);
              TxState() == Advanced(flushed, start.nextReliable + |frames|, (start.nextOrder + 1) % TWO_32)
    {
      ghost var start := TxState();
      ghost var batches := Batches(config, start, frames);
      hide FlushAll, FlushedIf, Batches, PackingAt, Valid, Refused, Advanced;
      PackingStarts(config, start, frames, now);
      var batch, used, tx := PackFrames(frames, budget, now, batches);
      PackingEnds(TxState(), frames, batch, used, budget, now, start, tx, batches);
      Finish(batch, now, tx, start.nextReliable + |frames|);
    }

    method PackFrames(frames: seq<Frames.Frame>, budget: nat, now: nat, ghost batches: seq<seq<Frames.Frame>>)
      returns (batch: seq<Frames.Frame>, used: nat, ghost tx: Tx)
      requires Valid() && PackingAt(TxState(), frames, 0, [], 0, budget, now, TxState(), TxState(), batches)
      modifies this`nextSequence, this`nextReliable, this`outbox, this`sendLog, retransmitter`inFlight
      ensures Valid() && PackingAt(TxState(), frames, |frames|, batch, used, budget, now, old(TxState()), tx, batches)
    {
      hide *;
      ghost var start := TxState();
      tx, batch, used := start, [], 0;
      for i := 0 to |frames|
        invariant Valid() && PackingAt(TxState(), frames, i, batch, used, budget, now, start, tx, batches)
      {
        batch, used, tx := NumberFrame(frames, i, batch, used, budget, now, start, tx, batches);
      }
    }

    /** The payload's order index is used up, and its last frames go out. */
    method Finish(batch: seq<Frames.Frame>, now: nat, ghost tx: Tx, ghost reliable: nat)
      requires Valid() && (batch != [] ==> |tx.retrans.inFlight| < tx.retrans.limits.maxInFlight)
      requires TxState() == Advanced(tx, reliable, nextOrder)
      modifies this`nextSequence, this`nextOrder, this`outbox, this`sendLog, retransmitter`inFlight
      ensures Valid()
      ensures TxState() == Advanced(FlushedIf(batch != [], tx, batch, now), reliable, (old(nextOrder) + 1) % TWO_32)
    {
      hide FlushedIf, Advanced;
      AdvancedNext(tx, reliable, nextOrder);
      OrderAdvanced(tx, reliable, nextOrder);
      nextOrder := (nextOrder + 1) % TWO_32;
      AdvancedNext(tx, reliable, nextOrder);
      FlushedAdvanced(batch != [], tx, reliable, nextOrder, batch, now);
      FlushRest(batch, now);
    }

    /** One turn of the packing loop. */
    method NumberFrame(frames: seq<Frames.Frame>, i: nat, batch: seq<Frames.Frame>, used: nat, budget: nat, now: nat,
                       ghost start: Tx, ghost tx: Tx, ghost batches: seq<seq<Frames.Frame>>)
      returns (grown: seq<Frames.Frame>, size: nat, ghost after: Tx)
      requires Valid() && i < |frames| && PackingAt(TxState(), frames, i, batch, used, budget, now, start, tx, batches)
      modifies this`nextSequence, this`nextReliable, this`outbox, this`sendLog, retransmitter`inFlight
      ensures Valid() && PackingAt(TxState(), frames, i + 1, grown, size, budget, now, start, after, batches)
    {
      hide PackingAt, Flushes, FlushedIf, Frames.EncodedLen, Splits.Reassembler.Valid;
      PackingTurn(TxState(), frames, i, batch, used, budget, now, start, tx, batches);
      var frame := frames[i].(reliableIndex := nextReliable, orderIndex := nextOrder);
      nextReliable := (nextReliable + 1) % TWO_32;
      after := FlushedIf(Flushes(batch, used, frame, budget), tx, batch, now);
      grown, size := AddFrame(frame, batch, used, budget, now);
    }

    /** The frame joins the batch, after a flush if it no longer fits. */
    method AddFrame(frame: Frames.Frame, batch: seq<Frames.Frame>, used: nat, budget: nat, now: nat)
      returns (grown: seq<Frames.Frame>, size: nat)
      requires Valid() && (Flushes(batch, used, frame, budget) ==> |retransmitter.inFlight| < retransmitter.limits.maxInFlight)
      modifies this`nextSequence, this`outbox, this`sendLog, retransmitter`inFlight
      ensures Valid()
      ensures TxState() == FlushedIf(Flushes(batch, used, frame, budget), old(TxState()), batch, now)
      ensures var flush := Flushes(batch, used, frame, budget);
              && grown == (if flush then [] else batch) + [frame]
              && size == (if flush then 0 else used) + Frames.EncodedLen(frame)
    {
      grown, size := batch, used;
      var len := Frames.EncodedLen(frame);
      hide Frames.EncodedLen, FlushStep;
      if batch != [] && used + len > budget {
        var flushed := FlushBatch(batch, now);
        assert flushed.Success?;
        grown, size := [], 0;
      }
      size := size + len;
      grown := grown + [frame];
    }

    method FlushRest(batch: seq<Frames.Frame>, now: nat)
      requires Valid() && (batch != [] ==> |retransmitter.inFlight| < retransmitter.limits.maxInFlight)
      modifies this`nextSequence, this`outbox, this`sendLog, retransmitter`inFlight
      ensures Valid()
      ensures TxState() == FlushedIf(batch != [], old(TxState()), batch, now)
    {
      hide FlushStep;
      if batch != [] {
        var flushed := FlushBatch(batch, now);
        assert flushed.Success?;
      }
    }

    method FlushBatch(frames: seq<Frames.Frame>, now: nat) returns (r: Result<(), SessionError>)
      requires Valid()
      modifies this`nextSequence, this`outbox, this`sendLog, retransmitter`inFlight
      ensures Valid()
      ensures var tx := old(TxState());
              if |tx.retrans.inFlight| < tx.retrans.limits.maxInFlight
              then r == Success(()) && TxState() == FlushStep(tx, frames, now)
              else r == Failure(WindowFull) && TxState() == tx.(nextSequence := (tx.nextSequence + 1) % TWO_32)
    {
      hide DatagramBytes, FlushStep, Retransmit.TrackStep;
      ghost var tx := TxState();
      var tracked, datagram := TrackNext(frames, now);
      if !tracked {
        return Failure(WindowFull);
      }
      outbox := outbox + [datagram];
      sendLog := sendLog.(batches := sendLog.batches + [frames]);
      FlushIs(tx, TxState(), frames, now);
      r := Success(());
    }

    /** A sequence number for the frames, whether or not there is room to track the datagram. */
    method TrackNext(frames: seq<Frames.Frame>, now: nat) returns (tracked: bool, datagram: bytes)
      requires Valid()
      modifies this`nextSequence, retransmitter`inFlight
      ensures Valid()
      ensures datagram == DatagramBytes(FrameSet(old(nextSequence), frames))
      ensures var tx := old(TxState());
              var after := Retransmit.TrackStep(tx.retrans, tx.nextSequence, datagram, now);
              && (tracked <==> after.Some?)
              && (tracked <==> |tx.retrans.inFlight| < tx.retrans.limits.maxInFlight)
              && TxState() == tx.(nextSequence := (tx.nextSequence + 1) % TWO_32, retrans := if tracked then after.value else tx.retrans)
    {
      hide DatagramBytes, Splits.Reassembler.Valid;
      var sequence := nextSequence;
      datagram := Encoded(FrameSet(sequence, frames));
      ghost var retrans := retransmitter.State();
      tracked := retransmitter.Track(sequence, datagram, now);
      assert tracked ==> Retransmit.TrackStep(retrans, sequence, datagram, now).value == retransmitter.State();
      hide Retransmit.TrackStep;
      nextSequence := (sequence + 1) % TWO_32;
    }

    // Receiving.

    /** One datagram in, the payloads it completed out. The walk over an acknowledged range of the map
        needs its start not to be past its end. */
    method Receive(b: bytes, now: nat) returns (r: Result<seq<bytes>, SessionError>)
      requires Valid()
      requires match DecodeDatagram(b)
               case Success(Ack(ranges)) => Walks.Forwards(ranges)
               case Success(Nack(ranges)) => Walks.Forwards(ranges)
               case _ => true
      modifies this, splitter, retransmitter, retransmitter.rtt, reassembler, ordering, dedup
      ensures Valid()
      ensures (View(), r) == ReceiveStep(old(View()), b, now)
    {
      hide DecodeDatagram, SessionSpec.ReceiveFrameSet, Retransmit.AckStep, Retransmit.NackStep;
      if phase.Finished? {
        return Failure(SessionClosed);
      }
      lastHeard := now;
      var decoded := Datagrams.Decode(b);
      match decoded
      case Failure(e) => r := Failure(BadDatagram(e));
      case Success(Ack(ranges)) =>
        retransmitter.OnAck(ranges, now);
        r := Success([]);
      case Success(Nack(ranges)) =>
        var out := retransmitter.OnNack(ranges, now);
        QueueAll(out);
        r := Success([]);
      case Success(FrameSet(sequence, frames)) => r := ReceiveFrameSet(sequence, frames, now);
    }

    /** Datagrams to send again, while there is room. */
    method QueueAll(datagrams: seq<bytes>)
      modifies this`outbox
      ensures outbox == SessionSpec.Queue(old(outbox), datagrams, config.maxOutbox)
    {
      for i := 0 to |datagrams|
        invariant outbox == SessionSpec.Queue(old(outbox), datagrams[..i], config.maxOutbox)
      {
        if |outbox| < config.maxOutbox {
          outbox := outbox + [datagrams[i]];
        }
      }
      assert datagrams[..|datagrams|] == datagrams;
    }

    method ReceiveFrameSet(sequence: u32, frames: seq<Frames.Frame>, now: nat) returns (r: Result<seq<bytes>, SessionError>)
      requires Valid()
      modifies this, splitter, retransmitter, reassembler, ordering, dedup
      ensures Valid()
      ensures (View(), r) == SessionSpec.ReceiveFrameSet(old(View()), sequence, frames, now)
    {
      hide SessionSpec.TakeFrames;
      pendingAcks := pendingAcks + [sequence];
      recvLog := recvLog.(received := recvLog.received + {sequence});
      r := TakeFrames(frames, now);
      recvLog := if r.Success? then recvLog.(delivered := recvLog.delivered + r.value) else recvLog.(failed := true);
    }

    method TakeFrames(frames: seq<Frames.Frame>, now: nat) returns (r: Result<seq<bytes>, SessionError>)
      requires Valid()
      modifies this, splitter, retransmitter, reassembler, ordering, dedup
      ensures Valid()
      ensures (View(), r) == SessionSpec.TakeFrames(old(View()), frames, [], now)
    {
      ghost var start := View();
      var delivered: seq<bytes> := [];
      assert frames[0..] == frames;
      for i := 0 to |frames|
        invariant Valid()
        invariant SessionSpec.TakeFrames(View(), frames[i..], delivered, now) == SessionSpec.TakeFrames(start, frames, [], now)
      {
        hide TakeFrame, HandleAll;
        Slices(frames, i);
        ghost var before := View();
        assert SessionSpec.TakeFrames(before, frames[i..], delivered, now) == AfterTurn(before, frames[i], frames[i + 1..], delivered, now);
        hide SessionSpec.TakeFrames;
        var turn := TakeTurn(frames[i], delivered, now);
        if turn.Failure? {
          return turn;
        }
        delivered := turn.value;
      }
      Slices(frames, |frames|);
      r := Success(delivered);
    }

    /** One turn of the loop over a datagram's frames. */
    method TakeTurn(f: Frames.Frame, delivered: seq<bytes>, now: nat) returns (r: Result<seq<bytes>, SessionError>)
      requires Valid()
      modifies this, splitter, retransmitter, reassembler, ordering, dedup
      ensures Valid()
      ensures (View(), r) == Turn(old(View()), f, delivered, now)
    {
      hide TakeFrame, HandleAll, AppOnly, Splits.Accounted;
      var outcome := TakeOne(f, now);
      if outcome.Failed? {
        return Failure(outcome.e);
      }
      r := HandleEach(outcome.payloads, delivered, now);
      if r.Failure? {
        recvLog := recvLog.(lost := recvLog.lost + |delivered| + |AppOnly(outcome.payloads)|);
      }
    }

    /** One frame: deduplicated, reassembled, put in order. */
    method TakeOne(f: Frames.Frame, now: nat) returns (outcome: Outcome)
      requires Valid()
      modifies this`recvLog, reassembler, ordering, dedup
      ensures Valid()
      ensures (RxState(), outcome) == TakeFrame(old(RxState()), f, now)
    {
      hide Order.AcceptStep, SessionSpec.Place;
      if f.reliability.IsReliable() {
        Order.RefusalKeepsDedup(dedup.State(), f.reliableIndex);
        var isNew := dedup.Accept(f.reliableIndex);
        if !isNew {
          recvLog := recvLog.(late := recvLog.late || f.reliableIndex !in recvLog.taken);
          return Released([]);
        }
        recvLog := recvLog.(taken := recvLog.taken + {f.reliableIndex});
      }
      outcome := Place(f, now);
    }

    method Place(f: Frames.Frame, now: nat) returns (outcome: Outcome)
      requires Valid()
      modifies this`recvLog, reassembler, ordering
      ensures Valid()
      ensures (RxState(), outcome) == SessionSpec.Place(old(RxState()), f, now)
    {
      hide Splits.PushStep, Splits.Accounted;
      Splits.PushKeepsAccounts(reassembler.State(), f, now);
      var pushed := reassembler.Push(f, now);
      if pushed.Failure? {
        return Failed(BadFragment(pushed.error));
      }
      if f.split.Some? {
        recvLog := recvLog.(fragments := recvLog.fragments + {(f.split.value.id, f.split.value.index)});
      }
      if pushed.value.None? {
        return Released([]);
      }
      hide SessionSpec.Release;
      outcome := Release(f, pushed.value.value);
    }

    method Release(f: Frames.Frame, payload: bytes) returns (outcome: Outcome)
      requires Valid()
      modifies this`recvLog, ordering
      ensures Valid()
      ensures (RxState(), outcome) == SessionSpec.Release(old(RxState()), f, payload)
    {
      Order.RefusalKeepsOrder(ordering.State(), f.orderIndex, payload);
      hide Order.PushStep;
      if !f.reliability.IsOrdered() {
        return Released([payload]);
      }
      var ready := ordering.Push(f.orderIndex, payload);
      if ready.Failure? {
        return Failed(OutOfOrder(ready.error));
      }
      recvLog := recvLog.(released := recvLog.released + ready.value, pushed := recvLog.pushed + {f.orderIndex});
      outcome := Released(ready.value);
    }

    method HandleEach(payloads: seq<bytes>, before: seq<bytes>, now: nat) returns (r: Result<seq<bytes>, SessionError>)
      requires Valid()
      modifies this`phase, this`nextSequence, this`nextReliable, this`nextOrder, this`outbox, this`sendLog, splitter, retransmitter
      ensures Valid()
      ensures (View(), r) == HandleAll(old(View()), payloads, before, now)
    {
      ghost var start := View();
      var delivered := before;
      Slices(payloads, 0);
      for i := 0 to |payloads|
        invariant Valid()
        invariant HandleAll(View(), payloads[i..], delivered, now) == HandleAll(start, payloads, before, now)
      {
        hide Handle;
        Slices(payloads, i);
        var handled := HandleInternal(payloads[i], now);
        if handled.Failure? {
          return Failure(handled.error);
        }
        if handled.value.Some? {
          delivered := delivered + [handled.value.value];
        }
      }
      Slices(payloads, |payloads|);
      r := Success(delivered);
    }

    /** Answers RakNet's own packets; the rest is meant for the caller. */
    method HandleInternal(payload: bytes, now: nat) returns (r: Result<Option<bytes>, SessionError>)
      requires Valid()
      modifies this`phase, this`nextSequence, this`nextReliable, this`nextOrder, this`outbox, this`sendLog, splitter, retransmitter
      ensures Valid()
      ensures (View(), r) == Handle(old(View()), payload, now)
    {
      hide SendStep, EchoedTime, Splits.Reassembler.Valid;
      if payload == [] {
        return Success(None);
      }
      var id := payload[0];
      if id == ID_CONNECTION_REQUEST || id == ID_CONNECTED_PING {
        var reply := if id == ID_CONNECTION_REQUEST
        then EncodeRequestAccepted(EchoedTime(payload, 9), now)
        else EncodePong(EchoedTime(payload, 1), now);
        assert ReplyTo(View(), payload, now) == Some(reply);
        hide ReplyTo;
        var sent := Send(reply, now);
        return if sent.Success? then Success(None) else Failure(sent.error);
      }
      if id == ID_NEW_INCOMING_CONNECTION {
        phase := Connected;
      } else if id == ID_DISCONNECT {
        phase := Finished(ByPeer);
      } else if id >= USER_PACKET_START {
        return Success(Some(payload));
      }
      r := Success(None);
    }

    function Millis(now: nat): u64 {
      Min(Monus(now, started) / NANOS_PER_MILLI, MAX_I64)
    }

    function EncodeRequestAccepted(time: u64, now: nat): bytes {
      [ID_CONNECTION_REQUEST_ACCEPTED] + config.peerAddress + U16Bytes(0)
      + Repeat(config.localAddress, SYSTEM_ADDRESS_COUNT) + U64Bytes(time) + U64Bytes(Millis(now))
    }

    function EncodePong(time: u64, now: nat): bytes {
      [ID_CONNECTED_PONG] + U64Bytes(time) + U64Bytes(Millis(now))
    }

    // Time passing.

    /** Acknowledges, retransmits and checks the peer is still there. */
    method Tick(now: nat)
      requires Valid()
      modifies this, splitter, retransmitter, reassembler
      ensures Valid()
      ensures View() == TickStep(old(View()), now)
    {
      hide SessionSpec.FlushAcks, Resend, Expire, SessionSpec.KeepAlive;
      if phase.Finished? {
        return;
      }
      if Monus(now, lastHeard) >= config.timeout {
        phase := Finished(Timeout);
        return;
      }
      if retransmitter.dead {
        phase := Finished(Unreachable);
        return;
      }
      FlushAcks();
      SendAgain(now);
      ExpireReassemblies(now);
      KeepAlive(now);
    }

    method FlushAcks()
      requires Valid()
      modifies this`pendingAcks, this`outbox
      ensures Valid()
      ensures View() == SessionSpec.FlushAcks(old(View()))
    {
      hide DatagramBytes, Coalesce, Splits.Reassembler.Valid;
      if pendingAcks == [] {
        return;
      }
      ghost var acks := pendingAcks;
      var sequences := Sorted(Pending(pendingAcks));
      assert forall i :: 0 <= i < |sequences| ==> sequences[i] in Pending(pendingAcks);
      var ranges := CoalesceAll(sequences);
      assert ranges == AckRanges(acks);
      hide AckRanges;
      pendingAcks := [];
      var ack := Encoded(Ack(ranges));
      QueueRaw(ack);
    }

    method QueueRaw(b: bytes)
      modifies this`outbox
      ensures outbox == SessionSpec.Queue(old(outbox), [b], config.maxOutbox)
    {
      if |outbox| < config.maxOutbox {
        outbox := outbox + [b];
      }
    }

    method SendAgain(now: nat)
      requires Valid()
      modifies this`outbox, retransmitter
      ensures Valid()
      ensures View() == Resend(old(View()), now)
    {
      hide Retransmit.DueStep;
      var out := retransmitter.Due(now);
      QueueAll(out);
    }

    method ExpireReassemblies(now: nat)
      requires Valid()
      modifies this`recvLog, reassembler
      ensures Valid()
      ensures View() == Expire(old(View()), now)
    {
      hide Splits.ExpireStep;
      ghost var pending := reassembler.pending;
      reassembler.Expire(now);
      recvLog := recvLog.(expired := recvLog.expired || reassembler.pending != pending);
    }

    method KeepAlive(now: nat)
      requires Valid()
      modifies this`nextSequence, this`nextReliable, this`nextOrder, this`outbox, this`sendLog, this`lastPing, splitter, retransmitter
      ensures Valid()
      ensures View() == SessionSpec.KeepAlive(old(View()), now)
    {
      hide SendStep, Splits.Reassembler.Valid;
      if Monus(now, lastPing) >= config.keepalive {
        lastPing := now;
        var ping: bytes := [ID_CONNECTED_PING] + U64Bytes(Millis(now));
        var _ := Send(ping, now);
      }
    }

    /** Performs `CloseStep`: the notice goes out if there is room, and the session is closed either way. */
    method Close(now: nat)
      requires Valid()
      modifies this`phase, this`nextSequence, this`nextReliable, this`nextOrder, this`outbox, this`sendLog, splitter, retransmitter
      ensures Valid()
      ensures View() == CloseStep(old(View()), now)
    {
      hide SendStep, Splits.Reassembler.Valid;
      if phase.Finished? {
        return;
      }
      var _ := Send([ID_DISCONNECT], now);
      phase := Finished(ByUs);
    }

    /** Takes the oldest datagram out of the outbox, if there is one. */
    method PollTransmit() returns (out: Option<bytes>)
      requires Valid()
      modifies this`outbox
      ensures Valid()
      ensures (View(), out) == PollStep(old(View()))
    {
      if outbox == [] {
        return None;
      }
      out := Some(outbox[0]);
      outbox := outbox[1..];
    }
  }
}
