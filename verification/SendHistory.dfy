/** What the record of everything sent always satisfies: every frame is a genuine, correctly numbered
    piece of the payload its order index names. */
module SendHistory {
  import opened Integers
  import opened Wrappers
  import opened SessionSpec
  import opened Sending
  import Frames
  import Splits

  /** Fewer datagrams, reliable frames and ordered payloads than 24-bit indices can name, and fewer
      split ids than 16 bits can. */
  ghost predicate Bounded(log: SendLog) {
    |log.accepted| <= TWO_24 && |log.frames| <= TWO_24 && |log.batches| <= TWO_24 && log.splits <= TWO_16
  }

  /** One past the last reliable index of payload k. */
  ghost function End(log: SendLog, k: nat): nat {
    if k + 1 < |log.starts| then log.starts[k + 1] else |log.frames|
  }

  ghost predicate GoodFrame(f: Frames.Frame, log: SendLog) {
    var k := f.orderIndex;
    && k < |log.accepted| == |log.starts|
    && log.starts[k] <= f.reliableIndex < End(log, k)
    && f.reliability == Frames.ReliableOrdered && f.sequenceIndex == 0 && f.orderChannel == 0
    && |f.payload| <= Frames.MAX_FRAME_PAYLOAD
    && match f.split
       case None => f.payload == log.accepted[k] && End(log, k) == log.starts[k] + 1
       case Some(s) =>
         && GoodPiece(s, f.payload, log.catalog)
         && s.id in log.owner && log.owner[s.id] == k
         && f.reliableIndex == log.starts[k] + s.index
  }

  ghost predicate GoodPiece(s: Frames.Split, payload: bytes, catalog: map<u16, seq<bytes>>) {
    && s.id in catalog
    && s.count == |catalog[s.id]|
    && s.index < s.count
    && payload == catalog[s.id][s.index]
    && payload != []
  }

  ghost predicate GoodBatch(b: seq<Frames.Frame>, log: SendLog) {
    && b != []
    && forall i :: 0 <= i < |b| ==>
                     && b[i].reliableIndex < |log.frames|
                     && b[i] == log.frames[b[i].reliableIndex]
                     && b[i].orderIndex == b[0].orderIndex
  }

  ghost predicate GoodEntry(id: u16, log: SendLog) {
    && id in log.catalog && id in log.owner
    && id < log.splits
    && log.owner[id] < |log.accepted| == |log.starts|
    && Splits.Concat(log.catalog[id]) == log.accepted[log.owner[id]]
    && End(log, log.owner[id]) == log.starts[log.owner[id]] + |log.catalog[id]|
    && 2 <= |log.catalog[id]|
  }

  ghost predicate GoodLog(log: SendLog) {
    && |log.starts| == |log.accepted|
    && (forall i, j :: 0 <= i <= j < |log.starts| ==> log.starts[i] <= log.starts[j] <= |log.frames|)
    && (forall r :: 0 <= r < |log.frames| ==> log.frames[r].reliableIndex == r && GoodFrame(log.frames[r], log))
    && (forall q :: 0 <= q < |log.batches| ==> GoodBatch(log.batches[q], log))
    && (forall id :: id in log.catalog ==> GoodEntry(id, log))
    && OneIdEach(log)
  }

  /** No two split ids name the same payload. */
  ghost predicate OneIdEach(log: SendLog) {
    && log.owner.Keys == log.catalog.Keys
    && forall a, b :: a in log.owner && b in log.owner && log.owner[a] == log.owner[b] ==> a == b
  }

  /** Every payload was cut into at least one frame. */
  ghost predicate Framed(log: SendLog) {
    forall k: nat :: k < |log.starts| ==> log.starts[k] < End(log, k)
  }

  ghost predicate InBatch(log: SendLog, r: nat, q: nat) {
    r < |log.frames| && q < |log.batches| && log.frames[r] in log.batches[q]
  }

  ghost predicate WentOut(log: SendLog, r: nat) {
    exists q: nat :: InBatch(log, r, q)
  }

  /** Every frame went out in some datagram. */
  ghost predicate Carried(log: SendLog) {
    forall r: nat :: r < |log.frames| ==> WentOut(log, r)
  }

  /** The record only grows, payload by payload. */
  ghost predicate Extends(a: SendLog, b: SendLog) {
    && a.accepted <= b.accepted && a.starts <= b.starts && a.frames <= b.frames && a.batches <= b.batches
    && a.splits <= b.splits
    && (forall id :: id in a.catalog ==> id in b.catalog && b.catalog[id] == a.catalog[id])
    && (forall id :: id in a.catalog && id in a.owner ==> id in b.owner && b.owner[id] == a.owner[id])
    && |a.starts| == |a.accepted| && |b.starts| == |b.accepted|
    && (if |a.starts| < |b.starts| then b.starts[|a.starts|] == |a.frames| else |a.frames| == |b.frames|)
  }

  lemma ExtendsItself(a: SendLog)
    requires |a.starts| == |a.accepted|
    ensures Extends(a, a)
  {
  }

  lemma ExtendsTransitively(a: SendLog, b: SendLog, c: SendLog)
    requires Extends(a, b) && Extends(b, c)
    ensures Extends(a, c)
  {
  }

  lemma EndStays(a: SendLog, b: SendLog, k: nat)
    requires Extends(a, b) && k < |a.accepted|
    ensures End(b, k) == End(a, k) && b.starts[k] == a.starts[k] && b.accepted[k] == a.accepted[k]
  {
  }

  lemma GoodFrameStays(f: Frames.Frame, a: SendLog, b: SendLog)
    requires Extends(a, b) && GoodFrame(f, a)
    ensures GoodFrame(f, b)
  {
    EndStays(a, b, f.orderIndex);
    hide End, Extends;
    assert |b.accepted| == |b.starts| && |a.accepted| <= |b.accepted| by {
      ExtendsLengths(a, b);
    }
    if f.split.Some? {
      ExtendsCatalog(a, b, f.split.value.id);
    }
  }

  lemma ExtendsLengths(a: SendLog, b: SendLog)
    requires Extends(a, b)
    ensures |a.starts| == |a.accepted| <= |b.accepted| == |b.starts|
    ensures |a.frames| <= |b.frames| && |a.batches| <= |b.batches| && a.splits <= b.splits
    ensures forall r :: 0 <= r < |a.frames| ==> b.frames[r] == a.frames[r]
    ensures forall q :: 0 <= q < |a.batches| ==> b.batches[q] == a.batches[q]
  {
  }

  lemma ExtendsCatalog(a: SendLog, b: SendLog, id: u16)
    requires Extends(a, b) && id in a.catalog
    ensures id in b.catalog && b.catalog[id] == a.catalog[id]
    ensures id in a.owner ==> id in b.owner && b.owner[id] == a.owner[id]
  {
  }

  lemma GoodBatchStays(batch: seq<Frames.Frame>, a: SendLog, b: SendLog)
    requires Extends(a, b) && GoodBatch(batch, a)
    ensures GoodBatch(batch, b)
  {
    ExtendsLengths(a, b);
  }

  lemma GoodEntryStays(id: u16, a: SendLog, b: SendLog)
    requires Extends(a, b) && GoodEntry(id, a)
    ensures GoodEntry(id, b)
  {
    ExtendsLengths(a, b);
    ExtendsCatalog(a, b, id);
    EndStays(a, b, a.owner[id]);
    hide Extends, End, Splits.Concat;
  }

  lemma SpansAreDisjoint(log: SendLog, j: nat, k: nat, r: nat)
    requires forall i, j :: 0 <= i <= j < |log.starts| ==> log.starts[i] <= log.starts[j] <= |log.frames|
    requires j < |log.starts| && k < |log.starts|
    requires log.starts[j] <= r < End(log, j) && log.starts[k] <= r < End(log, k)
    ensures j == k
  {
  }

  /** The frames of payload k are those from its start to its end. */
  lemma GroupOf(log: SendLog, k: nat, r: nat)
    requires GoodLog(log) && k < |log.accepted| && log.starts[k] <= r < End(log, k)
    ensures r < |log.frames| && log.frames[r].orderIndex == k
  {
    assert GoodFrame(log.frames[r], log);
    hide GoodFrame, GoodBatch, GoodEntry;
    SpansAreDisjoint(log, log.frames[r].orderIndex, k, r);
  }

  lemma {:induction false} InFlat(batches: seq<seq<Frames.Frame>>, q: nat, i: nat)
    requires q < |batches| && i < |batches[q]|
    ensures batches[q][i] in Flatten(batches)
  {
    if q > 0 {
      InFlat(batches[1..], q - 1, i);
    }
  }

  lemma {:induction false} FromFlat(batches: seq<seq<Frames.Frame>>, f: Frames.Frame) returns (q: nat)
    requires f in Flatten(batches)
    ensures q < |batches| && f in batches[q]
  {
    if f in batches[0] {
      q := 0;
    } else {
      q := FromFlat(batches[1..], f);
      q := q + 1;
    }
  }

  // One accepted payload.

  /** The numbered frames of one payload, as they are logged under order index k. */
  ghost predicate GoodGroup(numbered: seq<Frames.Frame>, start: nat, k: nat, payload: bytes, splitId: Option<u16>, chunks: seq<bytes>) {
    && (forall i :: 0 <= i < |numbered| ==> GoodMember(numbered[i], i, start, k) && GoodContent(numbered[i], i, payload, splitId, chunks))
    && (splitId.None? ==> |numbered| <= 1)
    && (splitId.Some? ==> |numbered| == |chunks| && 2 <= |chunks| < TWO_32 && Splits.Concat(chunks) == payload)
  }

  ghost predicate GoodMember(f: Frames.Frame, i: nat, start: nat, k: nat) {
    && f.reliableIndex == start + i && f.orderIndex == k
    && f.reliability == Frames.ReliableOrdered && f.sequenceIndex == 0 && f.orderChannel == 0
  }

  ghost predicate GoodContent(f: Frames.Frame, i: nat, payload: bytes, splitId: Option<u16>, chunks: seq<bytes>) {
    && |f.payload| <= Frames.MAX_FRAME_PAYLOAD
    && match splitId
       case None => f.split.None? && f.payload == payload
       case Some(id) => f.split == Some(Frames.Split(|chunks| % TWO_32, id, i % TWO_32)) && i < |chunks| && f.payload == chunks[i] && f.payload != []
  }

  lemma SplittingMakesAGoodGroup(nextId: u16, payload: bytes, capacity: nat, start: nat, k: nat)
    requires capacity <= Frames.MAX_FRAME_PAYLOAD
    requires start + |Splits.SplitStep(nextId, payload, capacity).0| <= TWO_24 && k < TWO_24
    ensures var numbered := Numbered(Splits.SplitStep(nextId, payload, capacity).0, start % TWO_32, k);
            var splitId := if IsSplit(payload, capacity) then Some(nextId) else None;
            GoodGroup(numbered, start, k, payload, splitId, if IsSplit(payload, capacity) then Splits.Chunks(payload, capacity) else [])
  {
    if IsSplit(payload, capacity) {
      Splits.ChunksAreThePayload(payload, capacity);
      FragmentsAreAGoodGroup(nextId, payload, capacity, start, k, Splits.Chunks(payload, capacity));
      hide Splits.Chunks, Splits.Concat;
    }
  }

  lemma FragmentsAreAGoodGroup(id: u16, payload: bytes, capacity: nat, start: nat, k: nat, chunks: seq<bytes>)
    requires 0 < capacity <= Frames.MAX_FRAME_PAYLOAD && start + |chunks| <= TWO_24 && k < TWO_24
    requires Splits.Concat(chunks) == payload && |chunks| >= 2 && forall c :: c in chunks ==> 0 < |c| <= capacity
    ensures GoodGroup(Numbered(seq(|chunks|, i requires 0 <= i < |chunks| => Splits.Fragment(id, chunks, i)), start % TWO_32, k),
                      start, k, payload, Some(id), chunks)
  {
    hide Splits.Concat, GoodMember, GoodContent, Splits.Fragment, Numbered;
    var frames := seq(|chunks|, i requires 0 <= i < |chunks| => Splits.Fragment(id, chunks, i));
    var numbered := Numbered(frames, start % TWO_32, k);
    NumberedAt(frames, start % TWO_32, k, 0);
    forall i | 0 <= i < |numbered|
      ensures GoodMember(numbered[i], i, start, k) && GoodContent(numbered[i], i, payload, Some(id), chunks)
    {
      assert chunks[i] in chunks;
      NumberedAt(frames, start % TWO_32, k, i);
      OneGoodFragment(id, payload, chunks, i, start, k);
    }
  }

  lemma NumberedAt(frames: seq<Frames.Frame>, reliable: nat, order: u32, i: nat)
    requires i < |frames|
    ensures |Numbered(frames, reliable, order)| == |frames|
    ensures Numbered(frames, reliable, order)[i] == frames[i].(reliableIndex := (reliable + i) % TWO_32, orderIndex := order)
  {
  }

  lemma OneGoodFragment(id: u16, payload: bytes, chunks: seq<bytes>, i: nat, start: nat, k: nat)
    requires i < |chunks| && start + |chunks| <= TWO_24 && k < TWO_24 && 0 < |chunks[i]| <= Frames.MAX_FRAME_PAYLOAD
    ensures var f := Splits.Fragment(id, chunks, i).(reliableIndex := (start % TWO_32 + i) % TWO_32, orderIndex := k);
            GoodMember(f, i, start, k) && GoodContent(f, i, payload, Some(id), chunks)
  {
  }

  /** The record with the batches of one payload, then the payload itself. */
  ghost function Grown(log: SendLog, batches: seq<seq<Frames.Frame>>, payload: bytes, numbered: seq<Frames.Frame>, splitId: Option<u16>, capacity: nat): SendLog
    requires splitId.Some? ==> capacity > 0
  {
    Logged(log.(batches := log.batches + batches), payload, numbered, splitId, capacity)
  }

  ghost predicate NewId(log: SendLog, splitId: Option<u16>) {
    splitId.Some? ==> splitId.value !in log.catalog && splitId.value < log.splits
  }

  lemma GrownExtends(log: SendLog, batches: seq<seq<Frames.Frame>>, payload: bytes, numbered: seq<Frames.Frame>, splitId: Option<u16>, capacity: nat)
    requires |log.starts| == |log.accepted| && (splitId.Some? ==> capacity > 0) && NewId(log, splitId)
    ensures Extends(log, Grown(log, batches, payload, numbered, splitId, capacity))
  {
  }

  lemma NewFrameIsGood(log: SendLog, batches: seq<seq<Frames.Frame>>, payload: bytes, numbered: seq<Frames.Frame>, splitId: Option<u16>, capacity: nat, i: nat)
    requires |log.starts| == |log.accepted| && (splitId.Some? ==> capacity > 0) && i < |numbered|
    requires GoodGroup(numbered, |log.frames|, |log.accepted|, payload, splitId, if splitId.Some? then Splits.Chunks(payload, capacity) else [])
    ensures var after := Grown(log, batches, payload, numbered, splitId, capacity);
            GoodFrame(numbered[i], after) && after.frames[|log.frames| + i] == numbered[i]
  {
    hide Splits.Chunks, Splits.Concat;
  }

  lemma NewBatchIsGood(log: SendLog, batches: seq<seq<Frames.Frame>>, payload: bytes, numbered: seq<Frames.Frame>, splitId: Option<u16>, capacity: nat, q: nat)
    requires |log.starts| == |log.accepted| && (splitId.Some? ==> capacity > 0) && q < |batches|
    requires GoodGroup(numbered, |log.frames|, |log.accepted|, payload, splitId, if splitId.Some? then Splits.Chunks(payload, capacity) else [])
    requires Flatten(batches) == numbered && batches[q] != []
    ensures GoodBatch(batches[q], Grown(log, batches, payload, numbered, splitId, capacity))
  {
    var after, b := Grown(log, batches, payload, numbered, splitId, capacity), batches[q];
    forall i | 0 <= i < |b|
      ensures b[i].reliableIndex < |after.frames| && b[i] == after.frames[b[i].reliableIndex] && b[i].orderIndex == |log.accepted|
    {
      InFlat(batches, q, i);
      var j :| 0 <= j < |numbered| && numbered[j] == b[i];
      hide Splits.Chunks, Splits.Concat, Flatten;
      assert after.frames[|log.frames| + j] == numbered[j];
    }
  }

  lemma NewEntryIsGood(log: SendLog, batches: seq<seq<Frames.Frame>>, payload: bytes, numbered: seq<Frames.Frame>, id: u16, capacity: nat)
    requires |log.starts| == |log.accepted| && capacity > 0 && NewId(log, Some(id))
    requires GoodGroup(numbered, |log.frames|, |log.accepted|, payload, Some(id), Splits.Chunks(payload, capacity))
    ensures GoodEntry(id, Grown(log, batches, payload, numbered, Some(id), capacity))
  {
    hide Splits.Chunks, Splits.Concat;
  }

  lemma GrownLengths(log: SendLog, batches: seq<seq<Frames.Frame>>, payload: bytes, numbered: seq<Frames.Frame>, splitId: Option<u16>, capacity: nat)
    requires splitId.Some? ==> capacity > 0
    ensures var after := Grown(log, batches, payload, numbered, splitId, capacity);
            && after.frames == log.frames + numbered && after.accepted == log.accepted + [payload]
            && after.starts == log.starts + [|log.frames|]
            && after.batches == log.batches + batches && after.splits == log.splits
  {
  }

  lemma GrownFramesAreGood(log: SendLog, batches: seq<seq<Frames.Frame>>, payload: bytes, numbered: seq<Frames.Frame>, splitId: Option<u16>, capacity: nat, r: nat)
    requires GoodLog(log) && (splitId.Some? ==> capacity > 0) && NewId(log, splitId)
    requires GoodGroup(numbered, |log.frames|, |log.accepted|, payload, splitId, if splitId.Some? then Splits.Chunks(payload, capacity) else [])
    requires r < |log.frames| + |numbered|
    ensures var after := Grown(log, batches, payload, numbered, splitId, capacity);
            r < |after.frames| && after.frames[r].reliableIndex == r && GoodFrame(after.frames[r], after)
  {
    var after := Grown(log, batches, payload, numbered, splitId, capacity);
    GrownExtends(log, batches, payload, numbered, splitId, capacity);
    GrownLengths(log, batches, payload, numbered, splitId, capacity);
    hide GoodFrame, GoodBatch, GoodEntry, Grown, Extends, OneIdEach, Splits.Chunks, Splits.Concat, GoodContent;
    if r < |log.frames| {
      GoodFrameStays(log.frames[r], log, after);
    } else {
      NewFrameIsGood(log, batches, payload, numbered, splitId, capacity, r - |log.frames|);
    }
  }

  lemma GrownBatchesAreGood(log: SendLog, batches: seq<seq<Frames.Frame>>, payload: bytes, numbered: seq<Frames.Frame>, splitId: Option<u16>, capacity: nat, q: nat)
    requires GoodLog(log) && (splitId.Some? ==> capacity > 0) && NewId(log, splitId)
    requires GoodGroup(numbered, |log.frames|, |log.accepted|, payload, splitId, if splitId.Some? then Splits.Chunks(payload, capacity) else [])
    requires Flatten(batches) == numbered && forall b :: b in batches ==> b != []
    requires q < |log.batches| + |batches|
    ensures var after := Grown(log, batches, payload, numbered, splitId, capacity);
            q < |after.batches| && GoodBatch(after.batches[q], after)
  {
    var after := Grown(log, batches, payload, numbered, splitId, capacity);
    GrownExtends(log, batches, payload, numbered, splitId, capacity);
    GrownLengths(log, batches, payload, numbered, splitId, capacity);
    hide GoodFrame, GoodBatch, GoodEntry, Grown, Extends, OneIdEach, Flatten, GoodGroup, Splits.Chunks;
    if q < |log.batches| {
      GoodBatchStays(log.batches[q], log, after);
    } else {
      assert batches[q - |log.batches|] in batches;
      NewBatchIsGood(log, batches, payload, numbered, splitId, capacity, q - |log.batches|);
    }
  }

  lemma GrownEntriesAreGood(log: SendLog, batches: seq<seq<Frames.Frame>>, payload: bytes, numbered: seq<Frames.Frame>, splitId: Option<u16>, capacity: nat, id: u16)
    requires GoodLog(log) && (splitId.Some? ==> capacity > 0) && NewId(log, splitId)
    requires GoodGroup(numbered, |log.frames|, |log.accepted|, payload, splitId, if splitId.Some? then Splits.Chunks(payload, capacity) else [])
    requires id in Grown(log, batches, payload, numbered, splitId, capacity).catalog
    ensures GoodEntry(id, Grown(log, batches, payload, numbered, splitId, capacity))
  {
    var after := Grown(log, batches, payload, numbered, splitId, capacity);
    GrownExtends(log, batches, payload, numbered, splitId, capacity);
    assert id in log.catalog || splitId == Some(id);
    hide GoodFrame, GoodBatch, GoodEntry, Grown, Extends, OneIdEach, GoodGroup, Splits.Chunks;
    if id in log.catalog {
      GoodEntryStays(id, log, after);
    } else {
      NewEntryIsGood(log, batches, payload, numbered, id, capacity);
    }
  }

  lemma GrownHasOneIdEach(log: SendLog, batches: seq<seq<Frames.Frame>>, payload: bytes, numbered: seq<Frames.Frame>, splitId: Option<u16>, capacity: nat)
    requires GoodLog(log) && (splitId.Some? ==> capacity > 0) && NewId(log, splitId)
    ensures OneIdEach(Grown(log, batches, payload, numbered, splitId, capacity))
  {
    hide GoodFrame, GoodBatch, Splits.Chunks, Splits.Concat;
    assert forall id :: id in log.owner ==> GoodEntry(id, log);
  }

  lemma GrownStartsAscend(log: SendLog, batches: seq<seq<Frames.Frame>>, payload: bytes, numbered: seq<Frames.Frame>, splitId: Option<u16>, capacity: nat)
    requires GoodLog(log) && (splitId.Some? ==> capacity > 0)
    ensures var after := Grown(log, batches, payload, numbered, splitId, capacity);
            forall i, j :: 0 <= i <= j < |after.starts| ==> after.starts[i] <= after.starts[j] <= |after.frames|
  {
    hide GoodFrame, GoodBatch, GoodEntry, OneIdEach;
    GrownLengths(log, batches, payload, numbered, splitId, capacity);
    hide Grown;
  }

  lemma GrownIsGood(log: SendLog, batches: seq<seq<Frames.Frame>>, payload: bytes, numbered: seq<Frames.Frame>, splitId: Option<u16>, capacity: nat)
    requires GoodLog(log) && (splitId.Some? ==> capacity > 0) && NewId(log, splitId)
    requires GoodGroup(numbered, |log.frames|, |log.accepted|, payload, splitId, if splitId.Some? then Splits.Chunks(payload, capacity) else [])
    requires Flatten(batches) == numbered && forall b :: b in batches ==> b != []
    ensures GoodLog(Grown(log, batches, payload, numbered, splitId, capacity))
  {
    var after := Grown(log, batches, payload, numbered, splitId, capacity);
    GrownLengths(log, batches, payload, numbered, splitId, capacity);
    GrownStartsAscend(log, batches, payload, numbered, splitId, capacity);
    GrownHasOneIdEach(log, batches, payload, numbered, splitId, capacity);
    GoodLogLengths(log);
    hide GoodFrame, GoodBatch, GoodEntry, Grown, Flatten, GoodGroup, Extends, OneIdEach, Splits.Chunks;
    forall r | 0 <= r < |after.frames|
      ensures after.frames[r].reliableIndex == r && GoodFrame(after.frames[r], after)
    {
      GrownFramesAreGood(log, batches, payload, numbered, splitId, capacity, r);
    }
    forall q | 0 <= q < |after.batches|
      ensures GoodBatch(after.batches[q], after)
    {
      GrownBatchesAreGood(log, batches, payload, numbered, splitId, capacity, q);
    }
    forall id | id in after.catalog
      ensures GoodEntry(id, after)
    {
      GrownEntriesAreGood(log, batches, payload, numbered, splitId, capacity, id);
    }
  }

  lemma GoodLogLengths(log: SendLog)
    requires GoodLog(log)
    ensures |log.starts| == |log.accepted|
  {
  }

  lemma GrownIsFramed(log: SendLog, batches: seq<seq<Frames.Frame>>, payload: bytes, numbered: seq<Frames.Frame>, splitId: Option<u16>, capacity: nat)
    requires Framed(log) && |log.starts| == |log.accepted| && (splitId.Some? ==> capacity > 0) && numbered != []
    ensures Framed(Grown(log, batches, payload, numbered, splitId, capacity))
  {
    var after := Grown(log, batches, payload, numbered, splitId, capacity);
    assert after.starts == log.starts + [|log.frames|] && |after.frames| == |log.frames| + |numbered|;
    assert forall k: nat :: k < |log.starts| ==> after.starts[k] == log.starts[k] < End(log, k) == End(after, k);
  }

  lemma GrownIsCarried(log: SendLog, batches: seq<seq<Frames.Frame>>, payload: bytes, numbered: seq<Frames.Frame>, splitId: Option<u16>, capacity: nat)
    requires Carried(log) && (splitId.Some? ==> capacity > 0) && Flatten(batches) == numbered
    ensures Carried(Grown(log, batches, payload, numbered, splitId, capacity))
  {
    var after := Grown(log, batches, payload, numbered, splitId, capacity);
    forall r: nat | r < |after.frames|
      ensures WentOut(after, r)
    {
      if r < |log.frames| {
        assert WentOut(log, r);
        var q: nat :| InBatch(log, r, q);
        assert InBatch(after, r, q);
      } else {
        var f := numbered[r - |log.frames|];
        assert f in Flatten(batches);
        var q := FromFlat(batches, f);
        assert after.batches[|log.batches| + q] == batches[q] && after.frames[r] == f;
        assert InBatch(after, r, |log.batches| + q);
      }
    }
  }
}
