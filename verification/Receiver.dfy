/** The receiving half of an endpoint, seen against the record of what its peer sent. */
module Receiver {
  import opened Integers
  import opened SessionSpec
  import opened SendHistory
  import opened Reassembly
  import Frames
  import Splits
  import Order

  /** A frame the peer really sent, under the reliable index it carries. */
  ghost predicate Known(f: Frames.Frame, log: SendLog) {
    f.reliableIndex < |log.frames| && f == log.frames[f.reliableIndex] && GoodFrame(f, log)
  }

  /** A stored fragment is one of the peer's, and its frame has been taken. */
  ghost predicate Located(g: (int, int), log: SendLog, taken: set<nat>) {
    && 0 <= g.0 < TWO_16 && g.0 in log.catalog && g.0 in log.owner
    && 0 <= g.1 < |log.catalog[g.0]|
    && log.owner[g.0] < |log.starts|
    && log.starts[log.owner[g.0]] + g.1 in taken
  }

  ghost predicate AllLocated(fragments: set<(int, int)>, log: SendLog, taken: set<nat>) {
    forall g :: g in fragments ==> Located(g, log, taken)
  }

  /** What holds whatever was lost, repeated, refused or expired. */
  ghost predicate RxCore(rx: Rx, log: SendLog) {
    && (forall s :: s in rx.log.received ==> s < |log.batches|)
    && (forall i :: 0 <= i < |rx.pendingAcks| ==> rx.pendingAcks[i] in rx.log.received)
    && Order.Remembers(rx.dedup, rx.log.taken)
    && (forall r :: r in rx.log.taken ==> r < |log.frames|)
    && Genuine(rx.reasm, log.catalog, rx.log.fragments)
    && AllLocated(rx.log.fragments, log, rx.log.taken)
    && Order.InOrder(rx.ordering, log.accepted, rx.log.released, rx.log.pushed)
  }

  /** A taken frame has left its mark: its payload is in order, or its fragment is stored. */
  ghost predicate Placed(f: Frames.Frame, got: RecvLog) {
    match f.split
    case None => f.orderIndex in got.pushed
    case Some(s) => (s.id, s.index) in got.fragments
  }

  ghost predicate PlacedBut(log: SendLog, got: RecvLog, skip: int) {
    forall r :: r in got.taken && r < |log.frames| && r != skip ==> Placed(log.frames[r], got)
  }

  ghost predicate WholePushed(log: SendLog, got: RecvLog) {
    forall id :: id in log.catalog && id in log.owner && AllOf(got.fragments, id, |log.catalog[id]|) ==> log.owner[id] in got.pushed
  }

  /** What holds as well while nothing has been refused or dropped: every frame taken, but perhaps
      the one in hand, has been put in its place. */
  ghost predicate Clean(rx: Rx, log: SendLog, inHand: int) {
    && Exact(rx.reasm, log.catalog, rx.log.fragments)
    && PlacedBut(log, rx.log, inHand)
    && WholePushed(log, rx.log)
  }

  /** All frames of payload k have been taken. */
  ghost predicate GroupTaken(log: SendLog, taken: set<nat>, k: nat) {
    k < |log.starts| && forall r :: log.starts[k] <= r < End(log, k) ==> r in taken
  }

  // The three stages of taking a frame.

  lemma LocatedStays(fragments: set<(int, int)>, log: SendLog, taken: set<nat>, more: set<nat>)
    requires AllLocated(fragments, log, taken) && taken <= more
    ensures AllLocated(fragments, log, more)
  {
  }

  lemma MarkKeeps(rx: Rx, log: SendLog, f: Frames.Frame)
    requires RxCore(rx, log) && Known(f, log)
    ensures var (dedup, isNew) := Order.AcceptStep(rx.dedup, f.reliableIndex);
            if isNew
            then f.reliableIndex !in rx.log.taken && RxCore(Marked(rx, f, dedup), log)
                 && (Clean(rx, log, -1) ==> Clean(Marked(rx, f, dedup), log, f.reliableIndex))
            else RxCore(Skipped(rx, f), log)
  {
    Order.AcceptAnswers(rx.dedup, rx.log.taken, f.reliableIndex);
    LocatedStays(rx.log.fragments, log, rx.log.taken, rx.log.taken + {f.reliableIndex});
    hide Order.Remembers, Order.AcceptStep, Order.FloorOf, Genuine, AllLocated, Order.InOrder, Exact, GoodFrame, AllOf;
  }

  lemma ReleaseKeeps(rx: Rx, log: SendLog, f: Frames.Frame)
    requires RxCore(rx, log) && Known(f, log) && Bounded(log)
    ensures var (after, outcome) := Release(rx, f, log.accepted[f.orderIndex]);
            && RxCore(after, log)
            && match outcome
               case Failed(_) => after == rx
               case Released(ready) =>
                 after == rx.(ordering := after.ordering,
                 log := rx.log.(released := rx.log.released + ready, pushed := rx.log.pushed + {f.orderIndex}))
  {
    hide Genuine, AllLocated, Order.Remembers;
    Order.PushKeepsOrder(rx.ordering, log.accepted, rx.log.released, rx.log.pushed, f.orderIndex);
    hide Order.InOrder, Order.PushStep;
  }

  /** A fragment stored keeps the view; when it completes a payload, that is the payload named by the
      frame, and every frame of it has been taken. */
  lemma StoreKeeps(rx: Rx, log: SendLog, f: Frames.Frame, now: nat)
    requires RxCore(rx, log) && Known(f, log) && GoodLog(log) && f.reliableIndex in rx.log.taken
    ensures var (reasm, result) := Splits.PushStep(rx.reasm, f, now);
            && (result.Success? ==> RxCore(Stored(rx, f, reasm), log))
            && (result.Success? && result.value.Some? ==>
                  result.value.value == log.accepted[f.orderIndex] && GroupTaken(log, rx.log.taken, f.orderIndex))
  {
    if f.split.Some? {
      FragmentIsLocated(rx, log, f);
      hide GoodLog, GoodFrame, RxCore;
      StoreFragmentKeeps(rx, log, f, now);
    } else {
      hide RxCore;
    }
  }

  lemma StoreFragmentKeeps(rx: Rx, log: SendLog, f: Frames.Frame, now: nat)
    requires RxCore(rx, log) && f.split.Some? && FromCatalog(f.split.value, f.payload, log.catalog) && GoodEntry(f.split.value.id, log)
    requires f.orderIndex < |log.accepted|
    requires log.owner[f.split.value.id] == f.orderIndex && Splits.Concat(log.catalog[f.split.value.id]) == log.accepted[f.orderIndex]
    requires AllLocated(rx.log.fragments + {(f.split.value.id, f.split.value.index)}, log, rx.log.taken)
    ensures var (reasm, result) := Splits.PushStep(rx.reasm, f, now);
            && (result.Success? ==> RxCore(Stored(rx, f, reasm), log))
            && (result.Success? && result.value.Some? ==>
                  result.value.value == log.accepted[f.orderIndex] && GroupTaken(log, rx.log.taken, f.orderIndex))
  {
    var split := f.split.value;
    PushIsGenuine(rx.reasm, f, now, log.catalog, rx.log.fragments);
    var (reasm, result) := Splits.PushStep(rx.reasm, f, now);
    var got := rx.log.fragments + {(split.id, split.index)};
    hide Genuine, AllLocated, GoodEntry, FromCatalog, Order.Remembers, Order.InOrder, Splits.PushStep, Splits.Concat, AllOf, GroupTaken;
    if result.Success? && result.value.Some? {
      AllOfIsTheGroup(log, got, rx.log.taken, split.id);
    }
  }

  lemma FragmentIsLocated(rx: Rx, log: SendLog, f: Frames.Frame)
    requires RxCore(rx, log) && Known(f, log) && GoodLog(log) && f.reliableIndex in rx.log.taken && f.split.Some?
    ensures var split := f.split.value;
            && FromCatalog(split, f.payload, log.catalog) && GoodEntry(split.id, log)
            && log.owner[split.id] == f.orderIndex && Splits.Concat(log.catalog[split.id]) == log.accepted[f.orderIndex]
            && AllLocated(rx.log.fragments + {(split.id, split.index)}, log, rx.log.taken)
  {
    var split := f.split.value;
    assert GoodEntry(split.id, log);
    hide GoodLog, Genuine, Order.Remembers, Order.InOrder, Splits.Concat;
    assert Located((split.id, split.index), log, rx.log.taken);
  }

  lemma AllOfIsTheGroup(log: SendLog, got: set<(int, int)>, taken: set<nat>, id: u16)
    requires id in log.catalog && GoodEntry(id, log) && AllLocated(got, log, taken) && AllOf(got, id, |log.catalog[id]|)
    ensures GroupTaken(log, taken, log.owner[id])
  {
    var k := log.owner[id];
    forall r | log.starts[k] <= r < End(log, k)
      ensures r in taken
    {
      var j := r - log.starts[k];
      assert (id as int, j) in got;
      assert Located((id as int, j), log, taken);
    }
  }

  lemma OthersUntouched(got: set<(int, int)>, id: nat, index: nat, other: nat, count: nat)
    requires other != id && AllOf(got + {(id, index)}, other, count)
    ensures AllOf(got, other, count)
  {
  }

  lemma WholeStaysPushed(log: SendLog, before: RecvLog, after: RecvLog, id: u16, index: nat)
    requires WholePushed(log, before) && before.pushed <= after.pushed
    requires after.fragments == before.fragments + {(id as int, index)}
    requires id in log.catalog && id in log.owner && AllOf(after.fragments, id, |log.catalog[id]|) ==> log.owner[id] in after.pushed
    ensures WholePushed(log, after)
  {
    forall other | other in log.catalog && other in log.owner && AllOf(after.fragments, other, |log.catalog[other]|)
      ensures log.owner[other] in after.pushed
    {
      if other != id {
        OthersUntouched(before.fragments, id, index, other, |log.catalog[other]|);
      }
    }
  }

  lemma PlacedStays(log: SendLog, before: RecvLog, after: RecvLog, f: Frames.Frame)
    requires PlacedBut(log, before, f.reliableIndex) && Known(f, log) && Placed(f, after)
    requires after.taken == before.taken && before.fragments <= after.fragments && before.pushed <= after.pushed
    ensures PlacedBut(log, after, -1)
  {
  }

  /** While nothing is refused or dropped, a frame not seen before ends up in its place. */
  lemma PlaceIsClean(rx: Rx, log: SendLog, f: Frames.Frame, now: nat, after: Rx)
    requires RxCore(rx, log) && Known(f, log) && GoodLog(log) && f.reliableIndex in rx.log.taken
    requires Clean(rx, log, f.reliableIndex)
    requires f.split.Some? ==> (f.split.value.id, f.split.value.index) !in rx.log.fragments
    requires var (reasm, result) := Splits.PushStep(rx.reasm, f, now);
             && result.Success?
             && after.reasm == reasm && after.log.taken == rx.log.taken
             && after.log.fragments == Stored(rx, f, reasm).log.fragments
             && after.log.pushed == rx.log.pushed + (if result.value.Some? then {f.orderIndex} else {})
    ensures Clean(after, log, -1)
  {
    if f.split.Some? {
      var split := f.split.value;
      FragmentIsLocated(rx, log, f);
      Splits.PushDecides(rx.reasm, f, now);
      assert Splits.Refusal(rx.reasm, split, |f.payload|).None?;
      hide GoodLog, GoodFrame, GoodEntry, Genuine, Exact, AllLocated, AllOf, Order.Remembers, Order.InOrder, Splits.Refusal, Splits.Concat, PlacedBut, WholePushed;
      PushIsExact(rx.reasm, f, now, log.catalog, rx.log.fragments);
      hide Splits.PushStep;
      WholeStaysPushed(log, rx.log, after.log, split.id, split.index);
    }
    hide WholePushed, AllOf, Exact, RxCore, GoodLog, PlacedBut;
    PlacedStays(log, rx.log, after.log, f);
  }

  // Taking one frame.

  /** What taking a frame leaves alone, and what it only adds to. */
  ghost predicate OnlyTakes(rx: Rx, after: Rx, ready: seq<bytes>) {
    && after.pendingAcks == rx.pendingAcks
    && rx.log.taken <= after.log.taken
    && after.log == rx.log.(taken := after.log.taken, fragments := after.log.fragments, pushed := after.log.pushed,
                    released := rx.log.released + ready, late := after.log.late)
    && (rx.log.late ==> after.log.late)
  }

  lemma NotYetStored(rx: Rx, log: SendLog, f: Frames.Frame)
    requires RxCore(rx, log) && Known(f, log) && f.split.Some? && f.reliableIndex !in rx.log.taken
    ensures (f.split.value.id, f.split.value.index) !in rx.log.fragments
  {
    hide Order.Remembers, Order.InOrder, Genuine;
    assert (f.split.value.id, f.split.value.index) in rx.log.fragments ==>
        Located((f.split.value.id, f.split.value.index), log, rx.log.taken);
  }

  ghost predicate Took(rx: Rx, log: SendLog, f: Frames.Frame, after: Rx, outcome: Outcome) {
    && RxCore(after, log)
    && match outcome
       case Released(ready) =>
         && OnlyTakes(rx, after, ready)
         && (ready != [] ==> GroupTaken(log, after.log.taken, f.orderIndex))
         && (Clean(rx, log, -1) && !after.log.late ==> Clean(after, log, -1) && f.reliableIndex in after.log.taken)
       case Failed(_) => OnlyTakes(rx, after, []) && !GroupTaken(log, rx.log.taken, f.orderIndex)
  }

  lemma PlaceKeeps(rx: Rx, log: SendLog, f: Frames.Frame, now: nat)
    requires RxCore(rx, log) && Known(f, log) && GoodLog(log) && Bounded(log) && f.reliableIndex in rx.log.taken
    requires f.split.Some? ==> (f.split.value.id, f.split.value.index) !in rx.log.fragments
    ensures var (after, outcome) := Place(rx, f, now);
            && RxCore(after, log)
            && match outcome
               case Released(ready) =>
                 && OnlyTakes(rx, after, ready)
                 && after.log.late == rx.log.late && after.log.taken == rx.log.taken
                 && (ready != [] ==> GroupTaken(log, rx.log.taken, f.orderIndex))
               case Failed(_) => OnlyTakes(rx, after, [])
  {
    var (reasm, result) := Splits.PushStep(rx.reasm, f, now);
    StoreKeeps(rx, log, f, now);
    assert rx.log.released + [] == rx.log.released;
    hide RxCore, Known, GoodLog, GoodFrame, Splits.PushStep, Bounded, GroupTaken;
    if result.Success? && result.value.Some? {
      ReleaseKeeps(Stored(rx, f, reasm), log, f);
      hide Release;
    }
  }

  lemma PlaceKeepsClean(rx: Rx, log: SendLog, f: Frames.Frame, now: nat)
    requires RxCore(rx, log) && Known(f, log) && GoodLog(log) && Bounded(log) && f.reliableIndex in rx.log.taken
    requires f.split.Some? ==> (f.split.value.id, f.split.value.index) !in rx.log.fragments
    ensures var (after, outcome) := Place(rx, f, now);
            outcome.Released? && Clean(rx, log, f.reliableIndex) ==> Clean(after, log, -1)
  {
    hide RxCore, Known, GoodLog, GoodFrame, Splits.PushStep, Clean, Bounded, GroupTaken;
      var (after, outcome) := Place(rx, f, now);
    var (reasm, result) := Splits.PushStep(rx.reasm, f, now);
    StoreKeeps(rx, log, f, now);
    if result.Success? && result.value.Some? {
      ReleaseKeeps(Stored(rx, f, reasm), log, f);
      hide Release;
    }
    if outcome.Released? && Clean(rx, log, f.reliableIndex) {
      PlaceIsClean(rx, log, f, now, after);
    }
  }

  lemma KnownIsReliable(f: Frames.Frame, log: SendLog)
    requires Known(f, log)
    ensures f.reliability.IsReliable()
  {
  }

  /** A frame of the peer's, whatever came before it. */
  lemma TakeFrameKeeps(rx: Rx, log: SendLog, f: Frames.Frame, now: nat)
    requires RxCore(rx, log) && Known(f, log) && GoodLog(log) && Bounded(log)
    ensures var (after, outcome) := TakeFrame(rx, f, now);
            Took(rx, log, f, after, outcome)
  {
    hide RxCore, GoodLog, GoodFrame, Clean, Order.AcceptStep, Place, Bounded;
    MarkKeeps(rx, log, f);
    var (dedup, isNew) := Order.AcceptStep(rx.dedup, f.reliableIndex);
    assert f.reliability.IsReliable() by {
      KnownIsReliable(f, log);
    }
    if isNew {
      if f.split.Some? {
        NotYetStored(rx, log, f);
      }
      PlaceKeeps(Marked(rx, f, dedup), log, f, now);
      PlaceKeepsClean(Marked(rx, f, dedup), log, f, now);
      NotWhollyTaken(log, rx.log.taken, f);
      hide GroupTaken;
    } else {
      assert rx.log.released + [] == rx.log.released;
      SkippedIsClean(rx, log, f);
    }
  }

  lemma NotWhollyTaken(log: SendLog, taken: set<nat>, f: Frames.Frame)
    requires Known(f, log) && f.reliableIndex !in taken
    ensures !GroupTaken(log, taken, f.orderIndex)
  {
  }

  lemma SkippedIsClean(rx: Rx, log: SendLog, f: Frames.Frame)
    ensures Clean(rx, log, -1) ==> Clean(Skipped(rx, f), log, -1)
  {
  }
}
