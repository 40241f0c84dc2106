/** What expiry does to a payload: over every run of fragments and expiries, the last fragment gives the
    payload exactly when no expiry came too late while it was open. */
module Expiry {
  import opened Integers
  import opened Wrappers
  import opened KeyOrder
  import opened Splits
  import opened Reassembly
  import Frames

  datatype Event = Arrives(a: Arrival) | Expires(now: nat)

  ghost predicate Fits(catalog: Catalog, events: seq<Event>) {
    forall n :: 0 <= n < |events| && events[n].Arrives? ==> Known(catalog, events[n].a)
  }

  /** The fragments that have arrived. */
  ghost function Received(events: seq<Event>): set<(int, int)>
    decreases |events|
  {
    if events == [] then {} else
    var last := events[|events| - 1];
    Received(events[..|events| - 1]) + (if last.Arrives? then {(last.a.id as int, last.a.index as int)} else {})
  }

  /** When the first fragment of the payload arrived. */
  ghost function FirstTime(events: seq<Event>, id: u16): Option<nat>
    decreases |events|
  {
    if events == [] then None else
    var before, last := FirstTime(events[..|events| - 1], id), events[|events| - 1];
    if before.Some? then before else if last.Arrives? && last.a.id == id then Some(last.a.now) else None
  }

  ghost function After(limits: Limits, catalog: Catalog, events: seq<Event>): ReasmState
    requires Fits(catalog, events)
    decreases |events|
  {
    if events == [] then NewReasm(limits) else
    var before := After(limits, catalog, events[..|events| - 1]);
    match events[|events| - 1]
    case Arrives(a) => PushStep(before, FrameOf(catalog, a), a.now).0
    case Expires(now) => ExpireStep(before, now)
  }

  /** What the n-th event, a fragment, is answered. */
  ghost function Answer(limits: Limits, catalog: Catalog, events: seq<Event>, n: nat): Result<Option<bytes>, SplitError>
    requires Fits(catalog, events) && n < |events| && events[n].Arrives?
  {
    PushStep(After(limits, catalog, events[..n]), FrameOf(catalog, events[n].a), events[n].a.now).1
  }

  /** No fragment of the payload is refused. */
  ghost predicate NoneRefused(limits: Limits, catalog: Catalog, events: seq<Event>, id: u16)
    requires Fits(catalog, events)
  {
    forall n :: 0 <= n < |events| && events[n].Arrives? && events[n].a.id == id ==> Answer(limits, catalog, events, n).Success?
  }

  ghost predicate OnceEach(events: seq<Event>, id: u16) {
    forall m, n :: 0 <= m < n < |events| && events[m].Arrives? && events[n].Arrives? && events[m].a.id == id && events[n].a.id == id ==>
                     events[m].a.index != events[n].a.index
  }

  /** The n-th event is an expiry at which the payload, partly received, is too old. */
  ghost predicate TooLate(limits: Limits, events: seq<Event>, id: u16, count: nat, n: nat)
    requires n < |events|
  {
    && events[n].Expires? && PartOf(Received(events[..n]), id, count)
    && var first := FirstTime(events[..n], id);
    first.Some? && (limits.timeout == 0 || events[n].now >= first.value + limits.timeout)
  }

  ghost predicate InTime(limits: Limits, events: seq<Event>, id: u16, count: nat) {
    forall n :: 0 <= n < |events| ==> !TooLate(limits, events, id, count, n)
  }

  // One event more.

  lemma EarlierFits(limits: Limits, catalog: Catalog, events: seq<Event>, id: u16)
    requires Fits(catalog, events) && events != [] && NoneRefused(limits, catalog, events, id) && OnceEach(events, id)
    ensures var front := events[..|events| - 1];
            Fits(catalog, front) && NoneRefused(limits, catalog, front, id) && OnceEach(front, id)
  {
    hide PushStep, After;
    var front := events[..|events| - 1];
    forall n | 0 <= n < |front| && front[n].Arrives? && front[n].a.id == id
      ensures Answer(limits, catalog, front, n).Success?
    {
      assert front[..n] == events[..n];
      assert Answer(limits, catalog, events, n).Success?;
    }
  }

  lemma OneEventMore(limits: Limits, events: seq<Event>, id: u16, count: nat)
    requires events != []
    ensures var last := |events| - 1;
            InTime(limits, events, id, count) <==>
            InTime(limits, events[..last], id, count) && !TooLate(limits, events, id, count, last)
  {
    hide Received, FirstTime, PartOf;
    var last := |events| - 1;
    forall n | 0 <= n < last
      ensures TooLate(limits, events[..last], id, count, n) <==> TooLate(limits, events, id, count, n)
    {
      assert events[..last][..n] == events[..n];
    }
  }

  lemma {:induction false} NotReceivedYet(events: seq<Event>, id: u16, index: nat)
    requires forall n :: 0 <= n < |events| && events[n].Arrives? && events[n].a.id == id ==> events[n].a.index != index
    ensures (id as int, index as int) !in Received(events)
    decreases |events|
  {
    if events != [] {
      NotReceivedYet(events[..|events| - 1], id, index);
    }
  }

  // What an event does to one payload.

  /** Held is what was received, and since when; or nothing, when nothing or everything was. */
  ghost predicate Whole(r: ReasmState, id: u16, chunks: seq<bytes>, got: set<(int, int)>, first: Option<nat>) {
    && ExactAt(r, id, |chunks|, got)
    && (SomeOf(got, id, |chunks|) <==> first.Some?)
    && (id in r.pending ==> EntryFrom(r.pending[id], id, chunks, got) && first == Some(r.pending[id].firstSeen))
  }

  /** A fragment that was received is gone. */
  ghost predicate Broken(r: ReasmState, id: u16, chunks: seq<bytes>, got: set<(int, int)>, gone: nat) {
    && gone < |chunks| && (id as int, gone as int) in got
    && (id in r.pending ==> EntryFrom(r.pending[id], id, chunks, got) && gone !in r.pending[id].fragments)
  }

  /** A push leaves the other payloads alone. */
  lemma OthersUntouched(r: ReasmState, f: Frames.Frame, now: nat, id: u16)
    requires f.split.Some? && f.split.value.id != id
    ensures var after := PushStep(r, f, now).0;
            (id in after.pending <==> id in r.pending) && (id in r.pending ==> after.pending[id] == r.pending[id])
  {
    PushDecides(r, f, now);
    hide PushStep, Refusal, Gather, Sorted, IsWhole;
  }

  lemma GrownFrom(r: ReasmState, split: Frames.Split, payload: bytes, now: nat, chunks: seq<bytes>, got: set<(int, int)>)
    requires split.count == |chunks| && split.index < |chunks| && payload == chunks[split.index]
    requires split.id in r.pending ==> EntryFrom(r.pending[split.id], split.id, chunks, got)
    ensures EntryFrom(Grown(r, split, payload, now), split.id, chunks, got + {(split.id, split.index)})
    ensures Grown(r, split, payload, now).firstSeen == if split.id in r.pending then r.pending[split.id].firstSeen else now
    ensures forall i :: i in Grown(r, split, payload, now).fragments ==>
                          i == split.index || (split.id in r.pending && i in r.pending[split.id].fragments)
  {
  }

  /** A fragment of the payload that is taken: it comes out whole exactly when it was the last. */
  lemma OwnFragment(r: ReasmState, catalog: Catalog, a: Arrival, got: set<(int, int)>, first: Option<nat>)
    requires Known(catalog, a) && |catalog[a.id]| < TWO_32 && (a.id, a.index) !in got
    requires Whole(r, a.id, catalog[a.id], got, first) && PushStep(r, FrameOf(catalog, a), a.now).1.Success?
    ensures var (after, answer) := PushStep(r, FrameOf(catalog, a), a.now);
            var got' := got + {(a.id as int, a.index as int)};
            && Whole(after, a.id, catalog[a.id], got', if first.Some? then first else Some(a.now))
            && answer == Success(if AllOf(got', a.id, |catalog[a.id]|) then Some(Concat(catalog[a.id])) else None)
  {
    var f, id, chunks := FrameOf(catalog, a), a.id, catalog[a.id];
    var split := f.split.value;
    assert split == Frames.Split(|chunks|, id, a.index) && f.payload == chunks[a.index] && FromCatalog(split, f.payload, catalog);
    var got' := got + {(id as int, a.index as int)};
    var grown := Grown(r, split, f.payload, a.now);
    PushDecides(r, f, a.now);
    GrownFrom(r, split, f.payload, a.now, chunks, got);
    GrownHasAll(r, split, f.payload, a.now, catalog, got);
    WholeIffAll(grown, id, chunks, got');
    assert SomeOf(got', id, |chunks|) by {
      assert (id, a.index) in got';
    }
    if IsWhole(grown) {
      WholeIsThePayload(grown, id, chunks, got');
    }
    hide PushStep, Refusal, Grown, Gather, Sorted, IsWhole, AllOf, SomeOf, EntryFrom, HasAll, FrameOf, Concat;
  }

  /** Once a fragment is gone, no other gives anything. */
  lemma NeverWhole(r: ReasmState, catalog: Catalog, a: Arrival, got: set<(int, int)>, gone: nat)
    requires Known(catalog, a) && |catalog[a.id]| < TWO_32 && a.index != gone
    requires Broken(r, a.id, catalog[a.id], got, gone) && PushStep(r, FrameOf(catalog, a), a.now).1.Success?
    ensures var (after, answer) := PushStep(r, FrameOf(catalog, a), a.now);
            && Broken(after, a.id, catalog[a.id], got + {(a.id as int, a.index as int)}, gone)
            && answer == Success(None)
  {
    var f, id, chunks := FrameOf(catalog, a), a.id, catalog[a.id];
    var split := f.split.value;
    assert split == Frames.Split(|chunks|, id, a.index) && f.payload == chunks[a.index];
    var grown := Grown(r, split, f.payload, a.now);
    PushDecides(r, f, a.now);
    GrownFrom(r, split, f.payload, a.now, chunks, got);
    assert gone !in grown.fragments;
    if IsWhole(grown) {
      WholeHasAll(grown, id, chunks, got + {(id, a.index)});
      assert false;
    }
    hide PushStep, Refusal, Grown, Gather, Sorted, IsWhole, EntryFrom, FrameOf;
  }

  // Every run.

  ghost predicate Stands(limits: Limits, events: seq<Event>, id: u16, chunks: seq<bytes>, r: ReasmState) {
    && r.limits == limits
    && if InTime(limits, events, id, |chunks|)
       then Whole(r, id, chunks, Received(events), FirstTime(events, id))
       else exists gone: nat :: Broken(r, id, chunks, Received(events), gone)
  }

  lemma PushKeepsLimits(r: ReasmState, f: Frames.Frame, now: nat)
    ensures PushStep(r, f, now).0.limits == r.limits
  {
    hide Gather, Sorted, IsWhole, LateRefusal, EarlyRefusal;
  }

  lemma GotMore(p: Pending, id: u16, chunks: seq<bytes>, got: set<(int, int)>, more: set<(int, int)>)
    requires EntryFrom(p, id, chunks, got)
    ensures EntryFrom(p, id, chunks, got + more)
  {
  }

  /** A fragment of another payload. */
  lemma OtherFragment(limits: Limits, catalog: Catalog, events: seq<Event>, id: u16, chunks: seq<bytes>, r: ReasmState, a: Arrival)
    requires Stands(limits, events, id, chunks, r) && Known(catalog, a) && a.id != id
    ensures Stands(limits, events + [Arrives(a)], id, chunks, PushStep(r, FrameOf(catalog, a), a.now).0)
  {
    var after, all := PushStep(r, FrameOf(catalog, a), a.now).0, events + [Arrives(a)];
    var got, more := Received(events), {(a.id as int, a.index as int)};
    assert all[..|events|] == events;
    OneEventMore(limits, all, id, |chunks|);
    assert Received(all) == got + more && FirstTime(all, id) == FirstTime(events, id);
    PushKeepsLimits(r, FrameOf(catalog, a), a.now);
    OthersUntouched(r, FrameOf(catalog, a), a.now, id);
    if id in r.pending && EntryFrom(r.pending[id], id, chunks, got) {
      GotMore(r.pending[id], id, chunks, got, more);
    }
    hide PushStep, Received, FirstTime, InTime, EntryFrom, FrameOf;
    if InTime(limits, events, id, |chunks|) {
      OtherStaysExact(r, after, id, |chunks|, got, a.id, a.index);
      assert SomeOf(got + more, id, |chunks|) ==> SomeOf(got, id, |chunks|);
    } else {
      var gone: nat :| Broken(r, id, chunks, got, gone);
      assert Broken(after, id, chunks, got + more, gone);
    }
  }

  /** An expiry. */
  lemma OneExpiry(limits: Limits, events: seq<Event>, id: u16, chunks: seq<bytes>, r: ReasmState, now: nat)
    requires Stands(limits, events, id, chunks, r)
    ensures Stands(limits, events + [Expires(now)], id, chunks, ExpireStep(r, now))
  {
    var after, all := ExpireStep(r, now), events + [Expires(now)];
    var got, first := Received(events), FirstTime(events, id);
    assert all[..|events|] == events && all[|events|] == Expires(now);
    OneEventMore(limits, all, id, |chunks|);
    assert Received(all) == got && FirstTime(all, id) == first by {
      assert got + {} == got;
    }
    ExpireIsExact(r, now);
    hide ExpireStep, Received, FirstTime, InTime, EntryFrom, HasAll;
    if InTime(limits, events, id, |chunks|) {
      if TooLate(limits, all, id, |chunks|, |events|) {
        var gone: nat :| gone < |chunks| && (id as int, gone as int) in got;
        assert Broken(after, id, chunks, got, gone);
      } else {
        assert id in r.pending ==> id in after.pending;
      }
    } else {
      var gone: nat :| Broken(r, id, chunks, got, gone);
      assert Broken(after, id, chunks, got, gone);
    }
  }

  /** A fragment of the payload, with its answer. */
  lemma OneFragment(limits: Limits, catalog: Catalog, events: seq<Event>, r: ReasmState, a: Arrival)
    requires Known(catalog, a) && |catalog[a.id]| < TWO_32 && Stands(limits, events, a.id, catalog[a.id], r)
    requires forall n :: 0 <= n < |events| && events[n].Arrives? && events[n].a.id == a.id ==> events[n].a.index != a.index
    requires PushStep(r, FrameOf(catalog, a), a.now).1.Success?
    ensures var (after, answer) := PushStep(r, FrameOf(catalog, a), a.now);
            var all, id := events + [Arrives(a)], a.id;
            && Stands(limits, all, id, catalog[id], after)
            && answer == Success(if AllOf(Received(all), id, |catalog[id]|) && InTime(limits, all, id, |catalog[id]|)
                                 then Some(Concat(catalog[id])) else None)
  {
    var id, all := a.id, events + [Arrives(a)];
    var got, first, chunks := Received(events), FirstTime(events, id), catalog[id];
    assert all[..|events|] == events && all[|events|] == Arrives(a);
    OneEventMore(limits, all, id, |chunks|);
    assert Received(all) == got + {(id as int, a.index as int)};
    assert FirstTime(all, id) == if first.Some? then first else Some(a.now);
    NotReceivedYet(events, id, a.index);
    PushKeepsLimits(r, FrameOf(catalog, a), a.now);
    hide PushStep, Received, FirstTime, InTime, EntryFrom, FrameOf, Concat, Whole, AllOf;
    if InTime(limits, events, id, |chunks|) {
      OwnFragment(r, catalog, a, got, first);
    } else {
      var gone: nat :| Broken(r, id, chunks, got, gone);
      GoneIsAnother(events, id, gone, a.index);
      NeverWhole(r, catalog, a, got, gone);
    }
  }

  lemma GoneIsAnother(events: seq<Event>, id: u16, gone: nat, index: nat)
    requires (id as int, gone as int) in Received(events)
    requires forall n :: 0 <= n < |events| && events[n].Arrives? && events[n].a.id == id ==> events[n].a.index != index
    ensures gone != index
  {
    NotReceivedYet(events, id, index);
  }

  /** Over every run of fragments of any payloads and expiries: a payload none of whose fragments is
      refused or repeated comes out, exactly, at its last fragment if and only if every expiry while it
      was open came before its first fragment was as old as the timeout; at every other fragment the
      answer is "not yet". Other payloads may expire, repeat and be refused. */
  lemma {:induction false} ComesOutUnlessTooLate(limits: Limits, catalog: Catalog, events: seq<Event>, id: u16)
    requires Fits(catalog, events) && id in catalog && |catalog[id]| < TWO_32
    requires NoneRefused(limits, catalog, events, id) && OnceEach(events, id)
    ensures Stands(limits, events, id, catalog[id], After(limits, catalog, events))
    ensures events != [] && events[|events| - 1].Arrives? && events[|events| - 1].a.id == id ==>
              Answer(limits, catalog, events, |events| - 1)
              == Success(if AllOf(Received(events), id, |catalog[id]|) && InTime(limits, events, id, |catalog[id]|)
                         then Some(Concat(catalog[id])) else None)
    decreases |events|
  {
    if events != [] {
      var last := |events| - 1;
      var front, event := events[..last], events[last];
      EarlierFits(limits, catalog, events, id);
      ComesOutUnlessTooLate(limits, catalog, front, id);
      var before := After(limits, catalog, front);
      assert events == front + [event];
      hide Stands, PushStep, ExpireStep, Received, InTime, AllOf, Concat, FrameOf;
      match event
      case Expires(now) => OneExpiry(limits, front, id, catalog[id], before, now);
      case Arrives(a) =>
        if a.id == id {
          assert Answer(limits, catalog, events, last).Success?;
          OneFragment(limits, catalog, front, before, a);
        } else {
          OtherFragment(limits, catalog, front, id, catalog[id], before, a);
        }
    }
  }
}
