/** What reassembly computes: every run of fragments, in any order and any interleaving of
    payloads, gives the payloads back and nothing else. */
module Reassembly {
  import opened Integers
  import opened Wrappers
  import opened KeyOrder
  import opened Splits
  import Frames

  /** The fragments of each split payload, by split id. */
  type Catalog = map<u16, seq<bytes>>

  /** A fragment that really was cut from a payload of the catalog. */
  ghost predicate FromCatalog(split: Frames.Split, payload: bytes, catalog: Catalog) {
    && split.id in catalog
    && split.count == |catalog[split.id]|
    && split.index < split.count
    && payload == catalog[split.id][split.index]
  }

  ghost predicate AllOf(got: set<(int, int)>, id: nat, count: nat) {
    forall i: nat :: i < count ==> (id, i) in got
  }

  ghost predicate SomeOf(got: set<(int, int)>, id: nat, count: nat) {
    exists i: nat :: i < count && (id, i) in got
  }

  ghost predicate EntryFrom(p: Pending, id: nat, chunks: seq<bytes>, got: set<(int, int)>) {
    && p.count == |chunks|
    && forall i :: i in p.fragments ==> i < |chunks| && p.fragments[i] == chunks[i] && (id, i) in got
  }

  /** Everything held came from the catalog, under its own id and index. */
  ghost predicate Genuine(r: ReasmState, catalog: Catalog, got: set<(int, int)>) {
    forall id :: id in r.pending ==> id in catalog && EntryFrom(r.pending[id], id, catalog[id], got)
  }

  /** And nothing received is missing: open reassemblies are the payloads partly received, and hold
      every fragment received. */
  ghost predicate Exact(r: ReasmState, catalog: Catalog, got: set<(int, int)>) {
    forall id :: id in catalog ==> ExactAt(r, id, |catalog[id]|, got)
  }

  ghost predicate ExactAt(r: ReasmState, id: u16, count: nat, got: set<(int, int)>) {
    && (id in r.pending <==> SomeOf(got, id, count) && !AllOf(got, id, count))
    && (id in r.pending ==> HasAll(r.pending[id], id, count, got))
  }

  ghost predicate HasAll(p: Pending, id: nat, count: nat, got: set<(int, int)>) {
    forall i: nat :: i < count && (id, i) in got ==> i in p.fragments
  }

  lemma {:induction false} ConcatAppend(parts: seq<bytes>, part: bytes)
    ensures Concat(parts + [part]) == Concat(parts) + part
  {
    if parts == [] {
      assert Concat([part][1..]) == [];
    } else {
      ConcatAppend(parts[1..], part);
      assert (parts + [part])[1..] == parts[1..] + [part];
      Assoc(parts[0], Concat(parts[1..]), part);
    }
  }

  lemma {:induction false} GatherIsConcat(fragments: map<u32, bytes>, keys: seq<nat>, chunks: seq<bytes>, n: nat)
    requires n <= |keys| == |chunks|
    requires forall i :: 0 <= i < |keys| ==> keys[i] == i && keys[i] in fragments && fragments[keys[i]] == chunks[i]
    ensures Gather(fragments, keys[..n]) == Concat(chunks[..n])
  {
    if n > 0 {
      GatherIsConcat(fragments, keys, chunks, n - 1);
      assert keys[..n][..n - 1] == keys[..n - 1];
      assert chunks[..n] == chunks[..n - 1] + [chunks[n - 1]];
      ConcatAppend(chunks[..n - 1], chunks[n - 1]);
    }
  }

  /** As many fragments as the count, all below it, are all of them. */
  lemma WholeHasAll(p: Pending, id: nat, chunks: seq<bytes>, got: set<(int, int)>)
    requires EntryFrom(p, id, chunks, got) && IsWhole(p)
    ensures forall i: nat :: i < |chunks| <==> i in p.fragments
    ensures AllOf(got, id, |chunks|)
  {
    var n := |chunks|;
    SizeWithin(p.fragments.Keys, 0, n);
    Pigeonhole(p.fragments.Keys, n);
  }

  /** Put together in key order they are the payload. */
  lemma WholeIsThePayload(p: Pending, id: nat, chunks: seq<bytes>, got: set<(int, int)>)
    requires EntryFrom(p, id, chunks, got) && IsWhole(p)
    ensures Gather(p.fragments, Sorted(p.fragments.Keys)) == Concat(chunks)
  {
    WholeHasAll(p, id, chunks, got);
    var keys, n := Sorted(p.fragments.Keys), |chunks|;
    SortedPrefix(keys, n);
    hide Gather, Concat, Sorted, IsWhole, AllOf;
    assert keys[..n] == keys && chunks[..n] == chunks;
    forall i | 0 <= i < n
      ensures keys[i] in p.fragments && p.fragments[keys[i]] == chunks[i]
    {
    }
    GatherIsConcat(p.fragments, keys, chunks, n);
  }

  lemma GrownIsGenuine(r: ReasmState, split: Frames.Split, payload: bytes, now: nat, catalog: Catalog, got: set<(int, int)>)
    requires Genuine(r, catalog, got) && FromCatalog(split, payload, catalog)
    requires Refusal(r, split, |payload|).None?
    ensures EntryFrom(Grown(r, split, payload, now), split.id, catalog[split.id], got + {(split.id, split.index)})
  {
    Admitted(r, split, |payload|);
    hide Refusal;
  }

  /** Whatever was received before, a fragment of the catalog completes no payload but its own. */
  lemma PushIsGenuine(r: ReasmState, f: Frames.Frame, now: nat, catalog: Catalog, got: set<(int, int)>)
    requires Genuine(r, catalog, got) && f.split.Some? && FromCatalog(f.split.value, f.payload, catalog)
    ensures var (after, result) := PushStep(r, f, now);
            var id := f.split.value.id;
            var got' := got + {(id, f.split.value.index)};
            && (result.Success? ==> Genuine(after, catalog, got'))
            && (result.Failure? ==> after == r)
            && (result.Success? && result.value.Some? ==>
                  result.value.value == Concat(catalog[id]) && AllOf(got', id, |catalog[id]|))
  {
    var split := f.split.value;
    PushDecides(r, f, now);
    hide PushStep;
    if Refusal(r, split, |f.payload|).None? {
      var grown := Grown(r, split, f.payload, now);
      GrownIsGenuine(r, split, f.payload, now, catalog, got);
      hide Refusal, Grown, Gather, Sorted;
      if IsWhole(grown) {
        WholeIsThePayload(grown, split.id, catalog[split.id], got + {(split.id, split.index)});
        WholeHasAll(grown, split.id, catalog[split.id], got + {(split.id, split.index)});
      }
    }
  }

  lemma GrownHasAll(r: ReasmState, split: Frames.Split, payload: bytes, now: nat, catalog: Catalog, got: set<(int, int)>)
    requires FromCatalog(split, payload, catalog) && ExactAt(r, split.id, |catalog[split.id]|, got)
    requires (split.id, split.index) !in got
    ensures HasAll(Grown(r, split, payload, now), split.id, |catalog[split.id]|, got + {(split.id, split.index)})
  {
    assert !AllOf(got, split.id, |catalog[split.id]|);
  }

  lemma WholeIffAll(p: Pending, id: nat, chunks: seq<bytes>, got: set<(int, int)>)
    requires EntryFrom(p, id, chunks, got) && HasAll(p, id, |chunks|, got) && |chunks| < TWO_32
    ensures IsWhole(p) <==> AllOf(got, id, |chunks|)
  {
    if AllOf(got, id, |chunks|) {
      SizeAtLeast(p.fragments.Keys, |chunks|);
    } else if IsWhole(p) {
      WholeHasAll(p, id, chunks, got);
    }
  }

  lemma OtherStaysExact(r: ReasmState, after: ReasmState, other: u16, count: nat, got: set<(int, int)>, id: nat, index: nat)
    requires ExactAt(r, other, count, got) && other != id
    requires other in r.pending <==> other in after.pending
    requires other in r.pending ==> after.pending[other] == r.pending[other]
    ensures ExactAt(after, other, count, got + {(id, index)})
  {
    var got' := got + {(id, index)};
    if SomeOf(got, other, count) {
      var i: nat :| i < count && (other, i) in got;
      assert (other, i) in got';
    }
  }

  /** A fragment received for the first time and not refused: the payload comes out exactly when
      it was the last one missing. */
  lemma PushIsExact(r: ReasmState, f: Frames.Frame, now: nat, catalog: Catalog, got: set<(int, int)>)
    requires Genuine(r, catalog, got) && Exact(r, catalog, got)
    requires f.split.Some? && FromCatalog(f.split.value, f.payload, catalog)
    requires (f.split.value.id, f.split.value.index) !in got
    requires Refusal(r, f.split.value, |f.payload|).None?
    ensures var (after, result) := PushStep(r, f, now);
            var id := f.split.value.id;
            var got' := got + {(id, f.split.value.index)};
            && Exact(after, catalog, got')
            && result.Success? && (result.value.Some? <==> AllOf(got', id, |catalog[id]|))
  {
    var split := f.split.value;
    var id := split.id;
    var got' := got + {(id, split.index)};
    var grown := Grown(r, split, f.payload, now);
    GrownIsGenuine(r, split, f.payload, now, catalog, got);
    GrownHasAll(r, split, f.payload, now, catalog, got);
    WholeIffAll(grown, id, catalog[id], got');
    assert SomeOf(got', id, |catalog[id]|) by {
      assert (id, split.index) in got';
    }
    PushDecides(r, f, now);
    hide PushStep, Refusal, Grown, Gather, Sorted, IsWhole, AllOf, SomeOf, EntryFrom, HasAll;
    var after := PushStep(r, f, now).0;
    assert after == Absorb(r, split, f.payload, now).0;
    assert ExactAt(after, id, |catalog[id]|, got');
    forall other | other in catalog && other != id
      ensures ExactAt(after, other, |catalog[other]|, got')
    {
      OtherStaysExact(r, after, other, |catalog[other]|, got, id, split.index);
    }
  }

  // Every run of pushes and expiries, whatever the frames say.

  datatype Op = Push(frame: Frames.Frame, now: nat) | Expire(now: nat)

  ghost function RunAll(limits: Limits, ops: seq<Op>): ReasmState
    decreases |ops|
  {
    if ops == [] then NewReasm(limits) else
    var before := RunAll(limits, ops[..|ops| - 1]);
    match ops[|ops| - 1]
    case Push(frame, now) => PushStep(before, frame, now).0
    case Expire(now) => ExpireStep(before, now)
  }

  /** The books balance after every run: `buffered` is the sum of the held fragments and within the
      limit, and no more than the allowed number of reassemblies are open, none of them whole. */
  lemma {:induction false} BooksBalance(limits: Limits, ops: seq<Op>)
    ensures RunAll(limits, ops).limits == limits && Accounted(RunAll(limits, ops))
    decreases |ops|
  {
    if ops == [] {
      assert Sizes(NewReasm(limits).pending) == map[];
    } else {
      var last := |ops| - 1;
      BooksBalance(limits, ops[..last]);
      match ops[last]
      case Push(frame, now) => PushKeepsAccounts(RunAll(limits, ops[..last]), frame, now);
      case Expire(now) => ExpireKeepsAccounts(RunAll(limits, ops[..last]), now);
    }
  }

  // Every interleaving of the fragments of several payloads.

  datatype Arrival = Arrival(id: u16, index: nat, now: nat)

  ghost predicate Known(catalog: Catalog, a: Arrival) {
    a.id in catalog && a.index < |catalog[a.id]|
  }

  ghost function FrameOf(catalog: Catalog, a: Arrival): Frames.Frame
    requires Known(catalog, a)
  {
    Fragment(a.id, catalog[a.id], a.index)
  }

  function Got(arrivals: seq<Arrival>): (got: set<(int, int)>)
    ensures forall n :: 0 <= n < |arrivals| ==> (arrivals[n].id, arrivals[n].index) in got
    ensures forall g :: g in got ==> exists n :: 0 <= n < |arrivals| && g == (arrivals[n].id, arrivals[n].index)
    decreases |arrivals|
  {
    if arrivals == [] then {} else
    var last := |arrivals| - 1;
    Got(arrivals[..last]) + {(arrivals[last].id, arrivals[last].index)}
  }

  /** The state after the arrivals, and the answer to the last one. */
  ghost function Arrive(limits: Limits, catalog: Catalog, arrivals: seq<Arrival>): (ReasmState, Result<Option<bytes>, SplitError>)
    requires forall n :: 0 <= n < |arrivals| ==> Known(catalog, arrivals[n])
    decreases |arrivals|
  {
    if arrivals == [] then (NewReasm(limits), Success(None)) else
    var last := |arrivals| - 1;
    var a := arrivals[last];
    PushStep(Arrive(limits, catalog, arrivals[..last]).0, FrameOf(catalog, a), a.now)
  }

  ghost function PayloadSizes(catalog: Catalog): map<nat, nat> {
    map id | id in catalog :: |Concat(catalog[id])|
  }

  /** The payloads open when a fragment of `id` arrives: those partly received, and `id` itself. */
  ghost function Open(catalog: Catalog, got: set<(int, int)>, id: u16): Catalog {
    map k | k in catalog && (k == id || PartOf(got, k, |catalog[k]|)) :: catalog[k]
  }

  ghost predicate PartOf(got: set<(int, int)>, id: nat, count: nat) {
    SomeOf(got, id, count) && !AllOf(got, id, count)
  }

  /** Room for every payload of the catalog at once. */
  ghost predicate WithinLimits(catalog: Catalog, limits: Limits) {
    && |catalog| <= limits.maxPending
    && Total(PayloadSizes(catalog)) <= limits.maxPayload
    && forall id :: id in catalog ==> 0 < |catalog[id]| <= limits.maxFragments
  }

  lemma {:induction false} FragmentsWithinPayload(fragments: map<u32, bytes>, chunks: seq<bytes>)
    requires forall i :: i in fragments ==> i < |chunks| && fragments[i] == chunks[i]
    ensures FragmentBytes(fragments) <= |Concat(chunks)|
    decreases |chunks|
  {
    if chunks == [] {
      assert Lengths(fragments) == map[];
    } else {
      var last := |chunks| - 1;
      var shorter := chunks[..last];
      assert chunks == shorter + [chunks[last]];
      ConcatAppend(shorter, chunks[last]);
      FragmentsWithinPayload(fragments - {last}, shorter);
      if last in fragments {
        TotalRemove(Lengths(fragments), last);
        assert Lengths(fragments - {last}) == Lengths(fragments) - {last};
      } else {
        assert fragments - {last} == fragments;
      }
    }
  }

  lemma NoFragmentNoBytes()
    ensures FragmentBytes(map[]) == 0
  {
    assert Lengths(map[]) == map[];
  }

  lemma RoomForBytes(r: ReasmState, catalog: Catalog, got: set<(int, int)>, id: u16, index: u32)
    requires Accounted(r) && Genuine(r, catalog, got) && WithinLimits(catalog, r.limits)
    requires id in catalog && index < |catalog[id]|
    requires id in r.pending ==> index !in r.pending[id].fragments
    ensures r.buffered + |catalog[id][index]| <= r.limits.maxPayload
  {
    hide Held, Concat, FragmentBytes, Total;
    var payload := catalog[id][index];
    var entry := if id in r.pending then r.pending[id] else Pending(|catalog[id]| % TWO_32, map[], 0, 0);
    NoFragmentNoBytes();
    InsertFragment(entry.fragments, index, payload);
    var fragments := entry.fragments[index := payload];
    FragmentsWithinPayload(fragments, catalog[id]);
    var grown := entry.(fragments := fragments, size := entry.size + |payload|);
    InsertEntry(r.pending, id, grown);
    SizesWithinPayloads(r, catalog, got, id, grown);
  }

  lemma RoomForEntry(r: ReasmState, catalog: Catalog, got: set<(int, int)>, id: u16)
    requires Genuine(r, catalog, got) && id in catalog
    ensures id !in r.pending ==> |r.pending| < |catalog|
  {
    if id !in r.pending {
      assert r.pending.Keys <= catalog.Keys - {id};
      SubsetSize(r.pending.Keys, catalog.Keys - {id});
      assert |catalog.Keys - {id}| == |catalog| - 1;
    }
  }

  lemma RoomForOneMore(r: ReasmState, catalog: Catalog, got: set<(int, int)>, split: Frames.Split, payload: bytes)
    requires Accounted(r) && Genuine(r, catalog, got) && WithinLimits(catalog, r.limits)
    requires FromCatalog(split, payload, catalog) && (split.id, split.index) !in got
    ensures Refusal(r, split, |payload|).None?
  {
    var id := split.id;
    assert id in r.pending ==> split.index !in r.pending[id].fragments;
    RoomForBytes(r, catalog, got, id, split.index);
    RoomForEntry(r, catalog, got, id);
    hide Accounted;
  }

  lemma SizesWithinPayloads(r: ReasmState, catalog: Catalog, got: set<(int, int)>, id: u16, grown: Pending)
    requires Accounted(r) && Genuine(r, catalog, got)
    requires id in catalog && grown.size <= |Concat(catalog[id])|
    ensures Held(r.pending[id := grown]) <= Total(PayloadSizes(catalog))
  {
    forall other | other in r.pending
      ensures other in catalog && r.pending[other].size <= |Concat(catalog[other])|
    {
      FragmentsWithinPayload(r.pending[other].fragments, catalog[other]);
    }
    hide Concat, FragmentBytes, Accounted, Genuine;
    TotalMonotone(Sizes(r.pending[id := grown]), PayloadSizes(catalog));
  }

  /** What is held belongs to the open payloads. */
  lemma HeldIsOpen(r: ReasmState, catalog: Catalog, got: set<(int, int)>, id: u16)
    requires Genuine(r, catalog, got) && Exact(r, catalog, got)
    ensures Genuine(r, Open(catalog, got, id), got)
  {
    hide EntryFrom, HasAll, SomeOf, AllOf;
    forall k | k in r.pending
      ensures k in catalog && PartOf(got, k, |catalog[k]|)
    {
      assert ExactAt(r, k, |catalog[k]|, got);
    }
  }

  /** When the n-th fragment arrives there is room for the payloads then open. */
  ghost predicate RoomAt(limits: Limits, catalog: Catalog, arrivals: seq<Arrival>, n: nat)
    requires n < |arrivals|
  {
    WithinLimits(Open(catalog, Got(arrivals[..n]), arrivals[n].id), limits)
  }

  /** Split then reassemble is the identity: fragments of any payloads with distinct ids, in any
      order and interleaving, each arriving once, as long as the payloads open at any one time are
      within the limits. The answer is "not yet" until the last missing fragment of a payload and then
      exactly that payload; nothing is refused. */
  lemma {:induction false} ReassemblyIsTheIdentity(limits: Limits, catalog: Catalog, arrivals: seq<Arrival>)
    requires forall n :: 0 <= n < |arrivals| ==> Known(catalog, arrivals[n])
    requires forall n :: 0 <= n < |arrivals| ==> RoomAt(limits, catalog, arrivals, n)
    requires forall m, n :: 0 <= m < n < |arrivals| ==> (arrivals[m].id, arrivals[m].index) != (arrivals[n].id, arrivals[n].index)
    ensures arrivals != [] ==>
              var id := arrivals[|arrivals| - 1].id;
              Arrive(limits, catalog, arrivals).1
              == Success(if AllOf(Got(arrivals), id, |catalog[id]|) then Some(Concat(catalog[id])) else None)
    ensures Arrive(limits, catalog, arrivals).0.limits == limits
    ensures Accounted(Arrive(limits, catalog, arrivals).0)
    ensures Genuine(Arrive(limits, catalog, arrivals).0, catalog, Got(arrivals))
    ensures Exact(Arrive(limits, catalog, arrivals).0, catalog, Got(arrivals))
    decreases |arrivals|
  {
    if arrivals == [] {
      assert Sizes(NewReasm(limits).pending) == map[];
    } else {
      var last := |arrivals| - 1;
      var a, before := arrivals[last], Arrive(limits, catalog, arrivals[..last]).0;
      EarlierRoom(limits, catalog, arrivals);
      ReassemblyIsTheIdentity(limits, catalog, arrivals[..last]);
      NotYetHere(arrivals);
      assert Known(catalog, a) && WithinLimits(Open(catalog, Got(arrivals[..last]), a.id), limits) by {
        assert RoomAt(limits, catalog, arrivals, last);
      }
      hide Accounted, Genuine, Exact, AllOf, WithinLimits, PushStep, Known, FrameOf, RoomAt, Open;
      OneArrival(before, catalog, Got(arrivals[..last]), a);
    }
  }

  lemma EarlierRoom(limits: Limits, catalog: Catalog, arrivals: seq<Arrival>)
    requires arrivals != [] && forall n :: 0 <= n < |arrivals| ==> RoomAt(limits, catalog, arrivals, n)
    ensures var earlier := arrivals[..|arrivals| - 1];
            forall n :: 0 <= n < |earlier| ==> RoomAt(limits, catalog, earlier, n)
  {
    var earlier := arrivals[..|arrivals| - 1];
    forall n | 0 <= n < |earlier|
      ensures RoomAt(limits, catalog, earlier, n)
    {
      assert earlier[..n] == arrivals[..n] && RoomAt(limits, catalog, arrivals, n);
    }
  }

  lemma NotYetHere(arrivals: seq<Arrival>)
    requires arrivals != []
    requires forall m, n :: 0 <= m < n < |arrivals| ==> (arrivals[m].id, arrivals[m].index) != (arrivals[n].id, arrivals[n].index)
    ensures var last := |arrivals| - 1;
            (arrivals[last].id, arrivals[last].index) !in Got(arrivals[..last])
  {
  }

  lemma OneArrival(r: ReasmState, catalog: Catalog, got: set<(int, int)>, a: Arrival)
    requires Accounted(r) && Genuine(r, catalog, got) && Exact(r, catalog, got)
    requires WithinLimits(Open(catalog, got, a.id), r.limits)
    requires Known(catalog, a) && (a.id, a.index) !in got
    ensures var (after, answer) := PushStep(r, FrameOf(catalog, a), a.now);
            var got' := got + {(a.id, a.index)};
            && after.limits == r.limits && Accounted(after) && Genuine(after, catalog, got') && Exact(after, catalog, got')
            && answer == Success(if AllOf(got', a.id, |catalog[a.id]|) then Some(Concat(catalog[a.id])) else None)
  {
    var f, open := FrameOf(catalog, a), Open(catalog, got, a.id);
    assert |catalog[a.id]| < TWO_32 by {
      assert |open[a.id]| <= r.limits.maxFragments;
    }
    assert f.split.value == Frames.Split(|catalog[a.id]|, a.id, a.index) && FromCatalog(f.split.value, f.payload, catalog);
    assert FromCatalog(f.split.value, f.payload, open);
    hide WithinLimits, Accounted, Genuine, Exact, AllOf, FrameOf, FromCatalog, Open;
    HeldIsOpen(r, catalog, got, a.id);
    RoomForOneMore(r, open, got, f.split.value, f.payload);
    PushKeepsAccounts(r, f, a.now);
    PushIsGenuine(r, f, a.now, catalog, got);
    PushIsExact(r, f, a.now, catalog, got);
    hide PushStep;
  }
}
