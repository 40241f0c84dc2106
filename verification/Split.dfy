/** Cutting a payload into fragments, and joining fragments from several payloads at once. */
module Splits {
  import opened Integers
  import opened Wrappers
  import opened KeyOrder
  import Frames
  import Datagrams

  /** Bytes available for a fragment's payload inside a datagram of `payloadLimit` bytes. */
  function FragmentCapacity(payloadLimit: nat): nat {
    Min(Monus(Monus(payloadLimit, Datagrams.DATAGRAM_HEADER_LEN), Frames.HeaderLen(Frames.ReliableOrdered, true)),
        Frames.MAX_FRAME_PAYLOAD)
  }

  // Splitting.

  /** Consecutive pieces of `capacity` bytes, the last one shorter. */
  function Chunks(payload: bytes, capacity: nat): (chunks: seq<bytes>)
    requires capacity > 0
    decreases |payload|
  {
    if payload == [] then []
    else if |payload| <= capacity then [payload]
    else [payload[..capacity]] + Chunks(payload[capacity..], capacity)
  }

  function Concat(parts: seq<bytes>): bytes {
    if parts == [] then [] else parts[0] + Concat(parts[1..])
  }

  function Fragment(id: u16, chunks: seq<bytes>, index: nat): Frames.Frame
    requires index < |chunks|
  {
    Frames.Frame(Frames.ReliableOrdered, 0, 0, 0, 0,
                 Some(Frames.Split(Min(|chunks|, TWO_32 - 1), id, Min(index, TWO_32 - 1))),
                 chunks[index])
  }

  /** The frames of one payload, and the split id left for the next one. */
  function SplitStep(nextId: u16, payload: bytes, capacity: nat): (seq<Frames.Frame>, u16) {
    if capacity == 0 then ([], nextId)
    else if |payload| <= capacity then ([Frames.NewFrame(Frames.ReliableOrdered, payload)], nextId)
    else
      var chunks := Chunks(payload, capacity);
      (seq(|chunks|, i requires 0 <= i < |chunks| => Fragment(nextId, chunks, i)), (nextId + 1) % TWO_16)
  }

  /** The chunks are the payload, in order, none empty and none longer than the capacity. */
  lemma {:induction false} ChunksAreThePayload(payload: bytes, capacity: nat)
    requires capacity > 0
    ensures Concat(Chunks(payload, capacity)) == payload
    ensures forall c :: c in Chunks(payload, capacity) ==> 0 < |c| <= capacity
    ensures |payload| > capacity ==> |Chunks(payload, capacity)| >= 2
    decreases |payload|
  {
    if |payload| > capacity {
      ChunksAreThePayload(payload[capacity..], capacity);
      var rest := Chunks(payload[capacity..], capacity);
      assert ([payload[..capacity]] + rest)[1..] == rest;
    } else if payload != [] {
      assert Concat([payload][1..]) == [];
    }
  }

  class Splitter {
    var nextId: u16

    constructor ()
      ensures nextId == 0
    {
      nextId := 0;
    }

    method Split(payload: bytes, capacity: nat) returns (frames: seq<Frames.Frame>)
      modifies this
      ensures (frames, nextId) == SplitStep(old(nextId), payload, capacity)
    {
      if capacity == 0 {
        return [];
      }
      if |payload| <= capacity {
        return [Frames.NewFrame(Frames.ReliableOrdered, payload)];
      }
      var id := nextId;
      nextId := (nextId + 1) % TWO_16;
      var chunks := Chunks(payload, capacity);
      frames := seq(|chunks|, i requires 0 <= i < |chunks| => Fragment(id, chunks, i));
    }
  }

  // Reassembly.

  datatype Limits = Limits(maxPayload: nat, maxFragments: u32, maxPending: nat, timeout: nat)

  datatype SplitError =
    | Inconsistent(count: u32, index: u32)
    | TooManyFragments(count: u32)
    | PayloadTooLarge
    | TooManyPending
    | DuplicateIndex(index: u32)

  datatype Pending = Pending(count: u32, fragments: map<u32, bytes>, size: nat, firstSeen: nat)

  datatype ReasmState = ReasmState(limits: Limits, pending: map<u16, Pending>, buffered: nat)

  function NewReasm(limits: Limits): ReasmState {
    ReasmState(limits, map[], 0)
  }

  /** The values of a map in the given order of keys, end to end. */
  function Gather(fragments: map<u32, bytes>, keys: seq<nat>): bytes
    requires forall i :: 0 <= i < |keys| ==> keys[i] in fragments
    decreases |keys|
  {
    if keys == [] then []
    else Gather(fragments, keys[..|keys| - 1]) + fragments[keys[|keys| - 1]]
  }

  /** The checks made before anything is stored. */
  function EarlyRefusal(r: ReasmState, split: Frames.Split, size: nat): Option<SplitError> {
    if split.count == 0 || split.index >= split.count then Some(Inconsistent(split.count, split.index))
    else if split.count > r.limits.maxFragments then Some(TooManyFragments(split.count))
    else if split.id !in r.pending && |r.pending| >= r.limits.maxPending then Some(TooManyPending)
    else if r.buffered + size > r.limits.maxPayload then Some(PayloadTooLarge)
    else None
  }

  /** A reassembly is opened for an id that has none, with nothing in it yet. */
  function Opened(r: ReasmState, split: Frames.Split, now: nat): (after: ReasmState)
    ensures split.id in after.pending
  {
    if split.id in r.pending then r else r.(pending := r.pending[split.id := Pending(split.count, map[], 0, now)])
  }

  /** The checks made against the open reassembly. */
  function LateRefusal(r: ReasmState, split: Frames.Split): Option<SplitError>
    requires split.id in r.pending
  {
    if r.pending[split.id].count != split.count then Some(Inconsistent(split.count, split.index))
    else if split.index in r.pending[split.id].fragments then Some(DuplicateIndex(split.index))
    else None
  }

  predicate IsWhole(p: Pending) {
    Min(|p.fragments|, TWO_32 - 1) >= p.count
  }

  /** The fragment joins its open reassembly, which is taken out once it is whole. */
  function Joined(r: ReasmState, split: Frames.Split, payload: bytes): (ReasmState, Option<bytes>)
    requires split.id in r.pending
  {
    var entry := r.pending[split.id];
    Absorbed(r, split.id, entry.(fragments := entry.fragments[split.index := payload], size := entry.size + |payload|), |payload|)
  }

  function Absorbed(r: ReasmState, id: u16, grown: Pending, size: nat): (ReasmState, Option<bytes>) {
    if !IsWhole(grown) then
      (r.(pending := r.pending[id := grown], buffered := r.buffered + size), None)
    else
      (r.(pending := r.pending - {id}, buffered := Monus(r.buffered + size, grown.size)),
       Some(Gather(grown.fragments, Sorted(grown.fragments.Keys))))
  }

  function PushStep(r: ReasmState, frame: Frames.Frame, now: nat): (ReasmState, Result<Option<bytes>, SplitError>) {
    match frame.split
    case None => (r, Success(Some(frame.payload)))
    case Some(split) =>
      match EarlyRefusal(r, split, |frame.payload|)
      case Some(e) => (r, Failure(e))
      case None =>
        var begun := Opened(r, split, now);
        match LateRefusal(begun, split)
        case Some(e) => (begun, Failure(e))
        case None =>
          var (after, whole) := Joined(begun, split, frame.payload);
          (after, Success(whole))
  }

  // The same, as if everything were decided before anything is stored.

  /** Why a fragment is refused, if it is, judged from what was there before. */
  function Refusal(r: ReasmState, split: Frames.Split, size: nat): Option<SplitError> {
    match EarlyRefusal(r, split, size)
    case Some(e) => Some(e)
    case None => if split.id in r.pending then LateRefusal(r, split) else None
  }

  /** The reassembly a fragment joins, with the fragment in it. */
  function Grown(r: ReasmState, split: Frames.Split, payload: bytes, now: nat): Pending {
    var entry := if split.id in r.pending then r.pending[split.id] else Pending(split.count, map[], 0, now);
    entry.(fragments := entry.fragments[split.index := payload], size := entry.size + |payload|)
  }

  function Absorb(r: ReasmState, split: Frames.Split, payload: bytes, now: nat): (ReasmState, Option<bytes>) {
    Absorbed(r, split.id, Grown(r, split, payload, now), |payload|)
  }

  /** A reassembly just opened is never the one refused: it has the fragment's own count, and is empty.
      So a refusal after opening has opened nothing. */
  lemma RefusalOpensNothing(r: ReasmState, split: Frames.Split, now: nat)
    ensures LateRefusal(Opened(r, split, now), split).Some? ==> Opened(r, split, now) == r
  {
  }

  /** One push is the decision and, if that is not a refusal, the whole of the storing. */
  lemma PushDecides(r: ReasmState, frame: Frames.Frame, now: nat)
    requires frame.split.Some?
    ensures var split := frame.split.value;
            PushStep(r, frame, now)
            == match Refusal(r, split, |frame.payload|)
               case Some(e) => (r, Failure(e))
               case None => (Absorb(r, split, frame.payload, now).0, Success(Absorb(r, split, frame.payload, now).1))
  {
    var split := frame.split.value;
    RefusalOpensNothing(r, split, now);
    JoiningIsAbsorbing(r, split, frame.payload, now);
    hide Opened, Joined, Absorb;
    assert split.id in r.pending ==> Opened(r, split, now) == r by {
      OpeningAgain(r, split, now);
    }
    FreshIsNotRefused(r, split, now);
    hide LateRefusal;
  }

  /** A fragment is refused exactly when its count and index make no sense, there are too many, its
      payload would be one open too many, its bytes would not fit, or it contradicts or repeats what is
      held of its payload. */
  lemma PushRefusesExactly(r: ReasmState, frame: Frames.Frame, now: nat)
    ensures PushStep(r, frame, now).1.Failure? <==>
            && frame.split.Some?
            && var split := frame.split.value;
            || split.count == 0 || split.index >= split.count || split.count > r.limits.maxFragments
            || (split.id !in r.pending && |r.pending| >= r.limits.maxPending)
            || r.buffered + |frame.payload| > r.limits.maxPayload
            || (split.id in r.pending && (r.pending[split.id].count != split.count || split.index in r.pending[split.id].fragments))
  {
    hide Joined;
  }

  lemma OpeningAgain(r: ReasmState, split: Frames.Split, now: nat)
    ensures split.id in r.pending ==> Opened(r, split, now) == r
  {
  }

  lemma FreshIsNotRefused(r: ReasmState, split: Frames.Split, now: nat)
    ensures split.id !in r.pending ==> LateRefusal(Opened(r, split, now), split).None?
  {
  }

  /** Joining the reassembly just opened leaves nothing of its having been opened separately. */
  lemma JoiningIsAbsorbing(r: ReasmState, split: Frames.Split, payload: bytes, now: nat)
    ensures Joined(Opened(r, split, now), split, payload) == Absorb(r, split, payload, now)
  {
    hide Gather, Sorted, IsWhole;
    if split.id !in r.pending {
      var begun, grown := Opened(r, split, now), Grown(r, split, payload, now);
      assert begun.pending[split.id := grown] == r.pending[split.id := grown];
      assert begun.pending - {split.id} == r.pending - {split.id};
    }
  }

  predicate Alive(p: Pending, now: nat, timeout: nat) {
    Monus(now, p.firstSeen) < timeout
  }

  function Living(pending: map<u16, Pending>, now: nat, timeout: nat): map<u16, Pending> {
    map id | id in pending && Alive(pending[id], now, timeout) :: pending[id]
  }

  ghost function Sizes(pending: map<u16, Pending>): map<nat, nat> {
    map id | id in pending :: pending[id].size
  }

  /** Bytes held across open reassemblies. */
  ghost function Held(pending: map<u16, Pending>): nat {
    Total(Sizes(pending))
  }

  ghost function Lengths(fragments: map<u32, bytes>): map<nat, nat> {
    map i | i in fragments :: |fragments[i]|
  }

  ghost function FragmentBytes(fragments: map<u32, bytes>): nat {
    Total(Lengths(fragments))
  }

  ghost function ExpireStep(r: ReasmState, now: nat): ReasmState {
    var living := Living(r.pending, now, r.limits.timeout);
    r.(pending := living, buffered := Held(living))
  }

  /** The books: `buffered` is the sum of the lengths of all held fragments and within its limit,
      and every open reassembly is inside its own limits, has something and lacks something. */
  ghost predicate Accounted(r: ReasmState) {
    && r.buffered == Held(r.pending) && r.buffered <= r.limits.maxPayload
    && |r.pending| <= r.limits.maxPending
    && forall id :: id in r.pending ==> EntryOk(r.pending[id], r.limits)
  }

  ghost predicate EntryOk(p: Pending, limits: Limits) {
    && p.size == FragmentBytes(p.fragments)
    && 0 < |p.fragments| < p.count <= limits.maxFragments
    && forall i :: i in p.fragments ==> i < p.count
  }

  lemma InsertFragment(fragments: map<u32, bytes>, index: u32, payload: bytes)
    requires index !in fragments
    ensures FragmentBytes(fragments[index := payload]) == FragmentBytes(fragments) + |payload|
    ensures |fragments[index := payload]| == |fragments| + 1
  {
    hide Total, Lengths;
    var after := fragments[index := payload];
    OneLengthMore(fragments, index, payload);
    TotalInsert(Lengths(fragments), index, |payload|);
    assert after.Keys == fragments.Keys + {index};
  }

  lemma OneLengthMore(fragments: map<u32, bytes>, index: u32, payload: bytes)
    ensures Lengths(fragments[index := payload]) == Lengths(fragments)[index := |payload|]
    ensures Lengths(fragments).Keys == fragments.Keys
  {
  }

  lemma InsertEntry(pending: map<u16, Pending>, id: u16, entry: Pending)
    ensures Held(pending[id := entry]) == Held(pending) + entry.size - (if id in pending then pending[id].size else 0)
    ensures |pending[id := entry]| == |pending| + (if id in pending then 0 else 1)
  {
    hide Total;
    assert Sizes(pending[id := entry]) == Sizes(pending)[id := entry.size];
    TotalInsert(Sizes(pending), id, entry.size);
    assert (pending[id := entry]).Keys == pending.Keys + {id};
  }

  lemma RemoveEntry(pending: map<u16, Pending>, id: u16)
    ensures Held(pending - {id}) == Held(pending) - (if id in pending then pending[id].size else 0)
    ensures |pending - {id}| <= |pending|
  {
    hide Total;
    assert (pending - {id}).Keys == pending.Keys - {id};
    if id in pending {
      assert Sizes(pending - {id}) == Sizes(pending) - {id};
      TotalRemove(Sizes(pending), id);
    } else {
      assert pending - {id} == pending;
    }
  }

  /** What the fragment joins, measured: nothing was missing from the books before. */
  lemma GrownIsMeasured(r: ReasmState, split: Frames.Split, payload: bytes, now: nat)
    requires Accounted(r) && Refusal(r, split, |payload|).None?
    ensures var grown := Grown(r, split, payload, now);
            && grown.count == split.count
            && grown.size == FragmentBytes(grown.fragments)
            && grown.size == |payload| + (if split.id in r.pending then r.pending[split.id].size else 0)
            && (forall i :: i in grown.fragments ==> i < grown.count)
            && 0 < |grown.fragments|
  {
    if split.id in r.pending {
      InsertFragment(r.pending[split.id].fragments, split.index, payload);
    } else {
      var none: map<u32, bytes> := map[];
      assert Lengths(none) == map[];
      InsertFragment(none, split.index, payload);
    }
  }

  lemma StoreKeepsAccounts(r: ReasmState, id: u16, entry: Pending, size: nat)
    requires Accounted(r) && EntryOk(entry, r.limits)
    requires r.buffered + size <= r.limits.maxPayload
    requires entry.size == size + (if id in r.pending then r.pending[id].size else 0)
    requires id in r.pending || |r.pending| < r.limits.maxPending
    ensures Accounted(r.(pending := r.pending[id := entry], buffered := r.buffered + size))
  {
    hide FragmentBytes, Held, EntryOk;
    InsertEntry(r.pending, id, entry);
  }

  lemma TakeKeepsAccounts(r: ReasmState, id: u16, size: nat, whole: nat)
    requires Accounted(r) && r.buffered + size <= r.limits.maxPayload
    requires whole == size + (if id in r.pending then r.pending[id].size else 0)
    ensures whole <= r.buffered + size
    ensures Accounted(r.(pending := r.pending - {id}, buffered := r.buffered + size - whole))
  {
    hide FragmentBytes, Held, EntryOk;
    RemoveEntry(r.pending, id);
  }

  /** What not being refused means. */
  lemma Admitted(r: ReasmState, split: Frames.Split, size: nat)
    requires Refusal(r, split, size).None?
    ensures split.index < split.count <= r.limits.maxFragments
    ensures r.buffered + size <= r.limits.maxPayload
    ensures split.id in r.pending || |r.pending| < r.limits.maxPending
    ensures split.id in r.pending ==>
              r.pending[split.id].count == split.count && split.index !in r.pending[split.id].fragments
  {
  }

  lemma AbsorbKeepsAccounts(r: ReasmState, split: Frames.Split, payload: bytes, now: nat)
    requires Accounted(r) && Refusal(r, split, |payload|).None?
    ensures Accounted(Absorb(r, split, payload, now).0) && Absorb(r, split, payload, now).0.limits == r.limits
    ensures Grown(r, split, payload, now).size <= r.buffered + |payload|
  {
    hide FragmentBytes, Held, Gather, Sorted, Refusal, Grown, Accounted, EntryOk;
    var grown := Grown(r, split, payload, now);
    GrownIsMeasured(r, split, payload, now);
    Admitted(r, split, |payload|);
    TakeKeepsAccounts(r, split.id, |payload|, grown.size);
    if !IsWhole(grown) {
      NotWholeIsOk(grown, r.limits);
      StoreKeepsAccounts(r, split.id, grown, |payload|);
    }
  }

  lemma NotWholeIsOk(p: Pending, limits: Limits)
    requires p.size == FragmentBytes(p.fragments) && 0 < |p.fragments| && p.count <= limits.maxFragments
    requires (forall i :: i in p.fragments ==> i < p.count) && !IsWhole(p)
    ensures EntryOk(p, limits)
  {
    hide FragmentBytes;
  }

  /** A push keeps the books, whatever the peer sends; a refusal leaves the whole state unchanged. */
  lemma PushKeepsAccounts(r: ReasmState, frame: Frames.Frame, now: nat)
    requires Accounted(r)
    ensures Accounted(PushStep(r, frame, now).0) && PushStep(r, frame, now).0.limits == r.limits
    ensures PushStep(r, frame, now).1.Failure? ==> PushStep(r, frame, now).0 == r
  {
    if frame.split.Some? {
      PushDecides(r, frame, now);
      hide Accounted, PushStep, Refusal, Absorb;
      if Refusal(r, frame.split.value, |frame.payload|).None? {
        AbsorbKeepsAccounts(r, frame.split.value, frame.payload, now);
      }
    }
  }

  /** What an open reassembly holds is part of what is buffered. */
  lemma OpenIsWithin(r: ReasmState, split: Frames.Split, now: nat)
    requires Accounted(r)
    ensures Opened(r, split, now).pending[split.id].size <= r.buffered
  {
    if split.id in r.pending {
      RemoveEntry(r.pending, split.id);
    }
  }

  /** What is left while the entries in `rest` have not been looked at. */
  ghost predicate Expiring(all: map<u16, Pending>, left: map<u16, Pending>, rest: set<u16>, now: nat, timeout: nat) {
    && rest <= left.Keys <= all.Keys
    && (forall id :: id in left ==> left[id] == all[id])
    && (forall id :: id in all ==> (id in left <==> id in rest || Alive(all[id], now, timeout)))
  }

  lemma ExpiringStarts(all: map<u16, Pending>, now: nat, timeout: nat)
    ensures Expiring(all, all, all.Keys, now, timeout)
  {
  }

  lemma ExpiringOn(all: map<u16, Pending>, left: map<u16, Pending>, rest: set<u16>, id: u16, now: nat, timeout: nat)
    requires Expiring(all, left, rest, now, timeout) && id in rest
    ensures id in left
    ensures Expiring(all, if Alive(left[id], now, timeout) then left else left - {id}, rest - {id}, now, timeout)
  {
    hide Alive;
  }

  lemma LivingIs(all: map<u16, Pending>, left: map<u16, Pending>, now: nat, timeout: nat)
    requires Expiring(all, left, {}, now, timeout)
    ensures left == Living(all, now, timeout)
  {
  }

  /** What is left after expiry is exactly what was opened less than the timeout ago, as it was. */
  lemma ExpireIsExact(r: ReasmState, now: nat)
    ensures var after := ExpireStep(r, now);
            && after.limits == r.limits
            && (forall id :: id in after.pending <==>
                             id in r.pending && 0 < r.limits.timeout && now < r.pending[id].firstSeen + r.limits.timeout)
            && (forall id :: id in after.pending ==> after.pending[id] == r.pending[id])
  {
    hide Held, Sizes;
  }

  /** Expiry keeps the books, and drops exactly the reassemblies past their time. */
  lemma ExpireKeepsAccounts(r: ReasmState, now: nat)
    requires Accounted(r)
    ensures Accounted(ExpireStep(r, now)) && ExpireStep(r, now).buffered <= r.buffered
  {
    var living := Living(r.pending, now, r.limits.timeout);
    TotalMonotone(Sizes(living), Sizes(r.pending));
    SubsetSize(living.Keys, r.pending.Keys);
  }

  /** The reassembly table as an object: each half-joined payload is an entry of a map. */
  class Reassembler {
    const limits: Limits
    var pending: map<u16, Pending>
    var buffered: nat

    ghost function State(): ReasmState
      reads this
    {
      ReasmState(limits, pending, buffered)
    }

    ghost predicate Valid()
      reads this
    {
      Accounted(State())
    }

    constructor (limits: Limits)
      ensures Valid() && State() == NewReasm(limits)
    {
      this.limits := limits;
      this.pending := map[];
      this.buffered := 0;
      new;
      assert Sizes(pending) == map[];
    }

    /** The checks made before anything is stored. */
    method RefuseEarly(split: Frames.Split, size: nat) returns (e: Option<SplitError>)
      ensures e == EarlyRefusal(State(), split, size)
    {
      if split.count == 0 || split.index >= split.count {
        return Some(Inconsistent(split.count, split.index));
      }
      if split.count > limits.maxFragments {
        return Some(TooManyFragments(split.count));
      }
      var isNew := split.id !in pending;
      if isNew && |pending| >= limits.maxPending {
        return Some(TooManyPending);
      }
      if buffered + size > limits.maxPayload {
        return Some(PayloadTooLarge);
      }
      e := None;
    }

    /** The checks made once the reassembly is open. */
    method RefuseLate(split: Frames.Split) returns (e: Option<SplitError>)
      requires split.id in pending
      ensures e == LateRefusal(State(), split)
    {
      var entry := pending[split.id];
      if entry.count != split.count {
        return Some(Inconsistent(split.count, split.index));
      }
      if split.index in entry.fragments {
        return Some(DuplicateIndex(split.index));
      }
      e := None;
    }

    method Push(frame: Frames.Frame, now: nat) returns (r: Result<Option<bytes>, SplitError>)
      requires Valid()
      modifies this
      ensures Valid()
      ensures (State(), r) == PushStep(old(State()), frame, now)
    {
      PushKeepsAccounts(State(), frame, now);
      hide EarlyRefusal, LateRefusal, Joined, Accounted;
      if frame.split.None? {
        return Success(Some(frame.payload));
      }
      var split := frame.split.value;
      var early := RefuseEarly(split, |frame.payload|);
      if early.Some? {
        return Failure(early.value);
      }
      OpenIsWithin(State(), split, now);
      if split.id !in pending {
        pending := pending[split.id := Pending(split.count, map[], 0, now)];
      }
      var late := RefuseLate(split);
      if late.Some? {
        return Failure(late.value);
      }
      var whole := Join(split, frame.payload);
      r := Success(whole);
    }

    /** The fragment joins its open reassembly. */
    method Join(split: Frames.Split, payload: bytes) returns (whole: Option<bytes>)
      requires split.id in pending && pending[split.id].size <= buffered
      modifies this
      ensures (State(), whole) == Joined(old(State()), split, payload)
    {
      hide Gather, Sorted, IsWhole;
      var entry := pending[split.id];
      entry := entry.(fragments := entry.fragments[split.index := payload], size := entry.size + |payload|);
      whole := Finish(split.id, entry, |payload|);
    }

    /** Stores the grown reassembly, or takes it out and puts its payload together. */
    method Finish(id: u16, entry: Pending, size: nat) returns (whole: Option<bytes>)
      requires IsWhole(entry) ==> entry.size <= buffered + size
      modifies this
      ensures pending == if IsWhole(entry) then old(pending) - {id} else old(pending)[id := entry]
      ensures buffered == old(buffered) + size - (if IsWhole(entry) then entry.size else 0)
      ensures whole == if IsWhole(entry) then Some(Gather(entry.fragments, Sorted(entry.fragments.Keys))) else None
    {
      buffered := buffered + size;
      if Min(|entry.fragments|, TWO_32 - 1) < entry.count {
        pending := pending[id := entry];
        return None;
      }
      pending := pending - {id};
      buffered := buffered - entry.size;
      var payload := EndToEnd(entry.fragments);
      whole := Some(payload);
    }

    /** The fragments end to end, in index order. */
    static method EndToEnd(fragments: map<u32, bytes>) returns (payload: bytes)
      ensures payload == Gather(fragments, Sorted(fragments.Keys))
    {
      payload := [];
      var keys := Sorted(fragments.Keys);
      for i := 0 to |keys|
        invariant payload == Gather(fragments, keys[..i])
      {
        assert keys[..i + 1][..i] == keys[..i];
        payload := payload + fragments[keys[i]];
      }
      assert keys[..|keys|] == keys;
    }

    method DropUnlessAlive(id: u16, now: nat)
      requires id in pending && buffered == Held(pending)
      modifies this
      ensures buffered == Held(pending)
      ensures pending == if Alive(old(pending)[id], now, limits.timeout) then old(pending) else old(pending) - {id}
    {
      if !Alive(pending[id], now, limits.timeout) {
        RemoveEntry(pending, id);
        buffered := buffered - pending[id].size;
        pending := pending - {id};
      }
    }

    /** Drops reassemblies that have been open as long as the timeout, giving their bytes back. */
    method Expire(now: nat)
      requires Valid()
      modifies this
      ensures Valid()
      ensures State() == ExpireStep(old(State()), now)
    {
      ExpireKeepsAccounts(State(), now);
      assert buffered == Held(pending);
      hide FragmentBytes, Held, Accounted, Sizes, Living, Alive, Expiring;
      ghost var all := pending;
      var rest := pending.Keys;
      ExpiringStarts(all, now, limits.timeout);
      while rest != {}
        invariant buffered == Held(pending)
        invariant Expiring(all, pending, rest, now, limits.timeout)
        decreases |rest|
      {
        var id := Least(rest);
        ExpiringOn(all, pending, rest, id, now, limits.timeout);
        rest := rest - {id};
        DropUnlessAlive(id, now);
      }
      LivingIs(all, pending, now, limits.timeout);
    }
  }
}
