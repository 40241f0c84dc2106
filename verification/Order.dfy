/** Delivering reliable-ordered payloads in order, exactly once: the ordering buffer and the
    deduplication set, each as its state and step and as the object that performs it. */
module Order {
  import opened Integers
  import opened Wrappers
  import opened KeyOrder

  datatype OutOfWindow = OutOfWindow(index: u32, expected: u32)

  datatype OrderState = OrderState(expected: u32, buffered: map<u32, bytes>, window: u32)

  /** The contiguous run at the front of the buffer, and what is left behind it. */
  function Drain(o: OrderState): (OrderState, seq<bytes>)
    decreases |o.buffered|
  {
    if o.expected in o.buffered then
      assert (o.buffered - {o.expected}).Keys == o.buffered.Keys - {o.expected};
      var (after, ready) := Drain(Advance(o));
      (after, [o.buffered[o.expected]] + ready)
    else (o, [])
  }

  function Advance(o: OrderState): OrderState {
    o.(expected := (o.expected + 1) % TWO_32, buffered := o.buffered - {o.expected})
  }

  function PushStep(o: OrderState, index: u32, payload: bytes): (OrderState, Result<seq<bytes>, OutOfWindow>) {
    if index < o.expected then (o, Success([]))
    else if index - o.expected >= o.window then (o, Failure(OutOfWindow(index, o.expected)))
    else
      var (after, ready) := Drain(o.(buffered := o.buffered[index := payload]));
      (after, Success(ready))
  }

  function NewOrder(window: u32): OrderState {
    OrderState(0, map[], window)
  }

  /** The ordering buffer as a view of the payload stream it is fed from: `released` is what has
      been handed on so far and `pushed` the indices taken so far. */
  ghost predicate InOrder(o: OrderState, stream: seq<bytes>, released: seq<bytes>, pushed: set<nat>) {
    && o.expected <= |stream|
    && released == stream[..o.expected]
    && (forall i :: i in o.buffered ==> o.expected < i < |stream| && i - o.expected < o.window && o.buffered[i] == stream[i])
    && (forall i: nat :: i in pushed <==> i < o.expected || i in o.buffered)
  }

  /** Taking the front payload out leaves the rest of the buffer as it should be. */
  lemma AdvancedIsReady(o: OrderState, stream: seq<bytes>, pushed: set<nat>)
    requires |stream| <= TWO_24 && o.expected in o.buffered
    requires forall i :: i in o.buffered ==> o.expected <= i < |stream| && i - o.expected < o.window && o.buffered[i] == stream[i]
    requires forall i: nat :: i in pushed <==> i < o.expected || i in o.buffered
    ensures var next := Advance(o);
            && next.expected == o.expected + 1 <= |stream| && next.window == o.window && |next.buffered| < |o.buffered|
            && (forall i :: i in next.buffered ==> next.expected <= i < |stream| && i - next.expected < next.window && next.buffered[i] == stream[i])
            && (forall i: nat :: i in pushed <==> i < next.expected || i in next.buffered)
  {
    assert (o.buffered - {o.expected}).Keys == o.buffered.Keys - {o.expected};
  }

  lemma {:induction false} DrainKeepsOrder(o: OrderState, stream: seq<bytes>, pushed: set<nat>)
    requires |stream| <= TWO_24 && o.expected <= |stream|
    requires forall i :: i in o.buffered ==> o.expected <= i < |stream| && i - o.expected < o.window && o.buffered[i] == stream[i]
    requires forall i: nat :: i in pushed <==> i < o.expected || i in o.buffered
    ensures var (after, ready) := Drain(o);
            && after.window == o.window
            && InOrder(after, stream, stream[..o.expected] + ready, pushed)
    decreases |o.buffered|
  {
    if o.expected in o.buffered {
      var (after, ready) := Drain(Advance(o));
      assert Drain(o) == (after, [o.buffered[o.expected]] + ready);
      assert o.buffered[o.expected] == stream[o.expected];
      AdvancedIsReady(o, stream, pushed);
      assert stream[..o.expected + 1] == stream[..o.expected] + [stream[o.expected]];
      Assoc(stream[..o.expected], [stream[o.expected]], ready);
      hide Drain, InOrder, Advance;
      DrainKeepsOrder(Advance(o), stream, pushed);
    }
  }

  /** One push of the stream's own payload keeps the view; the only refusal is an index a whole
      window ahead, and it changes nothing. */
  lemma PushKeepsOrder(o: OrderState, stream: seq<bytes>, released: seq<bytes>, pushed: set<nat>, index: u32)
    requires |stream| <= TWO_24 && index < |stream| && InOrder(o, stream, released, pushed)
    ensures match PushStep(o, index, stream[index])
            case (after, Success(ready)) =>
              && after.window == o.window
              && InOrder(after, stream, released + ready, pushed + {index})
              && (ready != [] ==> index == o.expected)
            case (after, Failure(_)) => after == o && index >= o.expected + o.window
  {
    if index < o.expected {
      assert pushed + {index} == pushed && released + [] == released;
    } else if index - o.expected < o.window {
      var filled := o.(buffered := o.buffered[index := stream[index]]);
      DrainKeepsOrder(filled, stream, pushed + {index});
    }
  }

  /** A refused push changes nothing. */
  lemma RefusalKeepsOrder(o: OrderState, index: u32, payload: bytes)
    ensures PushStep(o, index, payload).1.Failure? ==> PushStep(o, index, payload).0 == o
  {
  }

  // Every run of pushes.

  datatype OrderRun = OrderRun(order: OrderState, released: seq<bytes>, pushed: set<nat>)

  function PushAll(window: u32, stream: seq<bytes>, indices: seq<u32>): OrderRun
    requires forall n :: 0 <= n < |indices| ==> indices[n] < |stream|
    decreases |indices|
  {
    if indices == [] then OrderRun(NewOrder(window), [], {}) else
    var before := PushAll(window, stream, indices[..|indices| - 1]);
    var index := indices[|indices| - 1];
    match PushStep(before.order, index, stream[index])
    case (after, Success(ready)) => OrderRun(after, before.released + ready, before.pushed + {index})
    case (after, Failure(_)) => OrderRun(after, before.released, before.pushed)
  }

  /** After any run of pushes, in any order and with any repeats: what was released is exactly the
      first `expected` payloads of the stream, `expected` is the least index never taken, what is
      held lies strictly inside the window ahead of it, and fewer than `window` payloads are held. */
  lemma {:induction false} OrderingDeliversThePrefix(window: u32, stream: seq<bytes>, indices: seq<u32>)
    requires |stream| <= TWO_24 && forall n :: 0 <= n < |indices| ==> indices[n] < |stream|
    ensures var run := PushAll(window, stream, indices);
            && run.order.window == window
            && InOrder(run.order, stream, run.released, run.pushed)
            && run.order.expected !in run.pushed
            && (forall i: nat :: i < run.order.expected ==> i in run.pushed)
            && (forall i :: i in run.order.buffered ==> run.order.expected < i < run.order.expected + window)
            && |run.order.buffered| <= Monus(window, 1)
    decreases |indices|
  {
    if indices != [] {
      var last := |indices| - 1;
      OrderingDeliversThePrefix(window, stream, indices[..last]);
      var before := PushAll(window, stream, indices[..last]);
      PushKeepsOrder(before.order, stream, before.released, before.pushed, indices[last]);
    }
    var run := PushAll(window, stream, indices);
    var low := run.order.expected + 1;
    SizeWithin(run.order.buffered.Keys, low, if window == 0 then low else low + window - 1);
  }

  lemma DrainTurn(o: OrderState, ready: seq<bytes>)
    requires o.expected in o.buffered
    ensures Drain(o).0 == Drain(Advance(o)).0
    ensures ready + Drain(o).1 == ready + [o.buffered[o.expected]] + Drain(Advance(o)).1
    ensures |Advance(o).buffered| < |o.buffered|
  {
    assert Drain(o).1 == [o.buffered[o.expected]] + Drain(Advance(o)).1;
    Assoc(ready, [o.buffered[o.expected]], Drain(Advance(o)).1);
    assert (o.buffered - {o.expected}).Keys == o.buffered.Keys - {o.expected};
  }

  lemma DrainEnds(o: OrderState, ready: seq<bytes>)
    requires o.expected !in o.buffered
    ensures Drain(o).0 == o && ready + Drain(o).1 == ready
  {
    assert ready + [] == ready;
  }

  /** The ordering window as an object: its state is an `OrderState`, and `Push` drains it with a loop. */
  class Ordering {
    var expected: u32
    var buffered: map<u32, bytes>
    const window: u32

    ghost function State(): OrderState
      reads this
    {
      OrderState(expected, buffered, window)
    }

    constructor (window: u32)
      ensures State() == NewOrder(window)
    {
      this.expected := 0;
      this.buffered := map[];
      this.window := window;
    }

    method Push(index: u32, payload: bytes) returns (r: Result<seq<bytes>, OutOfWindow>)
      modifies this
      ensures (State(), r) == PushStep(old(State()), index, payload)
    {
      if index < expected {
        return Success([]);
      }
      if index - expected >= window {
        return Failure(OutOfWindow(index, expected));
      }
      buffered := buffered[index := payload];
      hide Drain;
      var ready := TakeReady();
      r := Success(ready);
    }

    /** Takes payloads off the front while they are there. */
    method TakeReady() returns (ready: seq<bytes>)
      modifies this
      ensures (State(), ready) == Drain(old(State()))
    {
      hide Drain;
      ready := [];
      assert ready + Drain(State()).1 == Drain(State()).1;
      while expected in buffered
        invariant Drain(old(State())).0 == Drain(State()).0
        invariant Drain(old(State())).1 == ready + Drain(State()).1
        decreases |buffered|
      {
        DrainTurn(State(), ready);
        ready := ready + [buffered[expected]];
        buffered := buffered - {expected};
        expected := (expected + 1) % TWO_32;
      }
      DrainEnds(State(), ready);
    }
  }

  // Deduplication.

  datatype DedupState = DedupState(seen: set<u32>, floor: u32, window: u32)

  function NewDedup(window: u32): DedupState {
    DedupState({}, 0, window)
  }

  function AcceptStep(d: DedupState, index: u32): (DedupState, bool) {
    if index < d.floor || index in d.seen then (d, false)
    else
      var seen := d.seen + {index};
      var newFloor := Monus(Greatest(seen), d.window);
      if newFloor > d.floor
      then (DedupState((set i | i in seen && i >= newFloor), newFloor, d.window), true)
      else (d.(seen := seen), true)
  }

  /** The floor a full memory of accepted indices would imply. */
  function FloorOf(accepted: set<nat>, window: nat): nat {
    if accepted == {} then 0 else Monus(Greatest(accepted), window)
  }

  /** The deduplication state as a view of everything accepted so far. */
  ghost predicate Remembers(d: DedupState, accepted: set<nat>) {
    && d.floor == FloorOf(accepted, d.window)
    && (forall i :: i in d.seen <==> i in accepted && i >= d.floor)
  }

  /** The answer is "new" exactly for an index never accepted and not below the floor. */
  lemma AcceptAnswers(d: DedupState, accepted: set<nat>, index: u32)
    requires Remembers(d, accepted)
    ensures var (after, isNew) := AcceptStep(d, index);
            && after.window == d.window
            && (isNew <==> index !in accepted && index >= FloorOf(accepted, d.window))
            && Remembers(after, if isNew then accepted + {index} else accepted)
  {
    var (after, isNew) := AcceptStep(d, index);
    if isNew {
      var seen := d.seen + {index};
      var all := accepted + {index};
      assert Greatest(all) in seen by {
        if accepted != {} {
          assert Greatest(accepted) in d.seen;
        }
      }
      assert Greatest(all) == Greatest(seen);
      assert FloorOf(all, d.window) >= d.floor;
      assert Remembers(after, all);
    }
  }

  lemma RefusalKeepsDedup(d: DedupState, index: u32)
    ensures !AcceptStep(d, index).1 ==> AcceptStep(d, index).0 == d
  {
  }

  datatype DedupRun = DedupRun(dedup: DedupState, accepted: set<nat>, answers: seq<bool>)

  function AcceptAll(window: u32, indices: seq<u32>): DedupRun
    decreases |indices|
  {
    if indices == [] then DedupRun(NewDedup(window), {}, []) else
    var before := AcceptAll(window, indices[..|indices| - 1]);
    var index := indices[|indices| - 1];
    var (after, isNew) := AcceptStep(before.dedup, index);
    DedupRun(after, if isNew then before.accepted + {index} else before.accepted, before.answers + [isNew])
  }

  ghost predicate AcceptedAt(indices: seq<u32>, answers: seq<bool>, index: nat, n: nat)
    requires |answers| == |indices|
  {
    n < |indices| && indices[n] == index && answers[n]
  }

  /** Everything that ever arrived: a memory that never forgets. */
  function Everything(indices: seq<u32>): set<nat> {
    set i | i in indices
  }

  /** What arrived is accepted unless it is below the floor, and nothing that arrived is above the
      highest accepted. */
  lemma {:induction false} NothingAboveIsMissed(window: u32, indices: seq<u32>)
    ensures var run := AcceptAll(window, indices);
            && (indices != [] ==> run.accepted != {})
            && (forall i :: i in run.accepted ==> i in indices)
            && (forall i :: i in indices && i >= FloorOf(run.accepted, window) ==> i in run.accepted)
            && (forall i :: i in indices ==> run.accepted != {} && i <= Greatest(run.accepted))
    decreases |indices|
  {
    if indices != [] {
      var last := |indices| - 1;
      NothingAboveIsMissed(window, indices[..last]);
      RunRemembers(window, indices[..last]);
      var before, after := AcceptAll(window, indices[..last]), AcceptAll(window, indices);
      AcceptAnswers(before.dedup, before.accepted, indices[last]);
      assert indices == indices[..last] + [indices[last]];
      hide AcceptAll, AcceptStep, Remembers;
      HighestGrows(before.accepted, indices[last]);
    }
  }

  lemma HighestGrows(s: set<nat>, i: nat)
    ensures s != {} ==> Greatest(s) <= Greatest(s + {i})
    ensures forall window: nat :: FloorOf(s, window) <= FloorOf(s + {i}, window)
    ensures i <= Greatest(s + {i})
  {
  }

  /** After any run: the floor is the highest index that ever arrived less the window, at most
      window + 1 entries are kept, each index has been accepted at most once, and the next answer is
      that of a memory that never forgets for every index no more than `window` below the highest. */
  lemma {:induction false} DedupAgreesWithTheFullSet(window: u32, indices: seq<u32>, next: u32)
    ensures var run, floor := AcceptAll(window, indices), FloorOf(Everything(indices), window);
            && run.dedup.window == window && |run.answers| == |indices|
            && run.dedup.floor == floor
            && |run.dedup.seen| <= window + 1
            && (forall i: nat :: i in run.accepted <==> exists n :: AcceptedAt(indices, run.answers, i, n))
            && (forall m, n :: 0 <= m < n < |indices| && indices[m] == indices[n] ==> !(run.answers[m] && run.answers[n]))
            && (next >= floor ==> AcceptStep(run.dedup, next).1 == (next !in indices))
            && (next < floor ==> !AcceptStep(run.dedup, next).1)
  {
    RunRemembers(window, indices);
    NothingAboveIsMissed(window, indices);
    var run := AcceptAll(window, indices);
    AcceptAnswers(run.dedup, run.accepted, next);
    if run.accepted == {} {
      assert run.dedup.seen == {};
    } else {
      SizeWithin(run.dedup.seen, run.dedup.floor, Greatest(run.accepted) + 1);
      SameHighest(run.accepted, Everything(indices));
    }
  }

  lemma SameHighest(some: set<nat>, all: set<nat>)
    requires some != {} && some <= all && forall i :: i in all ==> i <= Greatest(some)
    ensures all != {} && Greatest(all) == Greatest(some)
  {
    assert Greatest(some) in all;
  }

  lemma {:induction false} RunRemembers(window: u32, indices: seq<u32>)
    ensures var run := AcceptAll(window, indices);
            && run.dedup.window == window && |run.answers| == |indices|
            && Remembers(run.dedup, run.accepted)
            && (forall i: nat :: i in run.accepted <==> exists n :: AcceptedAt(indices, run.answers, i, n))
            && (forall m, n :: 0 <= m < n < |indices| && indices[m] == indices[n] ==> !(run.answers[m] && run.answers[n]))
    decreases |indices|
  {
    if indices != [] {
      var last := |indices| - 1;
      var shorter := indices[..last];
      RunRemembers(window, shorter);
      var before := AcceptAll(window, shorter);
      AcceptAnswers(before.dedup, before.accepted, indices[last]);
      AnswerExtends(indices, before, AcceptAll(window, indices));
    }
  }

  lemma AnswerExtends(indices: seq<u32>, before: DedupRun, run: DedupRun)
    requires indices != []
    requires var last := |indices| - 1;
             && |before.answers| == last && |run.answers| == last + 1 && run.answers[..last] == before.answers
             && (forall i: nat :: i in before.accepted <==> exists n :: AcceptedAt(indices[..last], before.answers, i, n))
             && (forall m, n :: 0 <= m < n < last && indices[..last][m] == indices[..last][n] ==> !(before.answers[m] && before.answers[n]))
             && (run.answers[last] ==> indices[last] !in before.accepted)
             && run.accepted == (if run.answers[last] then before.accepted + {indices[last]} else before.accepted)
    ensures forall i: nat :: i in run.accepted <==> exists n :: AcceptedAt(indices, run.answers, i, n)
    ensures forall m, n :: 0 <= m < n < |indices| && indices[m] == indices[n] ==> !(run.answers[m] && run.answers[n])
  {
    var last := |indices| - 1;
    var shorter := indices[..last];
    forall i: nat
      ensures i in run.accepted <==> exists n :: AcceptedAt(indices, run.answers, i, n)
    {
      if i in before.accepted {
        var n :| AcceptedAt(shorter, before.answers, i, n);
        assert AcceptedAt(indices, run.answers, i, n);
      } else if i in run.accepted {
        assert AcceptedAt(indices, run.answers, i, last);
      }
      if n: nat :| AcceptedAt(indices, run.answers, i, n) && n < last {
        assert AcceptedAt(shorter, before.answers, i, n);
      }
    }
    forall m, n | 0 <= m < n < |indices| && indices[m] == indices[n]
      ensures !(run.answers[m] && run.answers[n])
    {
      if n == last && run.answers[m] {
        assert AcceptedAt(shorter, before.answers, indices[last], m);
      }
    }
  }

  /** The deduplication set as an object, bounded by a floor; its state is a `DedupState`. */
  class Dedup {
    var seen: set<u32>
    var floor: u32
    const window: u32

    ghost function State(): DedupState
      reads this
    {
      DedupState(seen, floor, window)
    }

    constructor (window: u32)
      ensures State() == NewDedup(window)
    {
      this.seen := {};
      this.floor := 0;
      this.window := window;
    }

    method Accept(index: u32) returns (isNew: bool)
      modifies this
      ensures (State(), isNew) == AcceptStep(old(State()), index)
    {
      if index < floor {
        return false;
      }
      if index in seen {
        return false;
      }
      seen := seen + {index};
      var newFloor := Monus(Greatest(seen), window);
      if newFloor > floor {
        floor := newFloor;
        seen := set i | i in seen && i >= newFloor;
      }
      isNew := true;
    }
  }
}
