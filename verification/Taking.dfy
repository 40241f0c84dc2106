/** What becomes of frames whoever sends them, in any order, with any reliability and at any time. */
module Taking {
  import opened Integers
  import opened Wrappers
  import opened KeyOrder
  import opened SessionSpec
  import Frames
  import Order
  import Splits

  datatype Arrival = Arrival(f: Frames.Frame, now: nat)

  function After(rx: Rx, arrivals: seq<Arrival>): Rx
    decreases |arrivals|
  {
    if arrivals == [] then rx else
    var last := arrivals[|arrivals| - 1];
    TakeFrame(After(rx, arrivals[..|arrivals| - 1]), last.f, last.now).0
  }

  /** The index will not be taken again. */
  predicate Spent(d: Order.DedupState, index: nat) {
    index < d.floor || index in d.seen
  }

  lemma AcceptingSpends(d: Order.DedupState, index: u32)
    ensures var (after, isNew) := Order.AcceptStep(d, index);
            && (isNew <==> !Spent(d, index))
            && Spent(after, index)
            && (forall i: nat :: Spent(d, i) ==> Spent(after, i))
  {
    hide Greatest;
  }

  lemma PlacingLeavesDedup(rx: Rx, f: Frames.Frame, now: nat)
    ensures Place(rx, f, now).0.dedup == rx.dedup
  {
    hide Order.PushStep, Splits.PushStep;
  }

  lemma TakingSpends(rx: Rx, f: Frames.Frame, now: nat)
    ensures var (after, outcome) := TakeFrame(rx, f, now);
            && (forall i: nat :: Spent(rx.dedup, i) ==> Spent(after.dedup, i))
            && (f.reliability.IsReliable() ==> Spent(after.dedup, f.reliableIndex))
            && (f.reliability.IsReliable() && Spent(rx.dedup, f.reliableIndex) ==>
                  outcome == Released([]) && after == rx.(log := after.log))
  {
    hide Order.AcceptStep, Place, Spent;
    AcceptingSpends(rx.dedup, f.reliableIndex);
    if f.reliability.IsReliable() {
      var (dedup, isNew) := Order.AcceptStep(rx.dedup, f.reliableIndex);
      PlacingLeavesDedup(Marked(rx, f, dedup), f, now);
    } else {
      PlacingLeavesDedup(Marked(rx, f, rx.dedup), f, now);
    }
  }

  lemma {:induction false} StaysSpent(rx: Rx, arrivals: seq<Arrival>, m: nat)
    requires m < |arrivals| && arrivals[m].f.reliability.IsReliable()
    ensures Spent(After(rx, arrivals).dedup, arrivals[m].f.reliableIndex)
    decreases |arrivals|
  {
    hide TakeFrame, Spent;
    var last := |arrivals| - 1;
    TakingSpends(After(rx, arrivals[..last]), arrivals[last].f, arrivals[last].now);
    if m < last {
      StaysSpent(rx, arrivals[..last], m);
    }
  }

  /** At most once, whoever the peer is: after a reliable frame, whatever became of it and whatever came
      in between, another under the same index releases nothing and changes nothing. */
  lemma EachIndexOnce(rx: Rx, arrivals: seq<Arrival>, m: nat, n: nat)
    requires m < n < |arrivals| && arrivals[m].f.reliability.IsReliable() && arrivals[n].f.reliability.IsReliable()
    requires arrivals[m].f.reliableIndex == arrivals[n].f.reliableIndex
    ensures var before := After(rx, arrivals[..n]);
            var (after, outcome) := TakeFrame(before, arrivals[n].f, arrivals[n].now);
            outcome == Released([]) && after == before.(log := after.log)
  {
    hide TakeFrame, Spent;
    StaysSpent(rx, arrivals[..n], m);
    TakingSpends(After(rx, arrivals[..n]), arrivals[n].f, arrivals[n].now);
  }

  /** A whole payload that asks for no order is released at once; unless it is reliable and its index has
      been taken, and no other frame waits for it. */
  lemma UnorderedIsReleasedAtOnce(rx: Rx, f: Frames.Frame, now: nat)
    requires f.split.None? && !f.reliability.IsOrdered()
    ensures var (after, outcome) := TakeFrame(rx, f, now);
            && after.ordering == rx.ordering && after.reasm == rx.reasm
            && outcome == Released(if f.reliability.IsReliable() && Spent(rx.dedup, f.reliableIndex) then [] else [f.payload])
            && (!f.reliability.IsReliable() ==> after == rx)
  {
    hide Order.AcceptStep;
    AcceptingSpends(rx.dedup, f.reliableIndex);
  }
}
