/** Walking the in-flight map over a range panics when the range runs backwards: what a peer can send
    to make it, and exactly when it does not happen. */
module Walks {
  import opened Integers
  import opened Wrappers
  import opened Datagrams
  import Retransmit

  /** The walk over one range of the map; `None` is the panic. */
  function Walk(m: Retransmit.Table, range: Range): Option<set<u32>> {
    if range.start > range.end then None else Some(Retransmit.Covered(m, range))
  }

  /** An acknowledgement handled range by range, up to the first panic. */
  function OnAck(r: Retransmit.RetransState, ranges: seq<Range>, now: nat): Option<Retransmit.RetransState>
    decreases |ranges|
  {
    if ranges == [] then Some(r) else
    var acked :- Walk(r.inFlight, ranges[0]);
    OnAck(r.(rtt := Retransmit.SampleAll(r.rtt, Retransmit.SamplesFrom(r.inFlight, acked, now)), inFlight := r.inFlight - acked),
          ranges[1..], now)
  }

  /** A negative acknowledgement likewise. */
  function OnNack(r: Retransmit.RetransState, ranges: seq<Range>, now: nat): Option<(Retransmit.RetransState, seq<bytes>)>
    decreases |ranges|
  {
    if ranges == [] then Some((r, [])) else
    var missing :- Walk(r.inFlight, ranges[0]);
    var (after, out) :- OnNack(r.(inFlight := Retransmit.ResendKeys(r.inFlight, missing, now)), ranges[1..], now);
    Some((after, Retransmit.DatagramsFrom(r.inFlight, missing) + out))
  }

  ghost predicate Forwards(ranges: seq<Range>) {
    forall i :: 0 <= i < |ranges| ==> ranges[i].start <= ranges[i].end
  }

  lemma ForwardsSplits(ranges: seq<Range>)
    requires ranges != []
    ensures Forwards(ranges) <==> ranges[0].start <= ranges[0].end && Forwards(ranges[1..])
  {
    assert forall i :: 0 < i < |ranges| ==> ranges[i] == ranges[1..][i - 1];
  }

  /** An acknowledgement is handled without a panic exactly when every range starts no later than it
      ends, and then as the retransmitter's step says. */
  lemma {:induction false} AckPanicsOnlyBackwards(r: Retransmit.RetransState, ranges: seq<Range>, now: nat)
    ensures OnAck(r, ranges, now).Some? <==> Forwards(ranges)
    ensures Forwards(ranges) ==> OnAck(r, ranges, now) == Some(Retransmit.AckStep(r, ranges, now))
    decreases |ranges|
  {
    if ranges != [] {
      ForwardsSplits(ranges);
      AckPanicsOnlyBackwards(Retransmit.AckRange(r, ranges[0], now), ranges[1..], now);
    }
  }

  lemma {:induction false} NackPanicsOnlyBackwards(r: Retransmit.RetransState, ranges: seq<Range>, now: nat)
    ensures OnNack(r, ranges, now).Some? <==> Forwards(ranges)
    ensures Forwards(ranges) ==> OnNack(r, ranges, now) == Some(Retransmit.NackRanges(r, ranges, now))
    decreases |ranges|
  {
    if ranges != [] {
      ForwardsSplits(ranges);
      var missing := Retransmit.Covered(r.inFlight, ranges[0]);
      NackPanicsOnlyBackwards(r.(inFlight := Retransmit.ResendKeys(r.inFlight, missing, now)), ranges[1..], now);
    }
  }

  /** Ten bytes that decode to a range running backwards, at any session. */
  lemma BackwardRangeDecodes(r: Retransmit.RetransState, now: nat)
    ensures var b: bytes := [0xc0, 0, 1, 0, 1, 0, 0, 0, 0, 0];
            && DecodeDatagram(b) == Success(Ack([Range(1, 0)]))
            && OnAck(r, [Range(1, 0)], now) == None
  {
    var ranges := [Range(1, 0)];
    assert Records(ranges) == RecordBytes(ranges[0]) by {
      assert Records(ranges[1..]) == [];
    }
    assert RecordBytes(ranges[0]) == [0, 1, 0, 0, 0, 0, 0];
    assert ranges[..1] == ranges;
    assert DatagramBytes(Ack(ranges)) == [0xc0, 0, 1, 0, 1, 0, 0, 0, 0, 0];
    AckRoundTrip(ranges);
  }
}
