/** Keeping reliable datagrams until the peer acknowledges them: the round trip estimate of
    section 2 of RFC 6298 and the retransmission rules of its section 5. Times and durations are
    nanoseconds. */
module Retransmit {
  import opened Integers
  import opened Wrappers
  import opened KeyOrder
  import opened Datagrams
  import Bits

  // The smoothed estimate and its variation.

  datatype RttState = RttState(smoothed: Option<nat>, variation: nat, min: nat, max: nat)

  function NewRtt(min: nat, max: nat): RttState {
    RttState(None, 0, min, max)
  }

  function AbsDiff(a: nat, b: nat): nat {
    if a >= b then a - b else b - a
  }

  function SampleStep(r: RttState, rtt: nat): RttState {
    match r.smoothed
    case None => r.(smoothed := Some(rtt), variation := rtt / 2)
    case Some(smoothed) =>
      r.(variation := (r.variation * 3 + AbsDiff(smoothed, rtt)) / 4, smoothed := Some((smoothed * 7 + rtt) / 8))
  }

  function SampleAll(r: RttState, samples: seq<nat>): RttState
    decreases |samples|
  {
    if samples == [] then r else SampleAll(SampleStep(r, samples[0]), samples[1..])
  }

  function Clamp(x: nat, low: nat, high: nat): nat {
    if x < low then low else if x > high then high else x
  }

  function TimeoutOf(r: RttState): nat {
    match r.smoothed
    case None => r.max
    case Some(smoothed) => Clamp(smoothed + r.variation * 4, r.min, r.max)
  }

  class Rtt {
    var smoothed: Option<nat>
    var variation: nat
    const min: nat
    const max: nat

    ghost function State(): RttState
      reads this
    {
      RttState(smoothed, variation, min, max)
    }

    constructor (min: nat, max: nat)
      ensures State() == NewRtt(min, max)
    {
      this.smoothed := None;
      this.variation := 0;
      this.min := min;
      this.max := max;
    }

    method Sample(rtt: nat)
      modifies this
      ensures State() == SampleStep(old(State()), rtt)
    {
      match smoothed
      case None =>
        smoothed := Some(rtt);
        variation := rtt / 2;
      case Some(s) =>
        var delta := AbsDiff(s, rtt);
        variation := (variation * 3 + delta) / 4;
        smoothed := Some((s * 7 + rtt) / 8);
    }

    method Timeout() returns (t: nat)
      ensures t == TimeoutOf(State())
    {
      match smoothed
      case None => t := max;
      case Some(s) => t := Clamp(s + variation * 4, min, max);
    }
  }

  // Retransmission.

  datatype Limits = Limits(minRto: nat, maxRto: nat, maxRetries: nat, maxInFlight: nat)

  datatype InFlight = InFlight(datagram: bytes, sentAt: nat, retries: nat)

  type Table = map<u32, InFlight>

  datatype RetransState = RetransState(limits: Limits, rtt: RttState, inFlight: Table, dead: bool)

  function NewRetrans(limits: Limits): RetransState {
    RetransState(limits, NewRtt(limits.minRto, limits.maxRto), map[], false)
  }

  /** `None` when the window is full. */
  function TrackStep(r: RetransState, sequence: u32, datagram: bytes, now: nat): Option<RetransState> {
    if |r.inFlight| >= r.limits.maxInFlight then None
    else Some(r.(inFlight := r.inFlight[sequence := InFlight(datagram, now, 0)]))
  }

  /** The datagrams in flight that a range names: walked in the map, not in the range. */
  function Covered(m: Table, range: Range): set<u32> {
    set k | k in m && range.Has(k)
  }

  /** Measurements an acknowledgement of `keys` gives: only from datagrams sent once. */
  function SamplesFrom(m: Table, keys: set<nat>, now: nat): seq<nat>
    requires forall k :: k in keys ==> k in m
    decreases |keys|
  {
    if keys == {} then [] else
    var k := Least(keys);
    (if m[k].retries == 0 then [Monus(now, m[k].sentAt)] else []) + SamplesFrom(m, keys - {k}, now)
  }

  /** The lowest key's sample, if it gives one, comes first. */
  lemma SampleNext(r: RttState, m: Table, keys: set<nat>, now: nat)
    requires keys != {} && forall k :: k in keys ==> k in m
    ensures var k := Least(keys);
            SampleAll(r, SamplesFrom(m, keys, now))
            == SampleAll(if m[k].retries == 0 then SampleStep(r, Monus(now, m[k].sentAt)) else r, SamplesFrom(m, keys - {k}, now))
  {
    var k := Least(keys);
    var later := SamplesFrom(m, keys - {k}, now);
    assert ([Monus(now, m[k].sentAt)] + later)[1..] == later;
    assert [] + later == later;
    hide SampleStep;
  }

  lemma SamplesEnd(r: RttState, m: Table, now: nat)
    ensures SampleAll(r, SamplesFrom(m, {}, now)) == r
  {
  }

  function AckRange(r: RetransState, range: Range, now: nat): RetransState {
    var acked := Covered(r.inFlight, range);
    r.(rtt := SampleAll(r.rtt, SamplesFrom(r.inFlight, acked, now)), inFlight := r.inFlight - acked)
  }

  function AckStep(r: RetransState, ranges: seq<Range>, now: nat): RetransState
    decreases |ranges|
  {
    if ranges == [] then r else AckStep(AckRange(r, ranges[0], now), ranges[1..], now)
  }

  function Resent(e: InFlight, now: nat): InFlight {
    e.(retries := e.retries + 1, sentAt := now)
  }

  function ResendKeys(m: Table, keys: set<u32>, now: nat): Table {
    map k | k in m :: if k in keys then Resent(m[k], now) else m[k]
  }

  /** Where sending `keys` again stands, while `rest` has not been walked. */
  ghost predicate Resending(table: Table, at: Table, keys: set<u32>, rest: set<u32>, out: seq<bytes>, now: nat) {
    && rest <= table.Keys == at.Keys && keys <= table.Keys
    && (forall k :: k in table ==> at[k] == if k in keys && k !in rest then Resent(table[k], now) else table[k])
    && out + DatagramsFrom(table, keys * rest) == DatagramsFrom(table, keys)
  }

  lemma ResendingStarts(table: Table, walk: set<u32>, keys: set<u32>, now: nat)
    requires keys <= walk <= table.Keys
    ensures Resending(table, table, keys, walk, [], now)
  {
    assert keys * walk == keys;
    hide DatagramsFrom;
    assert [] + DatagramsFrom(table, keys) == DatagramsFrom(table, keys);
  }

  lemma ResendingOn(table: Table, at: Table, keys: set<u32>, rest: set<u32>, out: seq<bytes>, now: nat)
    requires Resending(table, at, keys, rest, out, now) && rest != {}
    ensures var k := Least(rest);
            && k in at
            && if k in keys
               then Resending(table, at[k := Resent(at[k], now)], keys, rest - {k}, out + [at[k].datagram], now)
               else Resending(table, at, keys, rest - {k}, out, now)
  {
    var k := Least(rest);
    if k in keys {
      assert Least(keys * rest) == k by {
        assert k in keys * rest;
        assert Least(keys * rest) in rest;
      }
      assert keys * rest - {k} == keys * (rest - {k});
      Assoc(out, [table[k].datagram], DatagramsFrom(table, keys * (rest - {k})));
    } else {
      assert keys * (rest - {k}) == keys * rest;
    }
  }

  lemma ResendingEnds(table: Table, at: Table, keys: set<u32>, out: seq<bytes>, now: nat)
    requires Resending(table, at, keys, {}, out, now)
    ensures at == ResendKeys(table, keys, now) && out == DatagramsFrom(table, keys)
  {
    assert keys * {} == {};
    assert out + [] == out;
  }

  /** The datagrams of `keys`, in key order. */
  function DatagramsFrom(m: Table, keys: set<nat>): seq<bytes>
    requires forall k :: k in keys ==> k in m
    decreases |keys|
  {
    if keys == {} then [] else
    var k := Least(keys);
    [m[k].datagram] + DatagramsFrom(m, keys - {k})
  }

  function CheckRetries(r: RetransState): RetransState {
    if exists k :: k in r.inFlight && r.inFlight[k].retries > r.limits.maxRetries then r.(dead := true) else r
  }

  function NackRanges(r: RetransState, ranges: seq<Range>, now: nat): (RetransState, seq<bytes>)
    decreases |ranges|
  {
    if ranges == [] then (r, []) else
    var missing := Covered(r.inFlight, ranges[0]);
    var (after, out) := NackRanges(r.(inFlight := ResendKeys(r.inFlight, missing, now)), ranges[1..], now);
    (after, DatagramsFrom(r.inFlight, missing) + out)
  }

  function NackStep(r: RetransState, ranges: seq<Range>, now: nat): (RetransState, seq<bytes>) {
    var (after, out) := NackRanges(r, ranges, now);
    (CheckRetries(after), out)
  }

  /** `1u32.checked_shl(retries).unwrap_or(u32::MAX)`. */
  function Multiplier(retries: nat): nat {
    if retries < 32 then Bits.Pow2(retries) else TWO_32 - 1
  }

  function Backoff(base: nat, retries: nat, max: nat): nat {
    Min(base * Multiplier(retries), max)
  }

  predicate IsDue(e: InFlight, base: nat, max: nat, now: nat) {
    Monus(now, e.sentAt) >= Backoff(base, e.retries, max)
  }

  function DueKeys(r: RetransState, now: nat): set<u32> {
    set k | k in r.inFlight && IsDue(r.inFlight[k], TimeoutOf(r.rtt), r.limits.maxRto, now)
  }

  function DueStep(r: RetransState, now: nat): (RetransState, seq<bytes>) {
    var keys := DueKeys(r, now);
    (CheckRetries(r.(inFlight := ResendKeys(r.inFlight, keys, now))), DatagramsFrom(r.inFlight, keys))
  }

  class Retransmitter {
    const limits: Limits
    const rtt: Rtt
    var inFlight: Table
    var dead: bool

    ghost function State(): RetransState
      reads this, rtt
    {
      RetransState(limits, rtt.State(), inFlight, dead)
    }

    constructor (limits: Limits)
      ensures State() == NewRetrans(limits)
      ensures fresh(rtt)
    {
      this.limits := limits;
      this.rtt := new Rtt(limits.minRto, limits.maxRto);
      this.inFlight := map[];
      this.dead := false;
    }

    method Track(sequence: u32, datagram: bytes, now: nat) returns (tracked: bool)
      modifies this`inFlight
      ensures match TrackStep(old(State()), sequence, datagram, now)
              case Some(after) => tracked && State() == after
              case None => !tracked && State() == old(State())
    {
      if |inFlight| >= limits.maxInFlight {
        return false;
      }
      inFlight := inFlight[sequence := InFlight(datagram, now, 0)];
      tracked := true;
    }

    /** Clears acknowledged datagrams and updates the estimate. The walk over a range of the map
        needs its start not to be past its end. */
    method OnAck(ranges: seq<Range>, now: nat)
      requires forall i :: 0 <= i < |ranges| ==> ranges[i].start <= ranges[i].end
      modifies this, rtt
      ensures State() == AckStep(old(State()), ranges, now)
    {
      for i := 0 to |ranges|
        invariant AckStep(State(), ranges[i..], now) == AckStep(old(State()), ranges, now)
      {
        AckOne(ranges[i], now);
        assert ranges[i..][1..] == ranges[i + 1..];
      }
    }

    method AckOne(range: Range, now: nat)
      modifies this, rtt
      ensures State() == AckRange(old(State()), range, now)
    {
      hide SampleAll, SampleStep, SamplesFrom;
      ghost var table := inFlight;
      var acked := Covered(inFlight, range);
      var rest := acked;
      while rest != {}
        invariant rest <= acked && dead == old(dead)
        invariant inFlight == table - (acked - rest)
        invariant SampleAll(rtt.State(), SamplesFrom(table, rest, now)) == SampleAll(old(rtt.State()), SamplesFrom(table, acked, now))
        decreases |rest|
      {
        var sequence := Least(rest);
        var entry := inFlight[sequence];
        assert entry == table[sequence];
        inFlight := inFlight - {sequence};
        SampleNext(rtt.State(), table, rest, now);
        if entry.retries == 0 {
          rtt.Sample(Monus(now, entry.sentAt));
        }
        assert table - (acked - (rest - {sequence})) == inFlight;
        rest := rest - {sequence};
      }
      SamplesEnd(rtt.State(), table, now);
    }

    /** Walks the ranges as `NackStep` does; what they cover of the in-flight map goes out again. */
    method OnNack(ranges: seq<Range>, now: nat) returns (out: seq<bytes>)
      requires forall i :: 0 <= i < |ranges| ==> ranges[i].start <= ranges[i].end
      modifies this
      ensures (State(), out) == NackStep(old(State()), ranges, now)
    {
      out := [];
      for i := 0 to |ranges|
        invariant NackRanges(old(State()), ranges, now).0 == NackRanges(State(), ranges[i..], now).0
        invariant NackRanges(old(State()), ranges, now).1 == out + NackRanges(State(), ranges[i..], now).1
      {
        ghost var before := State();
        var missing := Covered(inFlight, ranges[i]);
        var resent := Resend(missing, missing, now);
        assert ranges[i..][1..] == ranges[i + 1..];
        Assoc(out, resent, NackRanges(State(), ranges[i + 1..], now).1);
        out := out + resent;
      }
      assert out + [] == out;
      DeclareDead();
    }

    /** Sends `keys` again, walking `walk` in ascending order. */
    method Resend(walk: set<u32>, keys: set<u32>, now: nat) returns (out: seq<bytes>)
      requires keys <= walk <= inFlight.Keys
      modifies this`inFlight
      ensures inFlight == ResendKeys(old(inFlight), keys, now)
      ensures out == DatagramsFrom(old(inFlight), keys)
    {
      hide Resending;
      ghost var table := inFlight;
      var rest := walk;
      out := [];
      ResendingStarts(table, walk, keys, now);
      while rest != {}
        invariant Resending(table, inFlight, keys, rest, out, now)
        decreases |rest|
      {
        var k := Least(rest);
        ResendingOn(table, inFlight, keys, rest, out, now);
        rest := rest - {k};
        if k in keys {
          out := out + [inFlight[k].datagram];
          inFlight := inFlight[k := Resent(inFlight[k], now)];
        }
      }
      ResendingEnds(table, inFlight, keys, out, now);
    }

    /** Walks the in-flight map as `DueStep` does, lowest sequence first. */
    method Due(now: nat) returns (out: seq<bytes>)
      modifies this
      ensures (State(), out) == DueStep(old(State()), now)
    {
      var base := rtt.Timeout();
      var due := set k | k in inFlight && IsDue(inFlight[k], base, limits.maxRto, now);
      out := Resend(inFlight.Keys, due, now);
      DeclareDead();
    }

    method DeclareDead()
      modifies this`dead
      ensures State() == CheckRetries(old(State()))
    {
      if exists k :: k in inFlight && inFlight[k].retries > limits.maxRetries {
        dead := true;
      }
    }
  }
}
