/** When a datagram is sent again, in plain arithmetic, and what that means for the time a peer is
    given. */
module Timeouts {
  import opened Integers
  import opened Wrappers
  import opened KeyOrder
  import opened Datagrams
  import opened Retransmit
  import RetransmitRuns
  import Bits

  // The estimate and the timeout.

  /** One measurement: the smoothed value moves an eighth of the way and the variation a quarter,
      rounded down, as in section 2 of RFC 6298. */
  lemma SampleIsExact(r: RttState, rtt: nat)
    ensures var after := SampleStep(r, rtt);
            && after.smoothed.Some? && after.min == r.min && after.max == r.max
            && (r.smoothed.None? ==> after.smoothed.value == rtt && 2 * after.variation <= rtt < 2 * after.variation + 2)
            && (r.smoothed.Some? ==>
                  var s := r.smoothed.value;
                  var delta := if s <= rtt then rtt - s else s - rtt;
                  && 8 * after.smoothed.value <= 7 * s + rtt < 8 * after.smoothed.value + 8
                  && 4 * after.variation <= 3 * r.variation + delta < 4 * after.variation + 4)
  {
  }

  /** The timeout is the value within the limits nearest to the smoothed estimate and four times its
      variation, and the ceiling before the first measurement. */
  lemma TimeoutIsNearest(r: RttState, t: nat)
    requires r.min <= r.max
    ensures r.smoothed.None? ==> TimeoutOf(r) == r.max
    ensures r.min <= TimeoutOf(r) <= r.max
    ensures r.smoothed.Some? && r.min <= t <= r.max ==>
              var aim := r.smoothed.value + 4 * r.variation;
              (aim <= TimeoutOf(r) <= t) || (t <= TimeoutOf(r) <= aim) || TimeoutOf(r) == aim
  {
  }

  /** On a steady link the timeout settles within 35 nanoseconds, between the trip less 7 and the trip
      and 28, or at the limit next to that. */
  lemma SteadyTimeout(r: RttState, rtt: nat, n: nat)
    requires r.smoothed.Some? && r.min <= r.max
    requires n >= RetransmitRuns.Distance(r, rtt) + Max(r.variation, RetransmitRuns.Distance(r, rtt))
    ensures var t := TimeoutOf(RetransmitRuns.Steady(r, rtt, n));
            && (r.min <= rtt <= r.max ==> Max(r.min, Monus(rtt, 7)) <= t <= Min(r.max, rtt + 28))
            && (rtt > r.max + 7 ==> t == r.max) && (rtt + 28 < r.min ==> t == r.min)
  {
    RetransmitRuns.SteadyLinkSettles(r, rtt, n);
    SteadyKeepsLimits(r, rtt, n);
  }

  lemma {:induction false} SteadyKeepsLimits(r: RttState, rtt: nat, n: nat)
    ensures RetransmitRuns.Steady(r, rtt, n).min == r.min && RetransmitRuns.Steady(r, rtt, n).max == r.max
  {
    if n > 0 {
      SteadyKeepsLimits(r, rtt, n - 1);
    }
  }

  // What is due.

  /** Twice as long for each retry, up to the ceiling; from 32 retries on the factor stays 2^32 - 1. */
  ghost function Wait(base: nat, retries: nat, ceiling: nat): nat {
    Min(base * (if retries < 32 then Bits.Pow2(retries) else TWO_32 - 1), ceiling)
  }

  ghost predicate Overdue(r: RetransState, k: u32, now: nat)
    requires k in r.inFlight
  {
    Monus(now, r.inFlight[k].sentAt) >= Wait(TimeoutOf(r.rtt), r.inFlight[k].retries, r.limits.maxRto)
  }

  ghost function OverdueKeys(r: RetransState, now: nat): set<u32> {
    set k | k in r.inFlight && Overdue(r, k, now)
  }

  /** The datagrams are those of the keys, in key order. */
  ghost predicate BytesOf(m: Table, keys: seq<nat>, out: seq<bytes>) {
    && |out| == |keys|
    && forall i :: 0 <= i < |keys| ==> keys[i] in m && out[i] == m[keys[i]].datagram
  }

  lemma {:induction false} DatagramsInOrder(m: Table, keys: set<nat>)
    requires forall k :: k in keys ==> k in m
    ensures BytesOf(m, Sorted(keys), DatagramsFrom(m, keys))
    decreases |keys|
  {
    hide DatagramsFrom, Sorted, BytesOf;
    if keys == {} {
      NoKeys(m);
    } else {
      var k := Least(keys);
      DatagramsInOrder(m, keys - {k});
      OneKeyFirst(m, keys);
      OneMoreFirst(m, k, Sorted(keys - {k}), DatagramsFrom(m, keys - {k}));
    }
  }

  lemma NoKeys(m: Table)
    ensures BytesOf(m, Sorted({}), DatagramsFrom(m, {}))
  {
  }

  lemma OneMoreFirst(m: Table, k: u32, keys: seq<nat>, out: seq<bytes>)
    requires k in m && BytesOf(m, keys, out)
    ensures BytesOf(m, [k] + keys, [m[k].datagram] + out)
  {
  }

  lemma OneKeyFirst(m: Table, keys: set<nat>)
    requires keys != {} && forall k :: k in keys ==> k in m
    ensures var k := Least(keys);
            && Sorted(keys) == [k] + Sorted(keys - {k})
            && DatagramsFrom(m, keys) == [m[k].datagram] + DatagramsFrom(m, keys - {k})
  {
  }

  ghost predicate TriedTooOften(m: Table, limits: Limits) {
    exists k :: k in m && m[k].retries > limits.maxRetries
  }

  /** An entry is sent again, and counted, exactly when it has waited out its timeout doubled once for
      each retry, or the ceiling; every other entry stays as it was. What goes out is the bytes of the
      entries sent again, in order of their sequence, and nothing else. The peer is given up on exactly
      when an entry has then been retried more often than allowed. */
  lemma DueIsExact(r: RetransState, now: nat)
    ensures var (after, out) := DueStep(r, now);
            && after.limits == r.limits && after.rtt == r.rtt && after.inFlight.Keys == r.inFlight.Keys
            && (forall k :: k in r.inFlight ==>
                              var e := r.inFlight[k];
                              after.inFlight[k] == if Overdue(r, k, now) then InFlight(e.datagram, now, e.retries + 1) else e)
            && BytesOf(r.inFlight, Sorted(OverdueKeys(r, now)), out)
            && (after.dead <==> r.dead || TriedTooOften(after.inFlight, r.limits))
  {
    assert DueKeys(r, now) == OverdueKeys(r, now);
    DatagramsInOrder(r.inFlight, DueKeys(r, now));
    hide DatagramsFrom, Sorted, TimeoutOf, IsDue, Overdue, Bits.Pow2;
  }

  /** The deadline, for an entry retried fewer than 32 times, with the clock running forwards. */
  lemma DueAtItsDeadline(r: RetransState, k: u32, now: nat)
    requires k in r.inFlight && r.inFlight[k].retries < 32 && now >= r.inFlight[k].sentAt
    ensures var e := r.inFlight[k];
            var deadline := e.sentAt + Min(TimeoutOf(r.rtt) * Bits.Pow2(e.retries), r.limits.maxRto);
            && (now >= deadline ==> DueStep(r, now).0.inFlight[k] == InFlight(e.datagram, now, e.retries + 1))
            && (now < deadline ==> DueStep(r, now).0.inFlight[k] == e)
  {
    DueIsExact(r, now);
    hide DueStep, TimeoutOf, Bits.Pow2, BytesOf;
  }

  // Negative acknowledgements.

  /** How many of the ranges name the sequence. */
  ghost function Times(ranges: seq<Range>, k: nat): nat
    decreases |ranges|
  {
    if ranges == [] then 0
    else (if ranges[0].start <= k <= ranges[0].end then 1 else 0) + Times(ranges[1..], k)
  }

  lemma {:induction false} NackCounts(r: RetransState, ranges: seq<Range>, now: nat, k: u32)
    requires k in r.inFlight
    ensures var after, n, e := NackRanges(r, ranges, now).0, Times(ranges, k), r.inFlight[k];
            && k in after.inFlight
            && after.inFlight[k] == if n == 0 then e else InFlight(e.datagram, now, e.retries + n)
    decreases |ranges|
  {
    if ranges != [] {
      NackCounts(r.(inFlight := ResendKeys(r.inFlight, Covered(r.inFlight, ranges[0]), now)), ranges[1..], now, k);
    }
  }

  lemma {:induction false} NackKeepsTheRest(r: RetransState, ranges: seq<Range>, now: nat)
    ensures var after := NackRanges(r, ranges, now).0;
            after == r.(inFlight := after.inFlight) && after.inFlight.Keys == r.inFlight.Keys
    decreases |ranges|
  {
    if ranges != [] {
      NackKeepsTheRest(r.(inFlight := ResendKeys(r.inFlight, Covered(r.inFlight, ranges[0]), now)), ranges[1..], now);
    }
  }

  /** Each entry a negative acknowledgement names is counted once for each range that names it, and its
      wait starts again; no other entry changes. */
  lemma NackIsExact(r: RetransState, ranges: seq<Range>, now: nat)
    ensures var after := NackStep(r, ranges, now).0;
            && after.limits == r.limits && after.rtt == r.rtt && after.inFlight.Keys == r.inFlight.Keys
            && (forall k :: k in r.inFlight ==>
                              var n, e := Times(ranges, k), r.inFlight[k];
                              after.inFlight[k] == if n == 0 then e else InFlight(e.datagram, now, e.retries + n))
            && (after.dead <==> r.dead || TriedTooOften(after.inFlight, r.limits))
  {
    NackKeepsTheRest(r, ranges, now);
    forall k | k in r.inFlight
      ensures var n, e := Times(ranges, k), r.inFlight[k];
              NackStep(r, ranges, now).0.inFlight[k] == if n == 0 then e else InFlight(e.datagram, now, e.retries + n)
    {
      NackCounts(r, ranges, now, k);
    }
    hide NackRanges, Times;
  }

  // The time a peer is given.

  /** The waits before each of the first n retries, at the shortest timeout there is. */
  ghost function Waits(limits: Limits, n: nat): nat {
    if n == 0 then 0 else Waits(limits, n - 1) + Wait(limits.minRto, n - 1, limits.maxRto)
  }

  /** The time when a sequence was tracked is one of a call that tracked it. */
  ghost predicate TrackedAt(ops: seq<RetransmitRuns.Op>, k: u32, at: nat) {
    exists m :: 0 <= m < |ops| && ops[m].Track? && ops[m].sequence == k && ops[m].now == at
  }

  /** Each entry has waited out every retry it is counted for. */
  ghost predicate HasWaited(r: RetransState, sent: map<u32, RetransmitRuns.Sent>) {
    forall k :: k in r.inFlight ==> k in sent && r.inFlight[k].sentAt >= sent[k].at + Waits(r.limits, r.inFlight[k].retries)
  }

  ghost predicate Dated(ops: seq<RetransmitRuns.Op>, sent: map<u32, RetransmitRuns.Sent>) {
    forall k :: k in sent ==> TrackedAt(ops, k, sent[k].at)
  }

  /** A call of `due` found a datagram that had waited out one retry more than allowed. */
  ghost predicate WaitedOut(ops: seq<RetransmitRuns.Op>, limits: Limits) {
    exists n: nat, k: u32, at: nat :: n < |ops| && ops[n].Due? && TrackedAt(ops[..n], k, at)
                                      && ops[n].now >= at + Waits(limits, limits.maxRetries + 1)
  }

  lemma WaitIsMonotone(a: nat, b: nat, retries: nat, ceiling: nat)
    requires a <= b
    ensures Wait(a, retries, ceiling) <= Wait(b, retries, ceiling)
  {
    var factor := if retries < 32 then Bits.Pow2(retries) else TWO_32 - 1;
    assert b * factor == a * factor + (b - a) * factor;
    hide Bits.Pow2;
  }

  lemma WaitIsSomeTime(base: nat, retries: nat, ceiling: nat)
    requires 0 < base && 0 < ceiling
    ensures Wait(base, retries, ceiling) > 0
  {
    var factor := if retries < 32 then Bits.Pow2(retries) else TWO_32 - 1;
    assert base * factor == factor + (base - 1) * factor;
    hide Bits.Pow2;
  }

  lemma {:induction false} WaitsGrow(limits: Limits, a: nat, b: nat)
    requires a <= b
    ensures Waits(limits, a) <= Waits(limits, b)
  {
    if a < b {
      WaitsGrow(limits, a, b - 1);
    }
  }

  /** One more retry has been waited for. */
  lemma DueHasWaited(r: RetransState, sent: map<u32, RetransmitRuns.Sent>, now: nat, k: u32)
    requires HasWaited(r, sent) && k in r.inFlight
    requires 0 < r.limits.minRto <= r.limits.maxRto && r.limits.minRto <= TimeoutOf(r.rtt)
    ensures var e := DueStep(r, now).0.inFlight;
            k in e && e[k].sentAt >= sent[k].at + Waits(r.limits, e[k].retries)
    ensures DueStep(r, now).0.inFlight[k].retries > r.inFlight[k].retries ==>
              now >= sent[k].at + Waits(r.limits, r.inFlight[k].retries + 1)
  {
    hide DueStep, TimeoutOf, Wait, Waits, BytesOf, OverdueKeys, TriedTooOften;
    var n := r.inFlight[k].retries;
    DueIsExact(r, now);
    WaitIsMonotone(r.limits.minRto, TimeoutOf(r.rtt), n, r.limits.maxRto);
    WaitIsSomeTime(r.limits.minRto, n, r.limits.maxRto);
    OneWaitMore(r.limits, n);
  }

  lemma OneWaitMore(limits: Limits, n: nat)
    ensures Waits(limits, n + 1) == Waits(limits, n) + Wait(limits.minRto, n, limits.maxRto)
  {
  }

  /** How every run stands: the timeout has its limits, every entry has waited, the times are those of
      calls, and a peer given up on is one that was given the time. */
  ghost predicate Patient(run: RetransmitRuns.Run, limits: Limits, ops: seq<RetransmitRuns.Op>) {
    && run.r.limits == limits && run.r.rtt.min == limits.minRto && run.r.rtt.max == limits.maxRto
    && HasWaited(run.r, run.sent) && Dated(ops, run.sent)
    && (TriedTooOften(run.r.inFlight, limits) ==> run.r.dead)
    && (run.r.dead ==> WaitedOut(ops, limits))
  }

  lemma LaterCallsDoNotMatter(ops: seq<RetransmitRuns.Op>, more: RetransmitRuns.Op, limits: Limits)
    ensures forall k, at :: TrackedAt(ops, k, at) ==> TrackedAt(ops + [more], k, at)
    ensures WaitedOut(ops, limits) ==> WaitedOut(ops + [more], limits)
  {
    var after := ops + [more];
    forall k: u32, at: nat | TrackedAt(ops, k, at)
      ensures TrackedAt(after, k, at)
    {
      var m :| 0 <= m < |ops| && ops[m].Track? && ops[m].sequence == k && ops[m].now == at;
      assert after[m] == ops[m];
    }
    if WaitedOut(ops, limits) {
      var n: nat, k: u32, at: nat :| n < |ops| && ops[n].Due? && TrackedAt(ops[..n], k, at)
                                     && ops[n].now >= at + Waits(limits, limits.maxRetries + 1);
      assert after[..n] == ops[..n] && after[n] == ops[n];
    }
  }

  lemma {:induction false} AckKeepsTheRest(r: RetransState, ranges: seq<Range>, now: nat)
    ensures var after := AckStep(r, ranges, now);
            && after.limits == r.limits && after.dead == r.dead
            && after.rtt.min == r.rtt.min && after.rtt.max == r.rtt.max
            && (forall k :: k in after.inFlight ==> k in r.inFlight && after.inFlight[k] == r.inFlight[k])
    decreases |ranges|
  {
    if ranges != [] {
      RetransmitRuns.LimitsAreKept(r.rtt, SamplesFrom(r.inFlight, Covered(r.inFlight, ranges[0]), now));
      AckKeepsTheRest(AckRange(r, ranges[0], now), ranges[1..], now);
      hide SampleAll, SamplesFrom;
    }
  }

  lemma TrackIsPatient(before: RetransmitRuns.Run, limits: Limits, ops: seq<RetransmitRuns.Op>, op: RetransmitRuns.Op)
    requires Patient(before, limits, ops) && op.Track?
    ensures Patient(RetransmitRuns.Step(before, op), limits, ops + [op])
  {
    LaterCallsDoNotMatter(ops, op, limits);
    hide WaitedOut;
    assert (ops + [op])[|ops|] == op;
    assert TrackedAt(ops + [op], op.sequence, op.now);
    hide TrackedAt;
  }

  lemma AckIsPatient(before: RetransmitRuns.Run, limits: Limits, ops: seq<RetransmitRuns.Op>, op: RetransmitRuns.Op)
    requires Patient(before, limits, ops) && op.Ack?
    ensures Patient(RetransmitRuns.Step(before, op), limits, ops + [op])
  {
    hide WaitedOut, TrackedAt, AckStep, Waits;
    LaterCallsDoNotMatter(ops, op, limits);
    AckKeepsTheRest(before.r, op.ranges, op.now);
  }

  lemma DueIsPatient(before: RetransmitRuns.Run, limits: Limits, ops: seq<RetransmitRuns.Op>, op: RetransmitRuns.Op)
    requires Patient(before, limits, ops) && op.Due? && 0 < limits.minRto <= limits.maxRto
    ensures Patient(RetransmitRuns.Step(before, op), limits, ops + [op])
  {
    hide WaitedOut, TrackedAt, DueStep, DueKeys, Waits, BytesOf, OverdueKeys, Overdue, TimeoutOf;
    LaterCallsDoNotMatter(ops, op, limits);
    var r, after := before.r, RetransmitRuns.Step(before, op);
    DueIsExact(r, op.now);
    TimeoutIsNearest(r.rtt, limits.minRto);
    SentIsKept(before.sent, DueKeys(r, op.now));
    forall k | k in r.inFlight
      ensures k in after.sent && after.r.inFlight[k].sentAt >= after.sent[k].at + Waits(limits, after.r.inFlight[k].retries)
    {
      DueHasWaited(r, before.sent, op.now, k);
    }
    if !r.dead && after.r.dead {
      NewlyDead(before, limits, ops, op);
    }
  }

  lemma SentIsKept(sent: map<u32, RetransmitRuns.Sent>, keys: set<u32>)
    ensures var after := RetransmitRuns.CountCopies(sent, keys);
            after.Keys == sent.Keys && forall k :: k in sent ==> after[k].at == sent[k].at
  {
  }

  /** The call at which the peer is given up on finds a datagram that has waited long enough. */
  lemma NewlyDead(before: RetransmitRuns.Run, limits: Limits, ops: seq<RetransmitRuns.Op>, op: RetransmitRuns.Op)
    requires Patient(before, limits, ops) && op.Due? && 0 < limits.minRto <= limits.maxRto
    requires !before.r.dead && DueStep(before.r, op.now).0.dead
    ensures WaitedOut(ops + [op], limits)
  {
    hide TrackedAt, DueStep, Waits, BytesOf, OverdueKeys, Overdue, TimeoutOf;
    var r := before.r;
    DueIsExact(r, op.now);
    TimeoutIsNearest(r.rtt, limits.minRto);
    var after := DueStep(r, op.now).0;
    var k :| k in after.inFlight && after.inFlight[k].retries > limits.maxRetries;
    DueHasWaited(r, before.sent, op.now, k);
    assert r.inFlight[k].retries <= limits.maxRetries;
    WaitsGrow(limits, limits.maxRetries + 1, r.inFlight[k].retries + 1);
    var all, n := ops + [op], |ops|;
    assert all[..n] == ops && all[n] == op && TrackedAt(all[..n], k, before.sent[k].at);
  }

  /** A peer that is not asked to hurry by a negative acknowledgement is given its time: over every run,
      with any acknowledgements and however often `due` is called, it is given up on only by a call that
      comes when some datagram has waited out one retry more than allowed, each wait at least the
      shortest timeout doubled once for each retry before it, or the ceiling. */
  lemma {:induction false} RetriesTakeTheirTime(limits: Limits, ops: seq<RetransmitRuns.Op>)
    requires 0 < limits.minRto <= limits.maxRto && forall i :: 0 <= i < |ops| ==> !ops[i].Nack?
    ensures Patient(RetransmitRuns.RunAll(limits, ops), limits, ops)
    decreases |ops|
  {
    if ops != [] {
      var front, op := ops[..|ops| - 1], ops[|ops| - 1];
      var before := RetransmitRuns.RunAll(limits, front);
      RetriesTakeTheirTime(limits, front);
      assert front + [op] == ops;
      hide Patient, RetransmitRuns.Step;
      match op
      case Track(_, _, _) => TrackIsPatient(before, limits, front, op);
      case Ack(_, _) => AckIsPatient(before, limits, front, op);
      case Due(_) => DueIsPatient(before, limits, front, op);
    }
  }
}
