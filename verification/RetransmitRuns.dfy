/** What the estimator and the retransmitter keep over every run. */
module RetransmitRuns {
  import opened Integers
  import opened KeyOrder
  import opened Datagrams
  import opened Retransmit
  import Bits

  // The estimator.

  /** The estimate never leaves the hull of the measurements it was made from. */
  lemma {:induction false} EstimateStaysInTheHull(r: RttState, samples: seq<nat>, low: nat, high: nat)
    requires r.smoothed.Some? ==> low <= r.smoothed.value <= high
    requires forall i :: 0 <= i < |samples| ==> low <= samples[i] <= high
    ensures var after := SampleAll(r, samples);
            && (after.smoothed.Some? <==> r.smoothed.Some? || samples != [])
            && (after.smoothed.Some? ==> low <= after.smoothed.value <= high)
    decreases |samples|
  {
    if samples != [] {
      EstimateStaysInTheHull(SampleStep(r, samples[0]), samples[1..], low, high);
    }
  }

  /** The timeout never leaves its limits, and is the ceiling until there is a measurement. */
  lemma {:induction false} TimeoutStaysInItsLimits(min: nat, max: nat, samples: seq<nat>)
    requires min <= max
    ensures var r := SampleAll(NewRtt(min, max), samples);
            && r.min == min && r.max == max
            && min <= TimeoutOf(r) <= max
            && (samples == [] ==> TimeoutOf(r) == max)
  {
    LimitsAreKept(NewRtt(min, max), samples);
  }

  lemma {:induction false} LimitsAreKept(r: RttState, samples: seq<nat>)
    ensures SampleAll(r, samples).min == r.min && SampleAll(r, samples).max == r.max
    decreases |samples|
  {
    if samples != [] {
      LimitsAreKept(SampleStep(r, samples[0]), samples[1..]);
    }
  }

  /** `n` equal measurements in a row. */
  function Steady(r: RttState, rtt: nat, n: nat): RttState {
    if n == 0 then r else SampleStep(Steady(r, rtt, n - 1), rtt)
  }

  predicate Settled(r: RttState, rtt: nat) {
    r.smoothed.Some? && Monus(rtt, 7) <= r.smoothed.value <= rtt
  }

  /** How far the estimate is from its settled band. */
  function Distance(r: RttState, rtt: nat): nat
    requires r.smoothed.Some?
  {
    AbsDiff(r.smoothed.value, rtt)
  }

  /** One more equal measurement: outside the band the distance falls, inside it the estimate stays,
      and there the variation falls until it is at most 7. */
  lemma SteadyStep(r: RttState, rtt: nat)
    requires r.smoothed.Some?
    ensures var after := SampleStep(r, rtt);
            && after.smoothed.Some?
            && Distance(after, rtt) <= Distance(r, rtt)
            && (!Settled(r, rtt) ==> Distance(after, rtt) < Distance(r, rtt))
            && (Settled(r, rtt) ==> Settled(after, rtt))
            && after.variation <= Max(r.variation, Distance(r, rtt))
            && (Settled(r, rtt) && r.variation > 7 ==> after.variation < r.variation)
            && (Settled(r, rtt) && r.variation <= 7 ==> after.variation <= 7)
  {
    var s := r.smoothed.value;
    var next := (s * 7 + rtt) / 8;
    if s > rtt {
      assert rtt <= next < s;
    } else {
      assert s <= next <= rtt;
    }
  }

  /** On a steady link the estimate reaches the band [rtt - 7, rtt] within `Distance` measurements
      and the variation falls to at most 7 within as many again as its own largest value; both stay
      there for ever. */
  lemma {:induction false} SteadyLinkSettles(r: RttState, rtt: nat, n: nat)
    requires r.smoothed.Some?
    ensures var d := Distance(r, rtt);
            var v := Max(r.variation, d);
            var after := Steady(r, rtt, n);
            && after.smoothed.Some? && after.variation <= v && Distance(after, rtt) <= d
            && (Settled(after, rtt) || Distance(after, rtt) + n <= d)
            && (n >= d ==> Settled(after, rtt))
            && (n >= d && after.variation > 7 ==> after.variation + (n - d) <= v)
            && (n >= d + v ==> after.variation <= 7)
  {
    if n > 0 {
      SteadyLinkSettles(r, rtt, n - 1);
      SteadyStep(Steady(r, rtt, n - 1), rtt);
    }
    if Distance(Steady(r, rtt, n), rtt) == 0 {
      assert Settled(Steady(r, rtt, n), rtt);
    }
  }

  // Backoff.

  lemma MultiplierBelow(retries: nat)
    requires retries < 32
    ensures Bits.Pow2(retries) <= TWO_31
  {
    Bits.Pow2Values();
    Bits.Pow2Monotone(retries, 31);
  }

  lemma LessTimes(base: nat, a: nat, b: nat)
    requires a <= b
    ensures base * a <= base * b
  {
  }

  /** Waiting never gets shorter with the number of retries, and never passes the ceiling. */
  lemma BackoffIsMonotone(base: nat, a: nat, b: nat, max: nat)
    requires a <= b
    ensures Backoff(base, a, max) <= Backoff(base, b, max) <= max
  {
    if b < 32 {
      Bits.Pow2Monotone(a, b);
    } else if a < 32 {
      MultiplierBelow(a);
    }
    LessTimes(base, Multiplier(a), Multiplier(b));
  }

  /** The wait doubles with each retry up to the ceiling, with one exception: from 32 retries on the
      shift no longer exists and the factor stays at 2^32 - 1. The doubling rule is met exactly when
      that factor already reaches the ceiling, or there is nothing to double. */
  lemma BackoffDoubles(base: nat, retries: nat, max: nat)
    ensures Backoff(base, retries, max) == Min(base * Bits.Pow2(retries), max)
       <==> retries < 32 || base == 0 || base * (TWO_32 - 1) >= max
  {
    if retries >= 32 {
      Bits.Pow2Values();
      Bits.Pow2Monotone(32, retries);
      CappedAlike(base, TWO_32 - 1, Bits.Pow2(retries), max);
    }
  }

  lemma CappedAlike(base: nat, a: nat, b: nat, max: nat)
    requires a < b
    ensures Min(base * a, max) == Min(base * b, max) <==> base == 0 || base * a >= max
  {
    if base > 0 {
      assert base * b == base * a + base * (b - a);
      LessTimes(base, 1, b - a);
      assert base * b > base * a;
    }
  }

  /** An input where the doubling rule fails: a one-nanosecond base and a far ceiling. */
  lemma DoublingStops()
    ensures Backoff(1, 32, TWO_32) != Min(1 * Bits.Pow2(32), TWO_32)
  {
    BackoffDoubles(1, 32, TWO_32);
  }

  // Every run of the retransmitter.

  /** What is remembered about a datagram beside the machine: its bytes and time when tracked, and
      how many copies of it went out. */
  datatype Sent = Sent(datagram: bytes, at: nat, copies: nat)

  datatype Op =
    | Track(sequence: u32, datagram: bytes, now: nat)
    | Ack(ranges: seq<Range>, now: nat)
    | Nack(ranges: seq<Range>, now: nat)
    | Due(now: nat)

  datatype Run = Run(r: RetransState, sent: map<u32, Sent>)

  function CountCopies(sent: map<u32, Sent>, keys: set<u32>): map<u32, Sent> {
    map k | k in sent :: if k in keys then sent[k].(copies := sent[k].copies + 1) else sent[k]
  }

  function NackCopies(m: Table, sent: map<u32, Sent>, ranges: seq<Range>): map<u32, Sent>
    decreases |ranges|
  {
    if ranges == [] then sent else NackCopies(m, CountCopies(sent, Covered(m, ranges[0])), ranges[1..])
  }

  function Step(run: Run, op: Op): Run {
    match op
    case Track(sequence, datagram, now) =>
      (match TrackStep(run.r, sequence, datagram, now)
       case None => run
       case Some(after) => Run(after, run.sent[sequence := Sent(datagram, now, 1)]))
    case Ack(ranges, now) => run.(r := AckStep(run.r, ranges, now))
    case Nack(ranges, now) => Run(NackStep(run.r, ranges, now).0, NackCopies(run.r.inFlight, run.sent, ranges))
    case Due(now) => Run(DueStep(run.r, now).0, CountCopies(run.sent, DueKeys(run.r, now)))
  }

  function RunAll(limits: Limits, ops: seq<Op>): Run
    decreases |ops|
  {
    if ops == [] then Run(NewRetrans(limits), map[])
    else Step(RunAll(limits, ops[..|ops| - 1]), ops[|ops| - 1])
  }

  /** The machine's own record agrees with what went out. */
  ghost predicate Agrees(m: Table, sent: map<u32, Sent>) {
    forall k :: k in m ==>
                  && k in sent
                  && m[k].datagram == sent[k].datagram
                  && m[k].retries + 1 == sent[k].copies
                  && (sent[k].copies == 1 ==> m[k].sentAt == sent[k].at)
  }

  /** The trip times of the acknowledged datagrams that went out exactly once. */
  ghost function TripTimes(sent: map<u32, Sent>, keys: set<nat>, now: nat): seq<nat>
    requires forall k :: k in keys ==> k in sent
    decreases |keys|
  {
    if keys == {} then [] else
    var k := Least(keys);
    (if sent[k].copies == 1 then [Monus(now, sent[k].at)] else []) + TripTimes(sent, keys - {k}, now)
  }

  /** The bytes first tracked under each key. */
  ghost function Originals(sent: map<u32, Sent>, keys: set<nat>): seq<bytes>
    requires forall k :: k in keys ==> k in sent
    decreases |keys|
  {
    if keys == {} then [] else
    var k := Least(keys);
    [sent[k].datagram] + Originals(sent, keys - {k})
  }

  /** Karn's rule: a measurement is taken only from a datagram sent once, and is the time from then
      to its acknowledgement. */
  lemma {:induction false} OnlySentOnceIsMeasured(m: Table, sent: map<u32, Sent>, keys: set<nat>, now: nat)
    requires Agrees(m, sent) && forall k :: k in keys ==> k in m
    ensures SamplesFrom(m, keys, now) == TripTimes(sent, keys, now)
    decreases |keys|
  {
    if keys != {} {
      OnlySentOnceIsMeasured(m, sent, keys - {Least(keys)}, now);
    }
  }

  ghost predicate SameBytes(m: Table, sent: map<u32, Sent>) {
    forall k :: k in m ==> k in sent && m[k].datagram == sent[k].datagram
  }

  /** A datagram sent again is byte for byte the one first tracked. */
  lemma {:induction false} ResendsAreOriginals(m: Table, sent: map<u32, Sent>, keys: set<nat>)
    requires SameBytes(m, sent) && forall k :: k in keys ==> k in m
    ensures DatagramsFrom(m, keys) == Originals(sent, keys)
    decreases |keys|
  {
    if keys != {} {
      ResendsAreOriginals(m, sent, keys - {Least(keys)});
    }
  }

  /** The bytes first tracked under the keys each range names, range by range: a key named twice is
      sent twice. */
  ghost function OriginalsOf(m: Table, sent: map<u32, Sent>, ranges: seq<Range>): seq<bytes>
    requires SameBytes(m, sent)
    decreases |ranges|
  {
    if ranges == [] then [] else Originals(sent, Covered(m, ranges[0])) + OriginalsOf(m, sent, ranges[1..])
  }

  lemma {:induction false} OriginalsOfKeys(a: Table, b: Table, sent: map<u32, Sent>, ranges: seq<Range>)
    requires a.Keys == b.Keys && SameBytes(a, sent) && SameBytes(b, sent)
    ensures OriginalsOf(a, sent, ranges) == OriginalsOf(b, sent, ranges)
    decreases |ranges|
  {
    if ranges != [] {
      assert Covered(a, ranges[0]) == Covered(b, ranges[0]);
      OriginalsOfKeys(a, b, sent, ranges[1..]);
    }
  }

  /** What a negative acknowledgement sends again is what was first tracked, too. */
  lemma {:induction false} NackSendsOriginals(r: RetransState, sent: map<u32, Sent>, ranges: seq<Range>, now: nat)
    requires SameBytes(r.inFlight, sent)
    ensures NackRanges(r, ranges, now).1 == OriginalsOf(r.inFlight, sent, ranges)
    decreases |ranges|
  {
    if ranges != [] {
      var keys := Covered(r.inFlight, ranges[0]);
      var next := r.(inFlight := ResendKeys(r.inFlight, keys, now));
      ResendsAreOriginals(r.inFlight, sent, keys);
      NackSendsOriginals(next, sent, ranges[1..], now);
      OriginalsOfKeys(r.inFlight, next.inFlight, sent, ranges[1..]);
    }
  }

  /** The trip times an acknowledgement of several ranges measures: each datagram at most once. */
  ghost function TripsOf(keys: set<u32>, sent: map<u32, Sent>, ranges: seq<Range>, now: nat): seq<nat>
    requires forall k :: k in keys ==> k in sent
    decreases |ranges|
  {
    if ranges == [] then [] else
    var named := set k | k in keys && ranges[0].Has(k);
    TripTimes(sent, named, now) + TripsOf(keys - named, sent, ranges[1..], now)
  }

  lemma {:induction false} SampleJoins(r: RttState, a: seq<nat>, b: seq<nat>)
    ensures SampleAll(r, a + b) == SampleAll(SampleAll(r, a), b)
    decreases |a|
  {
    if a == [] {
      assert a + b == b;
    } else {
      assert (a + b)[1..] == a[1..] + b;
      SampleJoins(SampleStep(r, a[0]), a[1..], b);
    }
  }

  /** An acknowledgement folds in exactly those trip times. */
  lemma {:induction false} AckMeasures(r: RetransState, sent: map<u32, Sent>, ranges: seq<Range>, now: nat)
    requires Agrees(r.inFlight, sent)
    ensures AckStep(r, ranges, now).rtt == SampleAll(r.rtt, TripsOf(r.inFlight.Keys, sent, ranges, now))
    decreases |ranges|
  {
    if ranges != [] {
      var named := Covered(r.inFlight, ranges[0]);
      assert named == set k | k in r.inFlight.Keys && ranges[0].Has(k);
      OnlySentOnceIsMeasured(r.inFlight, sent, named, now);
      var next := AckRange(r, ranges[0], now);
      assert next.inFlight.Keys == r.inFlight.Keys - named;
      AckMeasures(next, sent, ranges[1..], now);
      SampleJoins(r.rtt, TripTimes(sent, named, now), TripsOf(next.inFlight.Keys, sent, ranges[1..], now));
    }
  }

  lemma {:induction false} AckKeepsAgreement(r: RetransState, ranges: seq<Range>, now: nat, sent: map<u32, Sent>)
    requires Agrees(r.inFlight, sent)
    ensures Agrees(AckStep(r, ranges, now).inFlight, sent)
    ensures AckStep(r, ranges, now).limits == r.limits
    ensures forall k :: k in AckStep(r, ranges, now).inFlight <==> k in r.inFlight && !Contains(ranges, k)
    ensures forall k :: k in AckStep(r, ranges, now).inFlight ==> AckStep(r, ranges, now).inFlight[k] == r.inFlight[k]
    decreases |ranges|
  {
    if ranges != [] {
      AckKeepsAgreement(AckRange(r, ranges[0], now), ranges[1..], now, sent);
      forall k
        ensures Contains(ranges, k) <==> ranges[0].Has(k) || Contains(ranges[1..], k)
      {
        ContainsSplits(ranges, k);
      }
    }
  }

  lemma ContainsSplits(ranges: seq<Range>, k: nat)
    requires ranges != []
    ensures Contains(ranges, k) <==> ranges[0].Has(k) || Contains(ranges[1..], k)
  {
    if i :| 0 <= i < |ranges| && ranges[i].Has(k) && i > 0 {
      assert ranges[1..][i - 1].Has(k);
    }
    if i :| 0 <= i < |ranges[1..]| && ranges[1..][i].Has(k) {
      assert ranges[i + 1].Has(k);
    }
  }

  lemma {:induction false} NackKeepsAgreement(r: RetransState, ranges: seq<Range>, now: nat, sent: map<u32, Sent>)
    requires Agrees(r.inFlight, sent)
    ensures Agrees(NackRanges(r, ranges, now).0.inFlight, NackCopies(r.inFlight, sent, ranges))
    ensures NackRanges(r, ranges, now).0.limits == r.limits
    ensures NackRanges(r, ranges, now).0.inFlight.Keys == r.inFlight.Keys
    decreases |ranges|
  {
    if ranges != [] {
      var keys := Covered(r.inFlight, ranges[0]);
      var next := r.(inFlight := ResendKeys(r.inFlight, keys, now));
      NackKeepsAgreement(next, ranges[1..], now, CountCopies(sent, keys));
      SameKeysSameCopies(r.inFlight, next.inFlight, CountCopies(sent, keys), ranges[1..]);
    }
  }

  lemma {:induction false} SameKeysSameCopies(a: Table, b: Table, sent: map<u32, Sent>, ranges: seq<Range>)
    requires a.Keys == b.Keys
    ensures NackCopies(a, sent, ranges) == NackCopies(b, sent, ranges)
    decreases |ranges|
  {
    if ranges != [] {
      assert Covered(a, ranges[0]) == Covered(b, ranges[0]);
      SameKeysSameCopies(a, b, CountCopies(sent, Covered(a, ranges[0])), ranges[1..]);
    }
  }

  /** After every run, for what is in flight: the retry count is the number of extra copies sent, the
      bytes are those first tracked, and the time of a datagram sent once is the time it was tracked.
      Hence the next acknowledgement measures only datagrams sent once, whatever its ranges; what is
      sent again, overdue or asked for, is what was first tracked; and the backlog stays inside the
      window. */
  lemma {:induction false} RecordsAgree(limits: Limits, ops: seq<Op>)
    ensures var run := RunAll(limits, ops);
            && run.r.limits == limits
            && |run.r.inFlight| <= limits.maxInFlight
            && Agrees(run.r.inFlight, run.sent)
            && (forall ranges: seq<Range>, now: nat ::
                  AckStep(run.r, ranges, now).rtt == SampleAll(run.r.rtt, TripsOf(run.r.inFlight.Keys, run.sent, ranges, now)))
            && (forall now: nat :: DueStep(run.r, now).1 == Originals(run.sent, DueKeys(run.r, now)))
            && (forall ranges: seq<Range>, now: nat ::
                  NackStep(run.r, ranges, now).1 == OriginalsOf(run.r.inFlight, run.sent, ranges))
    decreases |ops|
  {
    var run := RunAll(limits, ops);
    if ops != [] {
      var before := RunAll(limits, ops[..|ops| - 1]);
      RecordsAgree(limits, ops[..|ops| - 1]);
      StepAgrees(before, ops[|ops| - 1]);
    }
    assert SameBytes(run.r.inFlight, run.sent);
    hide RunAll;
    forall ranges: seq<Range>, now: nat
      ensures AckStep(run.r, ranges, now).rtt == SampleAll(run.r.rtt, TripsOf(run.r.inFlight.Keys, run.sent, ranges, now))
    {
      AckMeasures(run.r, run.sent, ranges, now);
    }
    forall now: nat
      ensures DueStep(run.r, now).1 == Originals(run.sent, DueKeys(run.r, now))
    {
      ResendsAreOriginals(run.r.inFlight, run.sent, DueKeys(run.r, now));
    }
    forall ranges: seq<Range>, now: nat
      ensures NackStep(run.r, ranges, now).1 == OriginalsOf(run.r.inFlight, run.sent, ranges)
    {
      NackSendsOriginals(run.r, run.sent, ranges, now);
    }
  }

  lemma TrackAgrees(run: Run, sequence: u32, datagram: bytes, now: nat)
    requires Agrees(run.r.inFlight, run.sent) && |run.r.inFlight| <= run.r.limits.maxInFlight
    ensures var after := Step(run, Track(sequence, datagram, now));
            && after.r.limits == run.r.limits
            && Agrees(after.r.inFlight, after.sent)
            && |after.r.inFlight| <= run.r.limits.maxInFlight
  {
    hide Agrees;
    InsertAgrees(run.r.inFlight, run.sent, sequence, datagram, now);
  }

  lemma InsertAgrees(m: Table, sent: map<u32, Sent>, sequence: u32, datagram: bytes, now: nat)
    requires Agrees(m, sent)
    ensures Agrees(m[sequence := InFlight(datagram, now, 0)], sent[sequence := Sent(datagram, now, 1)])
    ensures |m[sequence := InFlight(datagram, now, 0)]| <= |m| + 1
  {
    assert m[sequence := InFlight(datagram, now, 0)].Keys == m.Keys + {sequence};
  }

  lemma StepAgrees(run: Run, op: Op)
    requires Agrees(run.r.inFlight, run.sent) && |run.r.inFlight| <= run.r.limits.maxInFlight
    ensures var after := Step(run, op);
            && after.r.limits == run.r.limits
            && Agrees(after.r.inFlight, after.sent)
            && |after.r.inFlight| <= run.r.limits.maxInFlight
  {
    match op
    case Track(sequence, datagram, now) =>
      TrackAgrees(run, sequence, datagram, now);
    case Ack(ranges, now) =>
      AckKeepsAgreement(run.r, ranges, now, run.sent);
      SubsetSize(Step(run, op).r.inFlight.Keys, run.r.inFlight.Keys);
    case Nack(ranges, now) =>
      NackKeepsAgreement(run.r, ranges, now, run.sent);
      SubsetSize(Step(run, op).r.inFlight.Keys, run.r.inFlight.Keys);
    case Due(now) =>
      SubsetSize(Step(run, op).r.inFlight.Keys, run.r.inFlight.Keys);
  }

  // A peer that never acknowledges.

  /** The operation neither acknowledges the datagram nor tracks another under its number. */
  predicate LeavesAlone(op: Op, sequence: u32) {
    match op
    case Track(other, _, _) => other != sequence
    case Ack(ranges, _) => !Contains(ranges, sequence)
    case _ => true
  }

  /** How many `due` calls come at least `gap` after the previous one counted. */
  function Spaced(ops: seq<Op>, last: nat, gap: nat): nat
    decreases |ops|
  {
    if ops == [] then 0
    else if ops[0].Due? && ops[0].now >= last + gap then 1 + Spaced(ops[1..], ops[0].now, gap)
    else Spaced(ops[1..], last, gap)
  }

  function StepAll(r: RetransState, ops: seq<Op>): RetransState
    decreases |ops|
  {
    if ops == [] then r else StepAll(Step(Run(r, map[]), ops[0]).r, ops[1..])
  }

  /** Owed at least `count` retries: that many already, or one more if it was touched after `last`. */
  ghost predicate Owed(r: RetransState, sequence: u32, last: nat, count: nat) {
    && sequence in r.inFlight
    && (r.inFlight[sequence].retries > count || (r.inFlight[sequence].retries == count && r.inFlight[sequence].sentAt <= last))
    && (r.inFlight[sequence].retries > r.limits.maxRetries ==> r.dead)
  }

  lemma {:induction false} NackOnlyAdds(r: RetransState, ranges: seq<Range>, now: nat, sequence: u32)
    requires sequence in r.inFlight
    ensures var after := NackRanges(r, ranges, now).0;
            && sequence in after.inFlight && after.limits == r.limits && after.dead == r.dead
            && (after.inFlight[sequence] == r.inFlight[sequence]
                || (after.inFlight[sequence].retries > r.inFlight[sequence].retries && after.inFlight[sequence].sentAt == now))
    decreases |ranges|
  {
    if ranges != [] {
      NackOnlyAdds(r.(inFlight := ResendKeys(r.inFlight, Covered(r.inFlight, ranges[0]), now)), ranges[1..], now, sequence);
    }
  }

  lemma AckOnlyRemoves(r: RetransState, ranges: seq<Range>, now: nat, sequence: u32)
    requires sequence in r.inFlight && !Contains(ranges, sequence)
    ensures var after := AckStep(r, ranges, now);
            sequence in after.inFlight && after.inFlight[sequence] == r.inFlight[sequence]
            && after.limits == r.limits && after.dead == r.dead
    decreases |ranges|
  {
    if ranges != [] {
      ContainsSplits(ranges, sequence);
      AckOnlyRemoves(AckRange(r, ranges[0], now), ranges[1..], now, sequence);
    }
  }

  lemma OwedStep(r: RetransState, op: Op, sequence: u32, last: nat, count: nat)
    requires Owed(r, sequence, last, count) && LeavesAlone(op, sequence)
    requires r.inFlight[sequence].sentAt <= op.now
    ensures var after := Step(Run(r, map[]), op).r;
            && after.limits == r.limits
            && Owed(after, sequence, last, count) && after.inFlight[sequence].sentAt <= op.now
            && (op.Due? && op.now >= last + r.limits.maxRto ==> Owed(after, sequence, op.now, count + 1))
  {
    hide CheckRetries, DueKeys, NackRanges, AckStep;
    match op
    case Track(_, _, _) =>
    case Ack(ranges, now) => AckOnlyRemoves(r, ranges, now, sequence);
    case Nack(ranges, now) =>
      NackOnlyAdds(r, ranges, now, sequence);
      TooManyRetries(NackRanges(r, ranges, now).0, sequence);
    case Due(now) =>
      WaitedLongEnough(r, sequence, last, now);
      TooManyRetries(r.(inFlight := ResendKeys(r.inFlight, DueKeys(r, now), now)), sequence);
  }

  lemma WaitedLongEnough(r: RetransState, sequence: u32, last: nat, now: nat)
    requires sequence in r.inFlight
    ensures r.inFlight[sequence].sentAt <= last && now >= last + r.limits.maxRto ==> sequence in DueKeys(r, now)
  {
  }

  lemma TooManyRetries(r: RetransState, sequence: u32)
    requires sequence in r.inFlight
    ensures CheckRetries(r).inFlight == r.inFlight && CheckRetries(r).limits == r.limits
    ensures r.dead || r.inFlight[sequence].retries > r.limits.maxRetries ==> CheckRetries(r).dead
  {
  }

  lemma {:induction false} OwedRun(r: RetransState, ops: seq<Op>, sequence: u32, last: nat, count: nat)
    requires Owed(r, sequence, last, count)
    requires forall i :: 0 <= i < |ops| ==> LeavesAlone(ops[i], sequence) && r.inFlight[sequence].sentAt <= ops[i].now
    requires forall i, j :: 0 <= i < j < |ops| ==> ops[i].now <= ops[j].now
    requires count + Spaced(ops, last, r.limits.maxRto) > r.limits.maxRetries
    ensures StepAll(r, ops).dead
    decreases |ops|
  {
    if ops == [] {
    } else {
      OwedStep(r, ops[0], sequence, last, count);
      var next := Step(Run(r, map[]), ops[0]).r;
      if ops[0].Due? && ops[0].now >= last + r.limits.maxRto {
        OwedRun(next, ops[1..], sequence, ops[0].now, count + 1);
      } else {
        OwedRun(next, ops[1..], sequence, last, count);
      }
    }
  }

  /** A datagram that is never acknowledged makes the peer dead: more than `maxRetries` calls of
      `due`, each at least the longest wait after the one before, are enough, whatever else happens
      between them. */
  lemma SilenceIsNoticed(r: RetransState, ops: seq<Op>, sequence: u32)
    requires sequence in r.inFlight && r.inFlight[sequence].retries == 0
    requires forall i :: 0 <= i < |ops| ==> LeavesAlone(ops[i], sequence) && r.inFlight[sequence].sentAt <= ops[i].now
    requires forall i, j :: 0 <= i < j < |ops| ==> ops[i].now <= ops[j].now
    requires Spaced(ops, r.inFlight[sequence].sentAt, r.limits.maxRto) >= r.limits.maxRetries + 1
    ensures StepAll(r, ops).dead
  {
    OwedRun(r, ops, sequence, r.inFlight[sequence].sentAt, 0);
  }
}
