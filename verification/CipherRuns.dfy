/** What a payload that fails its checksum does to the rest of an encrypted stream: runs in which the
    receiver reads, in order, what the sender sends, altered payloads, and payloads never sent. */
module CipherRuns {
  import opened Integers
  import opened Ciphers
  import Bits

  datatype Event =
      /** The sender encrypts `plaintext`, and the receiver reads `got` in its place. */
    | Relay(plaintext: bytes, got: bytes)
      /** The receiver reads something that was never sent. */
    | Extra(got: bytes)

  datatype Ends = Ends(sender: CipherState, receiver: CipherState)

  function Meet(p: Primitives, ends: Ends, e: Event): Ends {
    Ends(if e.Relay? then EncryptStep(p, ends.sender, e.plaintext).0 else ends.sender,
         DecryptStep(p, ends.receiver, e.got).0)
  }

  function RunOf(p: Primitives, key: bytes, events: seq<Event>): Ends
    decreases |events|
  {
    if events == [] then Ends(NewState(key), NewState(key))
    else Meet(p, RunOf(p, key, events[..|events| - 1]), events[|events| - 1])
  }

  /** Where the receiver stands when it reads the n-th payload. */
  function Reader(p: Primitives, key: bytes, events: seq<Event>, n: nat): CipherState
    requires n < |events|
  {
    RunOf(p, key, events[..n]).receiver
  }

  /** The comparison: what the keystream uncovers at the end of a payload is the checksum of the rest. */
  predicate Matches(p: Primitives, c: CipherState, got: bytes)
    requires |got| >= CHECKSUM_LEN
  {
    var plain := Masked(p, c.key, c.inbound, got);
    var split := |got| - CHECKSUM_LEN;
    plain[split..] == Checksum(p, c.key, c.received, plain[..split])
  }

  predicate PassesAt(p: Primitives, key: bytes, events: seq<Event>, n: nat)
    requires n < |events|
  {
    |events[n].got| >= CHECKSUM_LEN && Matches(p, Reader(p, key, events, n), events[n].got)
  }

  predicate FailsAt(p: Primitives, key: bytes, events: seq<Event>, n: nat)
    requires n < |events|
  {
    |events[n].got| >= CHECKSUM_LEN && !Matches(p, Reader(p, key, events, n), events[n].got)
  }

  /** A payload that was sent, of which too little arrived to hold a checksum. */
  predicate CutAt(events: seq<Event>, n: nat)
    requires n < |events|
  {
    events[n].Relay? && |events[n].got| < CHECKSUM_LEN
  }

  // What each end has counted.

  function Sent(events: seq<Event>): (n: nat)
    ensures n <= |events|
    decreases |events|
  {
    if events == [] then 0
    else Sent(events[..|events| - 1]) + (if events[|events| - 1].Relay? then 1 else 0)
  }

  function BytesSent(events: seq<Event>): nat
    decreases |events|
  {
    if events == [] then 0
    else
      var last := events[|events| - 1];
      BytesSent(events[..|events| - 1]) + (if last.Relay? then |last.plaintext| + CHECKSUM_LEN else 0)
  }

  function Passed(p: Primitives, key: bytes, events: seq<Event>): (n: nat)
    ensures n <= |events|
    decreases |events|
  {
    if events == [] then 0
    else Passed(p, key, events[..|events| - 1]) + (if PassesAt(p, key, events, |events| - 1) then 1 else 0)
  }

  function BytesRead(events: seq<Event>): nat
    decreases |events|
  {
    if events == [] then 0
    else
      var last := events[|events| - 1];
      BytesRead(events[..|events| - 1]) + (if |last.got| >= CHECKSUM_LEN then |last.got| else 0)
  }

  /** What the last payload adds to each count. */
  lemma OneMore(p: Primitives, key: bytes, events: seq<Event>)
    requires events != []
    ensures var front, last, e := events[..|events| - 1], |events| - 1, events[|events| - 1];
            && RunOf(p, key, events) == Meet(p, RunOf(p, key, front), e)
            && Sent(events) == Sent(front) + (if e.Relay? then 1 else 0)
            && BytesSent(events) == BytesSent(front) + (if e.Relay? then |e.plaintext| + CHECKSUM_LEN else 0)
            && Passed(p, key, events) == Passed(p, key, front) + (if PassesAt(p, key, events, last) then 1 else 0)
            && BytesRead(events) == BytesRead(front) + (if |e.got| >= CHECKSUM_LEN then |e.got| else 0)
            && (PassesAt(p, key, events, last) <==> |e.got| >= CHECKSUM_LEN && Matches(p, RunOf(p, key, front).receiver, e.got))
  {
    hide Meet, Matches;
  }

  lemma NoneCounted(p: Primitives, key: bytes)
    ensures Sent([]) == 0 && BytesSent([]) == 0 && Passed(p, key, []) == 0 && BytesRead([]) == 0
  {
  }

  /** A count as the 64-bit counters hold it. */
  function Wrapped(n: nat): u64 {
    n % TWO_64
  }

  lemma CountOn(a: nat, b: nat)
    ensures Wrapped(Wrapped(a) + b) == Wrapped(a + b)
  {
  }

  lemma ReadingMoves(p: Primitives, c: CipherState, got: bytes)
    ensures var after := DecryptStep(p, c, got).0;
            && after.key == c.key
            && after.inbound == c.inbound + (if |got| >= CHECKSUM_LEN then |got| else 0)
            && after.received == (if |got| >= CHECKSUM_LEN && Matches(p, c, got) then Wrapped(c.received + 1) else c.received)
  {
    hide Masked, Checksum;
  }

  lemma SendingMoves(p: Primitives, c: CipherState, plaintext: bytes)
    requires p.Valid()
    ensures var after := EncryptStep(p, c, plaintext).0;
            after.key == c.key && after.outbound == c.outbound + |plaintext| + CHECKSUM_LEN && after.sent == Wrapped(c.sent + 1)
  {
    hide Masked, CounterBytes;
  }

  /** How one more payload moves the two ends. */
  lemma MeetingMoves(p: Primitives, ends: Ends, e: Event)
    requires p.Valid()
    ensures var after := Meet(p, ends, e);
            && after.sender.key == ends.sender.key && after.receiver.key == ends.receiver.key
            && after.sender.outbound == ends.sender.outbound + (if e.Relay? then |e.plaintext| + CHECKSUM_LEN else 0)
            && after.sender.sent == Wrapped(ends.sender.sent + (if e.Relay? then 1 else 0))
            && after.receiver.inbound == ends.receiver.inbound + (if |e.got| >= CHECKSUM_LEN then |e.got| else 0)
            && after.receiver.received
               == Wrapped(ends.receiver.received + (if |e.got| >= CHECKSUM_LEN && Matches(p, ends.receiver, e.got) then 1 else 0))
  {
    ReadingMoves(p, ends.receiver, e.got);
    if e.Relay? {
      SendingMoves(p, ends.sender, e.plaintext);
    }
    hide EncryptStep, DecryptStep, Matches;
  }

  /** Both ends by their counts. */
  ghost predicate StandsAt(ends: Ends, key: bytes, sent: nat, bytesSent: nat, passed: nat, bytesRead: nat) {
    && ends.sender.key == key && ends.receiver.key == key
    && ends.sender.sent == Wrapped(sent) && ends.sender.outbound == bytesSent
    && ends.receiver.received == Wrapped(passed) && ends.receiver.inbound == bytesRead
  }

  lemma CountsMove(p: Primitives, ends: Ends, e: Event, key: bytes, sent: nat, bytesSent: nat, passed: nat, bytesRead: nat)
    requires p.Valid() && StandsAt(ends, key, sent, bytesSent, passed, bytesRead)
    ensures StandsAt(Meet(p, ends, e), key,
                     sent + (if e.Relay? then 1 else 0),
                     bytesSent + (if e.Relay? then |e.plaintext| + CHECKSUM_LEN else 0),
                     passed + (if |e.got| >= CHECKSUM_LEN && Matches(p, ends.receiver, e.got) then 1 else 0),
                     bytesRead + (if |e.got| >= CHECKSUM_LEN then |e.got| else 0))
  {
    hide Meet, Matches, Wrapped;
    MeetingMoves(p, ends, e);
    CountOn(sent, if e.Relay? then 1 else 0);
    CountOn(passed, if |e.got| >= CHECKSUM_LEN && Matches(p, ends.receiver, e.got) then 1 else 0);
  }

  lemma StandsAtStart(p: Primitives, key: bytes)
    ensures StandsAt(RunOf(p, key, []), key, Sent([]), BytesSent([]), Passed(p, key, []), BytesRead([]))
  {
  }

  lemma {:induction false} WhereTheyStand(p: Primitives, key: bytes, events: seq<Event>)
    requires p.Valid()
    ensures StandsAt(RunOf(p, key, events), key,
                     Sent(events), BytesSent(events), Passed(p, key, events), BytesRead(events))
    decreases |events|
  {
    hide RunOf, Sent, Passed, BytesSent, BytesRead, Meet, Matches, PassesAt, StandsAt;
    if events == [] {
      StandsAtStart(p, key);
      return;
    }
    var front := events[..|events| - 1];
    WhereTheyStand(p, key, front);
    OneMore(p, key, events);
    CountsMove(p, RunOf(p, key, front), events[|events| - 1],
               key, Sent(front), BytesSent(front), Passed(p, key, front), BytesRead(front));
  }

  lemma Unwrapped(n: nat)
    requires n < TWO_64
    ensures Wrapped(n) == n
  {
  }

  /** Over any run shorter than the counter's range: the ends are in step exactly when as many payloads
      passed as were sent, and as many bytes were unmasked as were masked. */
  lemma InStepExactlyWhen(p: Primitives, key: bytes, events: seq<Event>)
    requires p.Valid() && |events| < TWO_64
    ensures var ends := RunOf(p, key, events);
            InStep(ends.sender, ends.receiver)
            <==> Passed(p, key, events) == Sent(events) && BytesRead(events) == BytesSent(events)
  {
    WhereTheyStand(p, key, events);
    hide RunOf, Sent, Passed, BytesSent, BytesRead;
    Unwrapped(Sent(events));
    Unwrapped(Passed(p, key, events));
    hide Wrapped;
  }

  // When what passes was sent there.

  /** Only a payload of the length of the one sent in its place passes the comparison: nothing that was
      never sent passes, and no payload cut short or lengthened. A payload altered in place may. */
  ghost predicate InPlace(p: Primitives, key: bytes, events: seq<Event>) {
    forall n :: 0 <= n < |events| && PassesAt(p, key, events, n) ==>
                  events[n].Relay? && |events[n].got| == |events[n].plaintext| + CHECKSUM_LEN
  }

  ghost predicate Undisturbed(p: Primitives, key: bytes, events: seq<Event>) {
    forall n :: 0 <= n < |events| ==> !FailsAt(p, key, events, n) && !CutAt(events, n)
  }

  lemma Shorter(p: Primitives, key: bytes, events: seq<Event>, m: nat)
    requires m <= |events|
    ensures forall n :: 0 <= n < m ==>
                          && (PassesAt(p, key, events[..m], n) <==> PassesAt(p, key, events, n))
                          && (FailsAt(p, key, events[..m], n) <==> FailsAt(p, key, events, n))
                          && (CutAt(events[..m], n) <==> CutAt(events, n))
  {
    hide Matches, RunOf;
    forall n | 0 <= n < m
      ensures PassesAt(p, key, events[..m], n) <==> PassesAt(p, key, events, n)
      ensures FailsAt(p, key, events[..m], n) <==> FailsAt(p, key, events, n)
    {
      assert events[..m][..n] == events[..n];
    }
  }

  lemma {:induction false} CountsTell(p: Primitives, key: bytes, events: seq<Event>)
    requires InPlace(p, key, events)
    ensures Passed(p, key, events) <= Sent(events)
    ensures Undisturbed(p, key, events) <==> Passed(p, key, events) == Sent(events) && BytesRead(events) == BytesSent(events)
    ensures Passed(p, key, events) == Sent(events) ==> BytesSent(events) <= BytesRead(events)
    decreases |events|
  {
    hide Sent, Passed, BytesSent, BytesRead, Matches, RunOf;
    if events == [] {
      NoneCounted(p, key);
    } else {
      var last := |events| - 1;
      OneMore(p, key, events);
      Shorter(p, key, events, last);
      CountsTell(p, key, events[..last]);
      assert Undisturbed(p, key, events) <==>
             Undisturbed(p, key, events[..last]) && !FailsAt(p, key, events, last) && !CutAt(events, last);
    }
  }

  /** In step, exactly when no payload of at least eight bytes failed the comparison and none that was
      sent was cut below eight. */
  lemma InStepUnlessDisturbed(p: Primitives, key: bytes, events: seq<Event>)
    requires p.Valid() && |events| < TWO_64 && InPlace(p, key, events)
    ensures var ends := RunOf(p, key, events);
            InStep(ends.sender, ends.receiver) <==> Undisturbed(p, key, events)
  {
    InStepExactlyWhen(p, key, events);
    CountsTell(p, key, events);
    hide RunOf, Passed, Sent, BytesRead, BytesSent, Undisturbed, InPlace;
  }

  /** For good: from the first payload that fails, or is cut, the ends are never in step again. */
  lemma FailureIsForGood(p: Primitives, key: bytes, events: seq<Event>, n: nat, m: nat)
    requires p.Valid() && |events| < TWO_64 && InPlace(p, key, events) && n < m <= |events|
    requires FailsAt(p, key, events, n) || CutAt(events, n)
    ensures var ends := RunOf(p, key, events[..m]);
            !InStep(ends.sender, ends.receiver)
  {
    Shorter(p, key, events, m);
    assert !Undisturbed(p, key, events[..m]);
    InStepUnlessDisturbed(p, key, events[..m]);
    hide RunOf, FailsAt, CutAt, PassesAt;
  }

  /** The number sent less the number passed never falls. */
  lemma {:induction false} SentLessPassedNeverFalls(p: Primitives, key: bytes, events: seq<Event>, m: nat)
    requires InPlace(p, key, events) && m <= |events|
    ensures Sent(events[..m]) - Passed(p, key, events[..m]) <= Sent(events) - Passed(p, key, events)
    decreases |events|
  {
    if m == |events| {
      assert events[..m] == events;
    } else {
      hide Sent, Passed, Matches, RunOf;
      var last := |events| - 1;
      OneMore(p, key, events);
      Shorter(p, key, events, last);
      SentLessPassedNeverFalls(p, key, events[..last], m);
      assert events[..last][..m] == events[..m];
    }
  }

  ghost predicate AlteredInPlace(events: seq<Event>, m: nat) {
    forall n :: m <= n < |events| && events[n].Relay? ==> |events[n].got| == |events[n].plaintext| + CHECKSUM_LEN
  }

  ghost predicate NothingExtra(events: seq<Event>, m: nat) {
    forall n :: m <= n < |events| && events[n].Extra? ==> |events[n].got| < CHECKSUM_LEN
  }

  lemma NothingExtraSplits(events: seq<Event>, m: nat)
    requires m < |events|
    ensures var last := |events| - 1;
            NothingExtra(events, m)
            <==> NothingExtra(events[..last], m) && (events[last].Extra? ==> |events[last].got| < CHECKSUM_LEN)
  {
  }

  /** While payloads are only altered in place, the keystreams keep their distance; payloads never sent
      widen it. */
  lemma {:induction false} KeystreamsKeepTheirDistance(p: Primitives, key: bytes, events: seq<Event>, m: nat)
    requires p.Valid() && m <= |events|
    requires AlteredInPlace(events, m)
    ensures var before, after := RunOf(p, key, events[..m]), RunOf(p, key, events);
            && before.receiver.inbound - before.sender.outbound <= after.receiver.inbound - after.sender.outbound
            && (before.receiver.inbound - before.sender.outbound == after.receiver.inbound - after.sender.outbound
                <==> NothingExtra(events, m))
    decreases |events|
  {
    if m == |events| {
      assert events[..m] == events;
    } else {
      hide RunOf, Meet, Matches, Sent, BytesSent, BytesRead, Passed, PassesAt;
      var last := |events| - 1;
      OneMore(p, key, events);
      NothingExtraSplits(events, m);
      KeystreamsKeepTheirDistance(p, key, events[..last], m);
      assert events[..last][..m] == events[..m];
      MeetingMoves(p, RunOf(p, key, events[..last]), events[last]);
      hide NothingExtra, Wrapped;
    }
  }

  // Inputs that show both sides.

  const EIGHT_ZEROS: bytes := [0, 0, 0, 0, 0, 0, 0, 0]
  const ALTERED: bytes := [1, 0, 0, 0, 0, 0, 0, 0]

  /** A keystream of zeros, and the same checksum for everything. */
  function Constant(): Primitives {
    Primitives((_, _) => 0, _ => EIGHT_ZEROS)
  }

  /** A keystream of zeros leaves everything as it is. */
  lemma ZerosMask(p: Primitives, key: bytes, offset: nat, buf: bytes)
    requires forall k, i :: p.keystream(k, i) == 0
    ensures Masked(p, key, offset, buf) == buf
  {
    forall i | 0 <= i < |buf|
      ensures Masked(p, key, offset, buf)[i] == buf[i]
    {
      Bits.XorZero(buf[i]);
    }
  }

  lemma ConstantReads(c: CipherState, got: bytes)
    requires |got| >= CHECKSUM_LEN
    ensures Matches(Constant(), c, got) <==> got[|got| - CHECKSUM_LEN..] == EIGHT_ZEROS
  {
    ZerosMask(Constant(), c.key, c.inbound, got);
  }

  lemma EmptyIsSentAsZeros(c: CipherState)
    ensures EncryptStep(Constant(), c, []).1 == EIGHT_ZEROS
  {
    ZerosMask(Constant(), c.key, c.outbound, EIGHT_ZEROS);
    assert Checksum(Constant(), c.key, c.sent, []) == EIGHT_ZEROS;
    assert [] + EIGHT_ZEROS == EIGHT_ZEROS;
  }

  /** An empty packet whose payload arrives with one byte altered: it fails, and whatever is relayed
      after it, unaltered or altered in place, the ends are out of step. */
  lemma OneAlteredByte(key: bytes, later: seq<Event>)
    requires |later| + 1 < TWO_64
    requires forall n :: 0 <= n < |later| ==> later[n].Relay? && |later[n].got| == |later[n].plaintext| + CHECKSUM_LEN
    ensures var events := [Relay([], ALTERED)] + later;
            var ends := RunOf(Constant(), key, events);
            && Constant().Valid() && EncryptStep(Constant(), NewState(key), []).1 == EIGHT_ZEROS
            && FailsAt(Constant(), key, events, 0)
            && !InStep(ends.sender, ends.receiver)
  {
    EmptyIsSentAsZeros(NewState(key));
    var events := [Relay([], ALTERED)] + later;
    ConstantReads(Reader(Constant(), key, events, 0), ALTERED);
    assert ALTERED[|ALTERED| - CHECKSUM_LEN..] == ALTERED && ALTERED[0] != EIGHT_ZEROS[0];
    assert events[..|events|] == events;
    hide RunOf, Matches, Constant, EncryptStep;
    FailureIsForGood(Constant(), key, events, 0, |events|);
  }

  /** A payload never sent, and one of which only the first half arrives. */
  function Forgery(): seq<Event> {
    [Extra(ALTERED), Relay(EIGHT_ZEROS, EIGHT_ZEROS)]
  }

  lemma ForgeryPasses(key: bytes)
    ensures FailsAt(Constant(), key, Forgery(), 0) && !PassesAt(Constant(), key, Forgery()[..1], 0)
    ensures PassesAt(Constant(), key, Forgery(), 1)
  {
    ConstantReads(Reader(Constant(), key, Forgery(), 0), ALTERED);
    ConstantReads(Reader(Constant(), key, Forgery(), 1), EIGHT_ZEROS);
    assert ALTERED[|ALTERED| - CHECKSUM_LEN..] == ALTERED && ALTERED[0] != EIGHT_ZEROS[0];
    assert EIGHT_ZEROS[|EIGHT_ZEROS| - CHECKSUM_LEN..] == EIGHT_ZEROS;
    Shorter(Constant(), key, Forgery(), 1);
    hide RunOf, Matches, Constant;
  }

  lemma TheForgery()
    ensures |Forgery()| == 2 && Forgery()[0].Extra? && Forgery()[1].Relay?
    ensures |Forgery()[0].got| == 8 && |Forgery()[1].got| == 8 && |Forgery()[1].plaintext| == 8
  {
  }

  lemma ForgeryCounts(p: Primitives, key: bytes)
    requires !PassesAt(p, key, Forgery()[..1], 0) && PassesAt(p, key, Forgery(), 1)
    ensures Passed(p, key, Forgery()) == Sent(Forgery()) && BytesRead(Forgery()) == BytesSent(Forgery())
  {
    hide RunOf, Matches, PassesAt, Sent, Passed, BytesSent, BytesRead, Forgery, EIGHT_ZEROS, ALTERED;
    TheForgery();
    NoneCounted(p, key);
    var all := Forgery();
    var first := all[..1];
    assert first[..0] == [] && first[0] == all[0];
    OneMore(p, key, first);
    OneMore(p, key, all);
  }

  /** When something cut short can pass, a failure need not be for good: the number passed and the
      bytes read catch up with what was sent. */
  lemma AForgeryCatchesUp(key: bytes)
    ensures var ends := RunOf(Constant(), key, Forgery());
            && Constant().Valid() && FailsAt(Constant(), key, Forgery(), 0) && !InPlace(Constant(), key, Forgery())
            && InStep(ends.sender, ends.receiver)
  {
    hide RunOf, Sent, Passed, BytesSent, BytesRead, FailsAt, PassesAt;
    ForgeryPasses(key);
    ForgeryCounts(Constant(), key);
    InStepExactlyWhen(Constant(), key, Forgery());
  }
}
