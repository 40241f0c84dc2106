/** Acknowledgement coalescing is exact. */
module Acks {
  import opened Integers
  import opened Wrappers
  import opened KeyOrder
  import opened Datagrams
  import opened SessionSpec

  /** Sorted, disjoint and not even adjacent. */
  ghost predicate Separated(ranges: seq<Range>) {
    && (forall i :: 0 <= i < |ranges| ==> ranges[i].start <= ranges[i].end)
    && (forall i, j :: 0 <= i < j < |ranges| ==> ranges[i].end + 1 < ranges[j].start)
  }

  lemma ContainsAppend(ranges: seq<Range>, r: Range, s: nat)
    ensures Contains(ranges + [r], s) <==> Contains(ranges, s) || r.Has(s)
  {
    if i :| 0 <= i < |ranges| && ranges[i].Has(s) {
      assert (ranges + [r])[i].Has(s);
    }
    assert (ranges + [r])[|ranges|] == r;
  }

  /** The next sequence after the last range makes that range longer. */
  lemma ExtendLast(ranges: seq<Range>, k: nat)
    requires Separated(ranges) && ranges != [] && k < TWO_32 && k == ranges[|ranges| - 1].end + 1
    ensures var last := |ranges| - 1;
            var longer := ranges[..last] + [Range(ranges[last].start, k)];
            && Separated(longer)
            && (forall s: nat :: Contains(longer, s) <==> Contains(ranges, s) || s == k)
  {
    var last := |ranges| - 1;
    var longer := ranges[..last] + [Range(ranges[last].start, k)];
    assert ranges == ranges[..last] + [ranges[last]];
    forall s: nat
      ensures Contains(longer, s) <==> Contains(ranges, s) || s == k
    {
      ContainsAppend(ranges[..last], ranges[last], s);
      ContainsAppend(ranges[..last], Range(ranges[last].start, k), s);
    }
  }

  /** Any later one starts a range of its own. */
  lemma StartAnother(ranges: seq<Range>, k: nat)
    requires Separated(ranges) && k < TWO_32 && (ranges != [] ==> ranges[|ranges| - 1].end + 1 < k)
    ensures Separated(ranges + [Range(k, k)])
    ensures forall s: nat :: Contains(ranges + [Range(k, k)], s) <==> Contains(ranges, s) || s == k
  {
    forall i | 0 <= i < |ranges|
      ensures ranges[i].end + 1 < k
    {
      if i < |ranges| - 1 {
        assert ranges[i].end + 1 < ranges[|ranges| - 1].start;
      }
    }
    forall s: nat
      ensures Contains(ranges + [Range(k, k)], s) <==> Contains(ranges, s) || s == k
    {
      ContainsAppend(ranges, Range(k, k), s);
    }
  }

  /** The ranges hold exactly the keys, and end where they end. */
  ghost predicate CoalescedFrom(ranges: seq<Range>, keys: seq<nat>) {
    && Separated(ranges)
    && (forall s: nat :: Contains(ranges, s) <==> s in keys)
    && (keys == [] <==> ranges == [])
    && (keys != [] ==> ranges[|ranges| - 1].end == keys[|keys| - 1])
  }

  function AddKey(ranges: seq<Range>, k: u32): seq<Range> {
    var last := |ranges| - 1;
    if ranges != [] && k == ranges[last].end + 1 then ranges[..last] + [Range(ranges[last].start, k)]
    else ranges + [Range(k, k)]
  }

  lemma OneMoreKey(ranges: seq<Range>, keys: seq<nat>, k: u32)
    requires CoalescedFrom(ranges, keys) && (keys != [] ==> keys[|keys| - 1] < k)
    ensures CoalescedFrom(AddKey(ranges, k), keys + [k])
  {
    hide Separated, Contains;
    assert forall s: nat :: s in keys + [k] <==> s in keys || s == k;
    if ranges != [] && k == ranges[|ranges| - 1].end + 1 {
      ExtendLast(ranges, k);
    } else {
      StartAnother(ranges, k);
    }
  }

  lemma {:induction false} CoalesceIsExact(keys: seq<nat>)
    requires Ascending(keys) && forall i :: 0 <= i < |keys| ==> keys[i] < TWO_32
    ensures CoalescedFrom(Coalesce(keys), keys)
    decreases |keys|
  {
    if keys != [] {
      var n := |keys| - 1;
      var shorter := keys[..n];
      assert keys == shorter + [keys[n]];
      assert Coalesce(keys) == AddKey(Coalesce(shorter), keys[n]);
      assert shorter != [] ==> shorter[|shorter| - 1] == keys[n - 1];
      hide Coalesce, CoalescedFrom, AddKey;
      CoalesceIsExact(shorter);
      OneMoreKey(Coalesce(shorter), shorter, keys[n]);
    } else {
      assert forall s: nat :: !Contains([], s);
    }
  }

  /** For any list of received sequences, in any order and with repeats: the ranges sent are sorted,
      disjoint and not adjacent; after encoding and decoding, a sequence is acknowledged exactly when
      it was pending. Past 65535 ranges only the first 65535 go out. */
  lemma AcknowledgementIsExact(acks: seq<u32>)
    requires forall i :: 0 <= i < |acks| ==> acks[i] < TWO_24
    ensures Separated(AckRanges(acks))
    ensures forall s: nat :: Contains(AckRanges(acks), s) <==> s in acks
    ensures var sent := AckRanges(acks)[..Min(|AckRanges(acks)|, MAX_RECORDS)];
            && DecodeDatagram(DatagramBytes(Ack(AckRanges(acks)))) == Success(Ack(sent))
            && (forall s: nat :: Contains(sent, s) ==> s in acks)
            && (|AckRanges(acks)| <= MAX_RECORDS ==> forall s: nat :: Contains(sent, s) <==> s in acks)
  {
    RangesAreExact(acks);
    var ranges := AckRanges(acks);
    hide AckRanges, Contains, DecodeDatagram, DatagramBytes;
    InsideBounds(acks, ranges);
    AckRoundTrip(ranges);
    var n := Min(|ranges|, MAX_RECORDS);
    forall s: nat | Contains(ranges[..n], s)
      ensures s in acks
    {
      PrefixContains(ranges, n, s);
    }
    if |ranges| <= MAX_RECORDS {
      assert ranges[..n] == ranges;
    }
  }

  lemma RangesAreExact(acks: seq<u32>)
    ensures Separated(AckRanges(acks))
    ensures forall s: nat :: Contains(AckRanges(acks), s) <==> s in acks
  {
    var keys := Sorted(Pending(acks));
    assert forall i :: 0 <= i < |keys| ==> keys[i] in Pending(acks);
    CoalesceIsExact(keys);
    hide Contains, Separated, Coalesce;
    forall s: nat
      ensures Contains(AckRanges(acks), s) <==> s in acks
    {
      assert Contains(AckRanges(acks), s) <==> s in keys;
    }
  }

  lemma PrefixContains(ranges: seq<Range>, n: nat, s: nat)
    requires n <= |ranges| && Contains(ranges[..n], s)
    ensures Contains(ranges, s)
  {
    var i :| 0 <= i < n && ranges[..n][i].Has(s);
    assert ranges[i].Has(s);
  }

  lemma InsideBounds(acks: seq<u32>, ranges: seq<Range>)
    requires forall i :: 0 <= i < |acks| ==> acks[i] < TWO_24
    requires Separated(ranges) && forall s: nat :: Contains(ranges, s) <==> s in acks
    ensures forall r :: r in ranges ==> r.start < TWO_24 && r.end < TWO_24
  {
    forall i | 0 <= i < |ranges|
      ensures ranges[i].start < TWO_24 && ranges[i].end < TWO_24
    {
      assert ranges[i].Has(ranges[i].start) && ranges[i].Has(ranges[i].end);
      assert Contains(ranges, ranges[i].start) && Contains(ranges, ranges[i].end);
    }
  }
}
