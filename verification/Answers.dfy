/** What a session answers to the connection's own packets, and what it says when it closes, byte by
    byte. */
module Answers {
  import opened Integers
  import opened Wrappers
  import opened Wire
  import opened SessionSpec
  import Delivery
  import Sending
  import Splits

  // Eight bytes of time.

  lemma TwoBytes(b: bytes)
    requires |b| == 2
    ensures U16Bytes(BigEndian2(b[0], b[1])) == b
  {
  }

  lemma FourBytes(b: bytes)
    requires |b| == 4
    ensures U32Bytes(BigEndian4(b)) == b
  {
    TwoBytes(b[..2]);
    TwoBytes(b[2..]);
    var high, low := BigEndian2(b[0], b[1]), BigEndian2(b[2], b[3]);
    assert BigEndian4(b) / 0x1_0000 == high && BigEndian4(b) % 0x1_0000 == low;
    assert b[..2] + b[2..] == b;
  }

  /** Reading eight bytes and writing them back gives the same bytes. */
  lemma EightBytes(b: bytes)
    requires |b| == 8
    ensures U64Bytes(BigEndian8(b)) == b
  {
    FourBytes(b[..4]);
    FourBytes(b[4..]);
    assert BigEndian8(b) / 0x1_0000_0000 == BigEndian4(b[..4]) && BigEndian8(b) % 0x1_0000_0000 == BigEndian4(b[4..]);
    assert b[..4] + b[4..] == b;
    hide BigEndian4, U32Bytes;
  }

  lemma ZeroTime()
    ensures U64Bytes(0) == [0, 0, 0, 0, 0, 0, 0, 0]
  {
  }

  /** The eight bytes at `at`, or zeros when the packet is cut short. */
  ghost function TimeAt(payload: bytes, at: nat): bytes {
    if |payload| < at + 8 then [0, 0, 0, 0, 0, 0, 0, 0] else payload[at..at + 8]
  }

  lemma TimeIsEchoed(payload: bytes, at: nat)
    ensures U64Bytes(EchoedTime(payload, at)) == TimeAt(payload, at)
  {
    hide U64Bytes, BigEndian8;
    if |payload| < at + 8 {
      ZeroTime();
    } else {
      EightBytes(payload[at..at + 8]);
    }
  }

  // What is answered.

  /** A ping is answered with a pong that carries the time in the ping, byte for byte, and then the
      session's own. */
  lemma PongEchoesThePing(s: State, payload: bytes, now: nat)
    requires payload != [] && payload[0] == 0x00
    ensures ReplyTo(s, payload, now) == Some([0x03] + TimeAt(payload, 1) + U64Bytes(NowMillis(s, now)))
  {
    TimeIsEchoed(payload, 1);
    hide U64Bytes, NowMillis, EchoedTime;
  }

  ghost function TwentyTimes(b: bytes): bytes {
    var five := b + b + b + b + b;
    five + five + five + five
  }

  lemma RepeatsTwenty(b: bytes)
    ensures Repeat(b, 20) == TwentyTimes(b)
  {
    var five := b + b + b + b + b;
    RepeatJoins(b, 5, 5);
    RepeatJoins(b, 10, 5);
    RepeatJoins(b, 15, 5);
    assert Repeat(b, 5) == five by {
      assert Repeat(b, 0) == [];
      assert Repeat(b, 1) == b;
      RepeatJoins(b, 1, 1);
      RepeatJoins(b, 2, 1);
      RepeatJoins(b, 3, 1);
      RepeatJoins(b, 4, 1);
    }
    hide Repeat;
  }

  lemma {:induction false} RepeatJoins(b: bytes, m: nat, n: nat)
    ensures Repeat(b, m + n) == Repeat(b, m) + Repeat(b, n)
    decreases m
  {
    if m == 0 {
      assert [] + Repeat(b, n) == Repeat(b, n);
    } else {
      RepeatJoins(b, m - 1, n);
      Assoc(b, Repeat(b, m - 1), Repeat(b, n));
    }
  }

  /** A connection request is accepted with the peer's address, twenty of this end's, the time in the
      request, byte for byte, and the session's own. */
  lemma AcceptedEchoesTheRequest(s: State, payload: bytes, now: nat)
    requires payload != [] && payload[0] == 0x09
    ensures ReplyTo(s, payload, now)
         == Some([0x10] + s.config.peerAddress + [0, 0] + TwentyTimes(s.config.localAddress)
                 + TimeAt(payload, 9) + U64Bytes(NowMillis(s, now)))
  {
    TimeIsEchoed(payload, 9);
    RepeatsTwenty(s.config.localAddress);
    hide U64Bytes, NowMillis, EchoedTime, Repeat;
  }

  /** Nothing else is answered. */
  lemma NothingElseIsAnswered(s: State, payload: bytes, now: nat)
    ensures ReplyTo(s, payload, now).None? <==> payload == [] || (payload[0] != 0x00 && payload[0] != 0x09)
  {
    hide RequestAccepted, Pong;
  }

  /** There is room for every datagram the payload needs. */
  ghost predicate HasRoom(s: State, payload: bytes) {
    var needed := DatagramsNeeded(Splits.SplitStep(s.tx.nextSplitId, payload, Capacity(s.config)).0, Budget(s.config), 0);
    && |s.tx.outbox| + needed <= s.config.maxOutbox
    && |s.tx.retrans.inFlight| + needed <= s.config.retransmit.maxInFlight
  }

  /** Handling a packet that is answered sends the answer, or fails and queues nothing. */
  lemma AnswerIsSent(s: State, payload: bytes, now: nat)
    requires s.tx.retrans.limits == s.config.retransmit && ReplyTo(s, payload, now).Some?
    ensures var (after, result) := Handle(s, payload, now);
            var reply := ReplyTo(s, payload, now).value;
            && after.phase == s.phase
            && (result.Success? <==> !IsClosed(s) && HasRoom(s, reply))
            && (result.Success? ==> result == Success(None) && after.tx.log.accepted == s.tx.log.accepted + [reply])
            && (result.Failure? ==> after.tx.log.accepted == s.tx.log.accepted && after.tx.outbox == s.tx.outbox)
  {
    hide ReplyTo, SendStep, DatagramsNeeded, Splits.SplitStep, Capacity, Budget, Sending.Queued, Sending.NumbersMove;
    var reply := ReplyTo(s, payload, now).value;
    Sending.SendAnswers(s.config, s.phase, s.tx, reply, now);
    Delivery.SendGrows(s.config, s.phase, s.tx, reply, now);
  }

  /** Closing says goodbye, if there is room, and closes in any case; once closed it does nothing. */
  lemma CloseSaysGoodbye(s: State, now: nat)
    requires s.tx.retrans.limits == s.config.retransmit
    ensures var after := CloseStep(s, now);
            && (IsClosed(s) ==> after == s)
            && (!IsClosed(s) ==>
                  && after == s.(tx := after.tx, phase := Finished(ByUs))
                  && after.tx.log.accepted == s.tx.log.accepted + (if HasRoom(s, [0x15]) then [[0x15]] else [])
                  && (!HasRoom(s, [0x15]) ==> after.tx.outbox == s.tx.outbox))
  {
    hide SendStep, DatagramsNeeded, Splits.SplitStep, Capacity, Budget;
    Sending.SendAnswers(s.config, s.phase, s.tx, [0x15], now);
    Delivery.SendGrows(s.config, s.phase, s.tx, [0x15], now);
    assert s.tx.log.accepted + [] == s.tx.log.accepted;
  }
}
