/** A run that shows it: a keepalive ping overtakes an application payload, its answer is refused, and
    the application payload is never delivered although a later one is. */
module LostPayload {
  import opened Integers
  import opened Wrappers
  import opened Wire
  import opened Datagrams
  import opened SessionSpec
  import opened Network
  import opened Delivery
  import opened Refusals
  import Frames
  import Splits
  import Order
  import Retransmit
  import Sending
  import Transport

  /** The left end pings at every tick; the right end's outbox holds one datagram. */
  function Settings(maxOutbox: nat): Config {
    Config(1000, Splits.Limits(1000, 10, 10, 10), Retransmit.Limits(1, 1, 10, 10), 10, 10, 0, 1, maxOutbox, [], [])
  }

  const FIRST: bytes := [0x86]
  const SECOND: bytes := [0x87]
  const PING: bytes := [0x00, 0, 0, 0, 0, 0, 0, 0, 0]

  /** Payload i on its way: a frame and a datagram of its own. */
  function FrameFor(i: u32, payload: bytes): Frames.Frame {
    Frames.NewFrame(Frames.ReliableOrdered, payload).(reliableIndex := i, orderIndex := i)
  }

  function Carrying(i: u32, payload: bytes): bytes {
    DatagramBytes(FrameSet(i, [FrameFor(i, payload)]))
  }

  /** The right end queues a payload that is never polled. The left end sends a payload, pings because
      it is time, sends another, and all three datagrams go out; the ping arrives first. */
  function Losing(): seq<Op> {
    [Op(false, Send(FIRST, 0)),
     Op(true, Send(FIRST, 0)), Op(true, Tick(0)), Op(true, Send(SECOND, 0)),
     Op(true, Poll), Op(true, Poll), Op(true, Poll),
     Op(false, Receive(Carrying(1, PING), 0)), Op(false, Receive(Carrying(0, FIRST), 0)), Op(false, Receive(Carrying(2, SECOND), 0))]
  }

  // Sending a payload that fits one datagram.

  ghost predicate Fresh(s: State, n: nat) {
    && s.tx.nextSequence == n && s.tx.nextReliable == n && s.tx.nextOrder == n && n < 10
    && |s.tx.retrans.inFlight| <= n
    && s.tx.retrans.limits == s.config.retransmit && s.tx.retrans.rtt == Retransmit.NewRtt(1, 1)
    && (exists max: nat :: s.config == Settings(max))
    && s.phase == Connecting
    && s.rx.pendingAcks == [] && (s.started, s.lastHeard, s.lastPing) == (0, 0, 0)
  }

  lemma SettingsHaveRoom(max: nat)
    ensures Capacity(Settings(max)) >= 100 && Budget(Settings(max)) >= 100
  {
  }

  lemma SmallSend(s: State, n: nat, payload: bytes, now: nat)
    requires Fresh(s, n) && 0 < |payload| <= 100 && |s.tx.outbox| < s.config.maxOutbox
    ensures var (tx, result) := SendStep(s.config, s.phase, s.tx, payload, now);
            && result == Success(())
            && tx.outbox == s.tx.outbox + [Carrying(n, payload)]
            && tx.retrans.dead == s.tx.retrans.dead
            && (n < 9 ==> Fresh(s.(tx := tx), n + 1))
  {
    var max: nat :| s.config == Settings(max);
    SettingsHaveRoom(max);
    var frame := Frames.NewFrame(Frames.ReliableOrdered, payload);
    var spent := SpendSplitId(s.config, s.tx, payload);
    OneFrameNeedsOne(s.config, frame);
    OneFramePacks(s.config, spent, frame, n, payload, now);
    hide Capacity, Budget, Batches, DatagramsNeeded, FlushAll, Frames.EncodedLen, DatagramBytes;
    assert Splits.SplitStep(s.tx.nextSplitId, payload, Capacity(s.config)).0 == [frame];
  }

  lemma OneFrameNeedsOne(config: Config, frame: Frames.Frame)
    ensures DatagramsNeeded([frame], Budget(config), 0) == 1
  {
    var none: seq<Frames.Frame> := [frame][1..];
    assert none == [];
    hide Frames.EncodedLen;
  }

  lemma OneFramePacks(config: Config, tx: Tx, frame: Frames.Frame, n: u32, payload: bytes, now: nat)
    requires tx.nextSequence == n && tx.nextReliable == n && tx.nextOrder == n && n < 10
    requires frame == Frames.NewFrame(Frames.ReliableOrdered, payload)
    requires |tx.retrans.inFlight| + 1 <= tx.retrans.limits.maxInFlight
    ensures |Batches(config, tx, [frame])| == 1
    ensures var after := FlushAll(tx, Batches(config, tx, [frame]), now);
            && after == tx.(nextSequence := n + 1, retrans := after.retrans, outbox := tx.outbox + [Carrying(n, payload)], log := after.log)
            && after.retrans == tx.retrans.(inFlight := after.retrans.inFlight)
            && |after.retrans.inFlight| <= |tx.retrans.inFlight| + 1
  {
    var numbered := Numbered([frame], tx.nextReliable, tx.nextOrder);
    assert numbered == [FrameFor(n, payload)];
    assert [] + numbered == numbered && numbered[1..] == [];
    assert Pack(numbered, Budget(config), [], 0) == [numbered];
    Sending.FlushingQueues(tx, [numbered], now);
    assert Sending.DatagramsOf(n, [numbered]) == [Carrying(n, payload)];
    hide Pack, FlushAll, DatagramBytes, Frames.EncodedLen;
  }

  // A tick with nothing to do but ping.

  lemma NothingIsDue(r: Retransmit.RetransState)
    requires r.rtt == Retransmit.NewRtt(1, 1) && r.limits.maxRto == 1
    ensures var (after, out) := Retransmit.DueStep(r, 0);
            out == [] && after == r.(dead := after.dead)
  {
    forall k | k in r.inFlight
      ensures !Retransmit.IsDue(r.inFlight[k], Retransmit.TimeoutOf(r.rtt), r.limits.maxRto, 0)
    {
      WaitsAtLeastOne(r.inFlight[k].retries);
    }
    assert Retransmit.DueKeys(r, 0) == {};
    assert Retransmit.ResendKeys(r.inFlight, {}, 0) == r.inFlight;
  }

  lemma WaitsAtLeastOne(retries: nat)
    ensures Retransmit.Backoff(1, retries, 1) == 1
  {
    assert Retransmit.Multiplier(retries) >= 1;
  }

  lemma PingBytes(s: State)
    requires s.started == 0
    ensures Ping(s, 0) == PING
  {
    assert U64Bytes(0) == [0, 0, 0, 0, 0, 0, 0, 0];
  }

  lemma OnlyThePingIsLeft(s: State, n: nat)
    requires Fresh(s, n) && |s.tx.outbox| < s.config.maxOutbox
    ensures var rest := Expire(Resend(FlushAcks(s), 0), 0);
            && Fresh(rest, n) && rest.config == s.config && rest.tx.outbox == s.tx.outbox
  {
    NothingIsDue(s.tx.retrans);
    hide Retransmit.DueStep, Splits.ExpireStep;
    var resent := Resend(s, 0);
    assert s.tx.outbox + [] == s.tx.outbox;
    assert resent == s.(tx := s.tx.(retrans := s.tx.retrans.(dead := resent.tx.retrans.dead)));
    hide Queue;
    var rest := Expire(resent, 0);
    assert rest == resent.(rx := rest.rx) && rest.rx.pendingAcks == [];
  }

  lemma TickPings(s: State, n: nat)
    requires Fresh(s, n) && n < 9 && !s.tx.retrans.dead && |s.tx.outbox| < s.config.maxOutbox
    ensures var after := TickStep(s, 0);
            && after.tx.outbox == s.tx.outbox + [Carrying(n, PING)]
            && Fresh(after, n + 1)
  {
    hide FlushAcks, Resend, Expire, Carrying;
    OnlyThePingIsLeft(s, n);
    var rest := Expire(Resend(FlushAcks(s), 0), 0);
    PingBytes(rest);
    SmallSend(rest, n, PING, 0);
    hide SendStep;
  }

  // Receiving one of the datagrams.

  lemma CarriedDecodes(i: u32, payload: bytes)
    requires i < 10 && 0 < |payload| <= 100
    ensures DecodeDatagram(Carrying(i, payload)) == Success(FrameSet(i, [FrameFor(i, payload)]))
  {
    assert FrameFor(i, payload).Encodable();
    FrameSetRoundTrip(i, [FrameFor(i, payload)]);
  }

  ghost predicate Waiting(s: State, seen: set<u32>, ordering: Order.OrderState) {
    && s.config == Settings(1) && s.phase == Connecting && s.lastHeard == 0
    && s.tx.retrans.limits == s.config.retransmit && |s.tx.outbox| == 1
    && s.rx.dedup == Order.DedupState(seen, 0, 10) && (forall i :: i in seen ==> i < 10)
    && s.rx.ordering == ordering
  }

  lemma TakesOne(rx: Rx, i: u32, payload: bytes, seen: set<u32>, after: Order.OrderState, ready: seq<bytes>)
    requires rx.dedup == Order.DedupState(seen, 0, 10) && i !in seen && i < 10 && forall j :: j in seen ==> j < 10
    requires Order.PushStep(rx.ordering, i, payload) == (after, Success(ready))
    ensures var (end, outcome) := TakeFrame(rx, FrameFor(i, payload), 0);
            && outcome == Released(ready)
            && end.dedup == Order.DedupState(seen + {i}, 0, 10) && end.ordering == after
  {
    assert Order.AcceptStep(rx.dedup, i) == (Order.DedupState(seen + {i}, 0, 10), true);
    hide Order.AcceptStep, Order.PushStep;
  }

  /** A datagram of one frame: what it releases is handled. */
  lemma OneFrameCall(s: State, f: Frames.Frame, rx: Rx, ready: seq<bytes>)
    requires TakeFrame(s.rx, f, 0) == (rx, Released(ready))
    ensures var (handled, answer) := HandleAll(s, ready, [], 0);
            var (end, result) := TakeFrames(s, [f], [], 0);
            && result == answer && end == handled.(rx := end.rx)
            && end.rx.dedup == rx.dedup && end.rx.ordering == rx.ordering
  {
    TakeFramesUnfolds(s, [f], [], 0);
    HandleAllIgnoresRx(s, rx, ready, [], 0);
    HandleAllGrows(s.(rx := rx), ready, [], 0);
    var (next, handled) := HandleAll(s.(rx := rx), ready, [], 0);
    assert [f][1..] == [];
    assert handled.Success? ==> TakeFrames(next, [], handled.value, 0) == (next, handled);
    hide HandleAll, TakeFrame, TakeFrames, AppOnly;
  }

  /** The datagram of payload i, arriving for the first time. */
  lemma ReceivesOne(s: State, i: u32, payload: bytes, seen: set<u32>, after: Order.OrderState, ready: seq<bytes>)
    requires Waiting(s, seen, s.rx.ordering) && i !in seen && i < 10 && 0 < |payload| <= 100
    requires Order.PushStep(s.rx.ordering, i, payload) == (after, Success(ready))
    ensures var (end, result) := ReceiveStep(s, Carrying(i, payload), 0);
            var (handled, answer) := HandleAll(s, ready, [], 0);
            && result == answer && end == handled.(rx := end.rx)
            && end.rx.dedup == Order.DedupState(seen + {i}, 0, 10) && end.rx.ordering == after
  {
    CarriedDecodes(i, payload);
    var noted, f := Noted(s, i), FrameFor(i, payload);
    TakesOne(noted.rx, i, payload, seen, after, ready);
    OneFrameCall(noted, f, TakeFrame(noted.rx, f, 0).0, ready);
    HandleAllIgnoresRx(s, noted.rx, ready, [], 0);
    assert s.(lastHeard := 0) == s;
    hide DecodeDatagram, DatagramBytes, TakeFrame, TakeFrames, HandleAll, Order.PushStep;
  }

  // What is released each time.

  lemma ThePingWaits()
    ensures Order.PushStep(Order.NewOrder(10), 1, PING) == (Order.OrderState(0, map[1 := PING], 10), Success([]))
  {
  }

  lemma DrainsOn(o: Order.OrderState, next: Order.OrderState, end: Order.OrderState, ready: seq<bytes>)
    requires o.expected in o.buffered && Order.Advance(o) == next && Order.Drain(next) == (end, ready)
    ensures Order.Drain(o) == (end, [o.buffered[o.expected]] + ready)
  {
  }

  lemma ThePayloadLetsItOut()
    ensures Order.PushStep(Order.OrderState(0, map[1 := PING], 10), 0, FIRST)
         == (Order.OrderState(2, map[], 10), Success([FIRST, PING]))
  {
    var both := Order.OrderState(0, map[1 := PING][0 := FIRST], 10);
    var one := Order.OrderState(1, map[1 := PING], 10);
    assert Order.Advance(both) == one by {
      assert both.buffered - {0} == one.buffered;
    }
    var none := Order.OrderState(2, map[], 10);
    assert Order.Advance(one) == none by {
      assert one.buffered - {1} == none.buffered;
    }
    assert Order.Drain(none) == (none, []);
    var last: seq<bytes> := [PING];
    assert last + [] == last && [FIRST] + last == [FIRST, PING];
    DrainsOn(one, none, none, []);
    DrainsOn(both, one, none, last);
  }

  lemma TheNextComesOut()
    ensures Order.PushStep(Order.OrderState(2, map[], 10), 2, SECOND) == (Order.OrderState(3, map[], 10), Success([SECOND]))
  {
    var one, none := Order.OrderState(2, map[2 := SECOND], 10), Order.OrderState(3, map[], 10);
    assert Order.Advance(one) == none by {
      assert one.buffered - {2} == none.buffered;
    }
    assert Order.Drain(none) == (none, []);
    var last: seq<bytes> := [SECOND];
    assert last + [] == last;
    DrainsOn(one, none, none, []);
  }

  lemma HandlesNothing(s: State)
    ensures HandleAll(s, [], [], 0) == (s, Success([]))
  {
  }

  lemma HandlesOneApp(s: State)
    ensures HandleAll(s, [SECOND], [], 0) == (s, Success([SECOND]))
  {
    assert Handle(s, SECOND, 0) == (s, Success(Some(SECOND)));
    var none: seq<bytes> := [SECOND][1..];
    assert none == [];
    assert [] + [SECOND] == [SECOND];
    hide Handle;
    assert HandleAll(s, none, [SECOND], 0) == (s, Success([SECOND]));
  }

  /** The application payload and the ping released together, with no room for the answer: the call
      fails, and the session is otherwise as it was. */
  lemma TheAnswerIsRefused(s: State, seen: set<u32>, ordering: Order.OrderState)
    requires Waiting(s, seen, ordering)
    ensures var (after, result) := HandleAll(s, [FIRST, PING], [], 0);
            && result.Failure?
            && after == s.(tx := after.tx) && after.tx.outbox == s.tx.outbox && after.tx.retrans == s.tx.retrans
  {
    SettingsHaveRoom(1);
    assert Handle(s, FIRST, 0) == (s, Success(Some(FIRST)));
    assert Asks(PING);
    var one: seq<bytes> := [FIRST, PING][1..];
    assert one == [PING];
    Transport.SomeDatagramNeeded(s.config, s.tx.nextSplitId, ReplyTo(s, PING, 0).value);
    Transport.ReplyIsRefusedWhenFull(s, PING, 0);
    HandleMoves(s, PING, 0);
    Sending.SendIsAllOrNothing(s.config, s.phase, s.tx, ReplyTo(s, PING, 0).value, 0);
    var (after, refused) := Handle(s, PING, 0);
    assert refused.Failure? && after == s.(tx := after.tx) && after.tx.outbox == s.tx.outbox && after.tx.retrans == s.tx.retrans by {
      hide ReplyTo, SendStep, DatagramsNeeded, Splits.SplitStep, Capacity;
    }
    hide Handle;
    assert HandleAll(s, one, [FIRST], 0) == (after, Failure(refused.error));
  }

  // The run.

  ghost function At(n: nat): Net
    requires n <= |Losing()|
  {
    Run(Start(Settings(10), Settings(1), 0), Losing()[..n])
  }

  lemma TheCalls()
    ensures |Losing()| == 10
    ensures Losing()[0] == Op(false, Send(FIRST, 0))
    ensures Losing()[1] == Op(true, Send(FIRST, 0)) && Losing()[2] == Op(true, Tick(0)) && Losing()[3] == Op(true, Send(SECOND, 0))
    ensures Losing()[4] == Op(true, Poll) && Losing()[5] == Op(true, Poll) && Losing()[6] == Op(true, Poll)
    ensures Losing()[7] == Op(false, Receive(Carrying(1, PING), 0)) && Losing()[8] == Op(false, Receive(Carrying(0, FIRST), 0))
    ensures Losing()[9] == Op(false, Receive(Carrying(2, SECOND), 0))
  {
    hide Carrying;
  }

  lemma NextCall(n: nat)
    requires n < |Losing()|
    ensures At(n + 1) == Step(At(n), Losing()[n])
  {
    var ops := Losing()[..n + 1];
    assert ops[..n] == Losing()[..n] && ops[n] == Losing()[n];
    hide Step, Losing, Start;
  }

  lemma OneSent(n: nat, onLeft: bool, payload: bytes)
    requires n < |Losing()| && Losing()[n] == Op(onLeft, Send(payload, 0))
    ensures var before, net := At(n), At(n + 1);
            var side := if onLeft then before.left else before.right;
            var (tx, result) := SendStep(side.session.config, side.session.phase, side.session.tx, payload, 0);
            var after := Side(side.session.(tx := tx), side.sent + (if result.Success? then [payload] else []), side.handed);
            && net == (if onLeft then before.(left := after) else before.(right := after))
  {
    NextCall(n);
    hide At, Losing, SendStep;
  }

  lemma OneTick(n: nat)
    requires n < |Losing()| && Losing()[n] == Op(true, Tick(0))
    ensures At(n + 1) == At(n).(left := At(n).left.(session := TickStep(At(n).left.session, 0)))
  {
    NextCall(n);
    hide At, Losing, TickStep;
  }

  /** The left end after n payloads sent and none polled. */
  ghost predicate LeftSent(side: Side, n: nat, sent: seq<bytes>, outbox: seq<bytes>) {
    && side.session.config == Settings(10) && Fresh(side.session, n)
    && side.session.tx.outbox == outbox && side.sent == sent && |outbox| <= 3
  }

  ghost predicate RightStarts(side: Side) {
    Waiting(side.session, {}, Order.NewOrder(10)) && side.handed == []
  }

  lemma BothStartFresh()
    ensures At(0) == Start(Settings(10), Settings(1), 0)
    ensures Fresh(NewState(Settings(10), 0), 0) && Fresh(NewState(Settings(1), 0), 0)
  {
    hide Losing;
    assert Losing()[..0] == [];
  }

  lemma FirstCalls()
    ensures var net := At(2);
            && LeftSent(net.left, 1, [FIRST], [Carrying(0, FIRST)]) && !net.left.session.tx.retrans.dead
            && RightStarts(net.right) && net.toRight == {} && net.toLeft == {}
  {
    hide SendStep, Carrying, Losing;
    TheCalls();
    var left, right := NewState(Settings(10), 0), NewState(Settings(1), 0);
    BothStartFresh();
    OneSent(0, false, FIRST);
    OneSent(1, true, FIRST);
    hide At;
    SmallSend(right, 0, FIRST, 0);
    SmallSend(left, 0, FIRST, 0);
    hide Settings, Fresh;
    var none: seq<bytes> := [];
    assert none + [Carrying(0, FIRST)] == [Carrying(0, FIRST)] && none + [FIRST] == [FIRST];
  }

  lemma PingSent()
    ensures var net := At(3);
            && LeftSent(net.left, 2, [FIRST], [Carrying(0, FIRST), Carrying(1, PING)])
            && RightStarts(net.right) && net.toRight == {} && net.toLeft == {}
  {
    hide At, TickStep, Carrying, Waiting, Fresh, Losing;
    TheCalls();
    FirstCalls();
    OneTick(2);
    var s := At(2).left.session;
    TickPings(s, 1);
    TickKeepsSettings(s);
    assert [Carrying(0, FIRST)] + [Carrying(1, PING)] == [Carrying(0, FIRST), Carrying(1, PING)];
  }

  lemma TickKeepsSettings(s: State)
    ensures TickStep(s, 0).config == s.config
  {
    hide Retransmit.DueStep, Splits.ExpireStep, AckRanges, DatagramBytes, Queue, SendStep;
  }

  lemma AllSent()
    ensures var net := At(4);
            && LeftSent(net.left, 3, [FIRST, SECOND], [Carrying(0, FIRST), Carrying(1, PING), Carrying(2, SECOND)])
            && RightStarts(net.right) && net.toRight == {} && net.toLeft == {}
  {
    hide At, SendStep, Carrying, Waiting, Fresh, Losing;
    TheCalls();
    PingSent();
    OneSent(3, true, SECOND);
    SmallSend(At(3).left.session, 2, SECOND, 0);
    assert [Carrying(0, FIRST), Carrying(1, PING)] + [Carrying(2, SECOND)] == [Carrying(0, FIRST), Carrying(1, PING), Carrying(2, SECOND)];
    assert [FIRST] + [SECOND] == [FIRST, SECOND];
  }

  /** One datagram more on the wire. */
  lemma OnePolled(n: nat, first: bytes, rest: seq<bytes>)
    requires n < |Losing()| && Losing()[n] == Op(true, Poll) && At(n).left.session.tx.outbox == [first] + rest
    ensures var before, net := At(n), At(n + 1);
            && net.left.session.tx.outbox == rest && net.left.sent == before.left.sent
            && net.right == before.right && net.toRight == before.toRight + {first}
  {
    NextCall(n);
    assert ([first] + rest)[1..] == rest;
    hide At, Losing;
  }

  lemma AllOnTheWire()
    ensures var net := At(7);
            && net.left.sent == [FIRST, SECOND] && RightStarts(net.right)
            && Carrying(0, FIRST) in net.toRight && Carrying(1, PING) in net.toRight && Carrying(2, SECOND) in net.toRight
  {
    hide At, Losing, Carrying, RightStarts, Fresh, Waiting;
    TheCalls();
    AllSent();
    var none: seq<bytes> := [];
    var d0, d1, d2 := Carrying(0, FIRST), Carrying(1, PING), Carrying(2, SECOND);
    assert At(4).left.session.tx.outbox == [d0] + [d1, d2];
    assert [d1, d2] == [d1] + [d2] && [d2] == [d2] + none;
    hide LeftSent;
    OnePolled(4, d0, [d1, d2]);
    OnePolled(5, d1, [d2]);
    OnePolled(6, d2, none);
  }

  /** A datagram received by the right end. */
  lemma OneReceived(n: nat, d: bytes)
    requires n < |Losing()| && Losing()[n] == Op(false, Receive(d, 0)) && d in At(n).toRight
    ensures var before, net := At(n), At(n + 1);
            var (after, result) := ReceiveStep(before.right.session, d, 0);
            && net.right.session == after
            && net.right.handed == before.right.handed + (if result.Success? then result.value else [])
            && net.left == before.left && net.toRight == before.toRight
  {
    NextCall(n);
    hide At, Losing, ReceiveStep;
  }

  /** What the caller sent was only application payloads; the first of them is never delivered, and the
      second is: what is handed over is no prefix of what was sent. */
  lemma DeliveredIsNotAPrefix()
    ensures var net := At(10);
            && At(10) == Run(Start(Settings(10), Settings(1), 0), Losing())
            && net.left.sent == [FIRST, SECOND] && IsApp(FIRST) && IsApp(SECOND)
            && net.right.handed == [SECOND]
            && !(net.right.handed <= net.left.sent)
  {
    hide Run, ReceiveStep, HandleAll, Order.PushStep, Carrying, Losing, Start;
    TheCalls();
    AllOnTheWire();
    ThePingWaits();
    ThePayloadLetsItOut();
    TheNextComesOut();
    assert Losing()[..10] == Losing();
    hide At;

    OneReceived(7, Carrying(1, PING));
    var s7, s8 := At(7).right.session, At(8).right.session;
    ReceivesOne(s7, 1, PING, {}, Order.OrderState(0, map[1 := PING], 10), []);
    HandlesNothing(s7);
    var none: seq<bytes> := [];
    assert none + none == none;

    OneReceived(8, Carrying(0, FIRST));
    var s9 := At(9).right.session;
    ReceivesOne(s8, 0, FIRST, {} + {1}, Order.OrderState(2, map[], 10), [FIRST, PING]);
    TheAnswerIsRefused(s8, {} + {1}, Order.OrderState(0, map[1 := PING], 10));

    OneReceived(9, Carrying(2, SECOND));
    ReceivesOne(s9, 2, SECOND, {} + {1} + {0}, Order.OrderState(3, map[], 10), [SECOND]);
    HandlesOneApp(s9);
    assert none + [SECOND] == [SECOND];
    assert [SECOND][0][0] != [FIRST, SECOND][0][0];
  }
}
