/** Two sessions and the network between them, which may lose, repeat and reorder datagrams: it
    remembers everything ever sent and delivers any of it, at any time, any number of times. */
module Network {
  import opened Integers
  import opened Datagrams
  import opened SessionSpec
  import opened SendHistory
  import opened Sender
  import opened Delivery
  import opened Endpoint
  import opened Calls
  import Frames
  import Splits
  import Retransmit

  /** One end as its caller sees it: the payloads its `send` accepted, and those `receive` returned. */
  datatype Side = Side(session: State, sent: seq<bytes>, handed: seq<bytes>)

  /** The two ends, and every datagram each has put on the wire. */
  datatype Net = Net(left: Side, right: Side, toRight: set<bytes>, toLeft: set<bytes>)

  datatype Action =
    | Send(payload: bytes, now: nat)
    | Receive(datagram: bytes, now: nat)
    | Tick(now: nat)
    | Poll
    | Close(now: nat)

  datatype Op = Op(onLeft: bool, action: Action)

  function Start(left: Config, right: Config, now: nat): Net {
    Net(Side(NewState(left, now), [], []), Side(NewState(right, now), [], []), {}, {})
  }

  function Swap(net: Net): Net {
    Net(net.right, net.left, net.toLeft, net.toRight)
  }

  /** The left end makes a call. Only a datagram once sent can be delivered. */
  ghost function Act(net: Net, action: Action): Net {
    var s := net.left.session;
    match action
    case Send(payload, now) =>
      var (tx, result) := SendStep(s.config, s.phase, s.tx, payload, now);
      net.(left := Side(s.(tx := tx), net.left.sent + (if result.Success? then [payload] else []), net.left.handed))
    case Receive(d, now) =>
      if d !in net.toLeft then net else
      var (after, result) := ReceiveStep(s, d, now);
      net.(left := Side(after, net.left.sent, net.left.handed + (if result.Success? then result.value else [])))
    case Tick(now) => net.(left := net.left.(session := TickStep(s, now)))
    case Close(now) => net.(left := net.left.(session := CloseStep(s, now)))
    case Poll =>
      var (after, out) := PollStep(s);
      net.(left := net.left.(session := after), toRight := net.toRight + (if out.Some? then {out.value} else {}))
  }

  ghost function Step(net: Net, op: Op): Net {
    if op.onLeft then Act(net, op.action) else Swap(Act(Swap(net), op.action))
  }

  ghost function Run(start: Net, ops: seq<Op>): Net
    decreases |ops|
  {
    if ops == [] then start else Step(Run(start, ops[..|ops| - 1]), ops[|ops| - 1])
  }

  // The history grows, and what the callers saw is in it.

  ghost predicate Witnessed(end: Side) {
    && AppOnly(end.session.tx.log.accepted) == AppOnly(end.sent)
    && end.session.rx.log.delivered == end.handed
  }

  lemma ReceiveFrameSetGrows(s: State, sequence: u32, frames: seq<Frames.Frame>, now: nat)
    ensures var (after, result) := ReceiveFrameSet(s, sequence, frames, now);
            && Internal(s.tx.log, after.tx.log)
            && after.rx.log.delivered == s.rx.log.delivered + (if result.Success? then result.value else [])
  {
    TakeFramesGrows(Noted(s, sequence), frames, [], now);
    assert s.rx.log.delivered + [] == s.rx.log.delivered;
    hide TakeFrames, Internal;
  }

  lemma ReceiveGrows(s: State, d: bytes, now: nat)
    ensures var (after, result) := ReceiveStep(s, d, now);
            && Internal(s.tx.log, after.tx.log)
            && after.rx.log.delivered == s.rx.log.delivered + (if result.Success? then result.value else [])
  {
    hide DecodeDatagram, ReceiveFrameSet, Retransmit.AckStep, Retransmit.NackStep, Queue, AppOnly;
    assert s.rx.log.delivered + [] == s.rx.log.delivered;
    var decoded := DecodeDatagram(d);
    if decoded.Success? && decoded.value.FrameSet? {
      ReceiveFrameSetGrows(s.(lastHeard := now), decoded.value.sequence, decoded.value.frames, now);
    }
  }

  lemma TickGrows(s: State, now: nat)
    ensures Internal(s.tx.log, TickStep(s, now).tx.log) && TickStep(s, now).rx.log.delivered == s.rx.log.delivered
  {
    var before := Expire(Resend(FlushAcks(s), now), now);
    OnlyTheOutboxMoves(s, now);
    hide FlushAcks, Resend, Expire, AppOnly;
    KeepAliveGrows(before, now);
    hide KeepAlive;
  }

  lemma OnlyTheOutboxMoves(s: State, now: nat)
    ensures var after := Expire(Resend(FlushAcks(s), now), now);
            after.tx.log == s.tx.log && after.rx.log.delivered == s.rx.log.delivered
  {
    hide Retransmit.DueStep, Splits.ExpireStep, AckRanges, DatagramBytes, Queue;
  }

  lemma KeepAliveGrows(s: State, now: nat)
    ensures Internal(s.tx.log, KeepAlive(s, now).tx.log) && KeepAlive(s, now).rx == s.rx
  {
    var pinged := s.(lastPing := now);
    assert !IsApp(Ping(pinged, now));
    hide SendStep, Ping, IsApp, AppOnly;
    InternalSend(s.config, s.phase, s.tx, Ping(pinged, now), now);
  }

  lemma CloseGrows(s: State, now: nat)
    ensures Internal(s.tx.log, CloseStep(s, now).tx.log) && CloseStep(s, now).rx == s.rx
  {
    assert !IsApp([ID_DISCONNECT]);
    hide SendStep, IsApp, AppOnly;
    InternalSend(s.config, s.phase, s.tx, [ID_DISCONNECT], now);
  }

  lemma SendIsWitnessed(end: Side, payload: bytes, now: nat)
    requires Witnessed(end)
    ensures var s := end.session;
            var (tx, result) := SendStep(s.config, s.phase, s.tx, payload, now);
            && Longer(s.tx.log, tx.log)
            && Witnessed(Side(s.(tx := tx), end.sent + (if result.Success? then [payload] else []), end.handed))
  {
    var s := end.session;
    SendGrows(s.config, s.phase, s.tx, payload, now);
    AppOnlyJoins(s.tx.log.accepted, [payload]);
    AppOnlyJoins(end.sent, [payload]);
    assert end.sent + [] == end.sent;
    hide SendStep, AppOnly;
  }

  lemma ActGrows(net: Net, action: Action)
    requires Witnessed(net.left)
    ensures var after := Act(net, action);
            && Longer(net.left.session.tx.log, after.left.session.tx.log) && Witnessed(after.left)
            && after.right == net.right && after.toLeft == net.toLeft && net.toRight <= after.toRight
  {
    var s := net.left.session;
    hide SendStep, ReceiveStep, TickStep, CloseStep, AppOnly;
    match action
    case Send(payload, now) => SendIsWitnessed(net.left, payload, now);
    case Receive(d, now) => ReceiveGrows(s, d, now);
    case Tick(now) => TickGrows(s, now);
    case Close(now) => CloseGrows(s, now);
    case Poll =>
  }

  // The invariant of the pair.

  ghost predicate OnlyEmitted(datagrams: set<bytes>, s: State) {
    forall d :: d in datagrams ==> Emitted(d, s.tx.log, s.rx.log.received)
  }

  ghost predicate SoundEnd(a: State, b: State) {
    Sound(a, b.tx.log, b.rx.log.received)
  }

  ghost predicate Paired(net: Net) {
    && SoundEnd(net.left.session, net.right.session)
    && SoundEnd(net.right.session, net.left.session)
    && OnlyEmitted(net.toRight, net.left.session)
    && OnlyEmitted(net.toLeft, net.right.session)
  }

  lemma EmittedStillHolds(datagrams: set<bytes>, s: State, after: State)
    requires OnlyEmitted(datagrams, s) && Later(s, after)
    ensures OnlyEmitted(datagrams, after)
  {
    hide Extends, Emitted;
    forall d | d in datagrams
      ensures Emitted(d, after.tx.log, after.rx.log.received)
    {
      EmittedStays(d, s.tx.log, after.tx.log, s.rx.log.received, after.rx.log.received);
    }
  }

  lemma SoundHasAGoodLog(s: State, log: SendLog, heard: set<u32>)
    requires Sound(s, log, heard)
    ensures GoodLog(s.tx.log)
  {
  }

  /** The other end stays in step. */
  lemma PeerStays(a: State, after: State, b: State)
    requires SoundEnd(b, a) && GoodLog(a.tx.log) && GoodLog(after.tx.log) && Later(a, after)
    ensures SoundEnd(b, after)
  {
    hide TxInv, RxInv, Extends, GoodLog;
    PeerSends(b.rx, a.tx.log, after.tx.log);
  }

  ghost predicate InBounds(net: Net) {
    Bounded(net.left.session.tx.log) && Bounded(net.right.session.tx.log)
  }

  lemma SessionKeeps(net: Net, action: Action)
    requires Paired(net) && InBounds(Act(net, action)) && Bounded(net.right.session.tx.log)
    ensures var after := Act(net, action);
            var s, peer := net.left.session, net.right.session;
            && Kept(s, after.left.session, peer.tx.log, peer.rx.log.received)
            && OnlyEmitted(after.toRight - net.toRight, s)
  {
    var s, peer := net.left.session, net.right.session;
    hide Sound, Later, SendStep, ReceiveStep, TickStep, CloseStep, PollStep, Emitted;
    KeptItself(s, peer.tx.log, peer.rx.log.received);
    SoundHasAGoodLog(peer, s.tx.log, s.rx.log.received);
    match action
    case Send(payload, now) => SendingKeeps(s, peer.tx.log, payload, now, peer.rx.log.received);
    case Receive(d, now) =>
      if d in net.toLeft {
        ReceiveKeeps(s, peer.tx.log, d, now, peer.rx.log.received);
      }
    case Tick(now) => TickKeeps(s, peer.tx.log, now, peer.rx.log.received);
    case Close(now) => CloseKeeps(s, peer.tx.log, now, peer.rx.log.received);
    case Poll => PollKeeps(s, peer.tx.log, peer.rx.log.received);
  }

  lemma ActKeeps(net: Net, action: Action)
    requires Paired(net) && InBounds(Act(net, action)) && Bounded(net.right.session.tx.log) && Witnessed(net.left)
    ensures Paired(Act(net, action))
  {
    var after := Act(net, action);
    var s, peer, next := net.left.session, net.right.session, after.left.session;
    ActGrows(net, action);
    SessionKeeps(net, action);
    hide Act, Sound, Later, Emitted;
    SoundHasAGoodLog(s, peer.tx.log, peer.rx.log.received);
    SoundHasAGoodLog(next, peer.tx.log, peer.rx.log.received);
    PeerStays(s, next, peer);
    EmittedStillHolds(net.toRight, s, next);
    EmittedStillHolds(after.toRight - net.toRight, s, next);
  }

  lemma StartIsPaired(left: Config, right: Config, now: nat)
    ensures Paired(Start(left, right, now))
  {
    NewIsSound(left, NewState(right, now), now);
    NewIsSound(right, NewState(left, now), now);
    hide Sound;
  }

  lemma NewIsSound(config: Config, peer: State, now: nat)
    requires peer.tx.log == SendLog([], [], [], [], 0, map[], map[])
    ensures Sound(NewState(config, now), peer.tx.log, peer.rx.log.received)
  {
  }

  lemma {:induction false} RunKeeps(left: Config, right: Config, now: nat, ops: seq<Op>)
    ensures var net := Run(Start(left, right, now), ops);
            && Witnessed(net.left) && Witnessed(net.right)
            && (InBounds(net) ==> Paired(net))
    decreases |ops|
  {
    var start := Start(left, right, now);
    if ops == [] {
      StartIsPaired(left, right, now);
    } else {
      var last := |ops| - 1;
      var before := Run(start, ops[..last]);
      RunKeeps(left, right, now, ops[..last]);
      StepKeeps(before, ops[last]);
    }
  }

  lemma StepKeeps(net: Net, op: Op)
    requires Witnessed(net.left) && Witnessed(net.right) && (InBounds(net) ==> Paired(net))
    ensures var after := Step(net, op);
            && Witnessed(after.left) && Witnessed(after.right) && (InBounds(after) ==> Paired(after))
  {
    hide Act, Witnessed, SoundEnd, OnlyEmitted, Bounded;
    var here := if op.onLeft then net else Swap(net);
    ActGrows(here, op.action);
    if InBounds(Act(here, op.action)) {
      ShorterIsBounded(here.left.session.tx.log, Act(here, op.action).left.session.tx.log);
      ActKeeps(here, op.action);
    }
  }

  lemma StepIsBounded(net: Net, op: Op)
    requires Witnessed(net.left) && Witnessed(net.right) && InBounds(Step(net, op))
    ensures InBounds(net)
  {
    hide Act, Witnessed, Bounded;
    var here := if op.onLeft then net else Swap(net);
    ActGrows(here, op.action);
    ShorterIsBounded(here.left.session.tx.log, Act(here, op.action).left.session.tx.log);
  }
}
