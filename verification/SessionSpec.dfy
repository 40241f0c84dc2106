/** One peer's connection as a state and its steps: datagrams and the time go in, datagrams and
    delivered payloads come out. `log` fields are history: they record what happened and no step
    depends on them. */
module SessionSpec {
  import opened Integers
  import opened Wrappers
  import opened Wire
  import opened Datagrams
  import opened KeyOrder
  import Frames
  import Splits
  import Order
  import Retransmit

  const USER_PACKET_START: nat := 0x86
  const ID_CONNECTED_PING: nat := 0x00
  const ID_CONNECTED_PONG: nat := 0x03
  const ID_CONNECTION_REQUEST: nat := 0x09
  const ID_CONNECTION_REQUEST_ACCEPTED: nat := 0x10
  const ID_NEW_INCOMING_CONNECTION: nat := 0x13
  const ID_DISCONNECT: nat := 0x15
  const SYSTEM_ADDRESS_COUNT: nat := 20
  const NANOS_PER_MILLI: nat := 1_000_000
  const MAX_I64: nat := 0x7fff_ffff_ffff_ffff

  datatype Closed = ByPeer | Timeout | Unreachable | ByUs

  datatype Phase = Connecting | Connected | Finished(why: Closed)

  /** The addresses are the bytes they are written as. */
  datatype Config = Config(
    payloadLimit: nat,
    split: Splits.Limits,
    retransmit: Retransmit.Limits,
    orderWindow: u32,
    dedupWindow: u32,
    keepalive: nat,
    timeout: nat,
    maxOutbox: nat,
    peerAddress: bytes,
    localAddress: bytes)

  datatype SessionError =
    | BadDatagram(e: DatagramError)
    | BadFragment(s: Splits.SplitError)
    | OutOfOrder(o: Order.OutOfWindow)
    | WindowFull
    | OutboxFull
    | SessionClosed

  /** What this end has sent: payloads by order index, frames by reliable index and by the sequence of
      the datagram that carries them, and the fragments of each split payload by split id. */
  datatype SendLog = SendLog(
    accepted: seq<bytes>,
    starts: seq<nat>,
    frames: seq<Frames.Frame>,
    batches: seq<seq<Frames.Frame>>,
    splits: nat,
    catalog: map<u16, seq<bytes>>,
    owner: map<u16, nat>)

  /** What this end has received: sequences, reliable indices taken, fragments stored, order indices completed,
      payloads released in order and payloads handed to the caller; how many released application
      payloads were dropped because a reply was refused; and whether a call ever failed on a frame,
      expired a reassembly, or met an index for the first time below the deduplication floor. */
  datatype RecvLog = RecvLog(
    received: set<u32>,
    taken: set<nat>,
    fragments: set<(int, int)>,
    pushed: set<nat>,
    released: seq<bytes>,
    delivered: seq<bytes>,
    lost: nat,
    failed: bool,
    expired: bool,
    late: bool)

  datatype Tx = Tx(
    nextSequence: u32,
    nextReliable: u32,
    nextOrder: u32,
    nextSplitId: u16,
    retrans: Retransmit.RetransState,
    outbox: seq<bytes>,
    log: SendLog)

  datatype Rx = Rx(
    reasm: Splits.ReasmState,
    ordering: Order.OrderState,
    dedup: Order.DedupState,
    pendingAcks: seq<u32>,
    log: RecvLog)

  datatype State = State(
    config: Config,
    phase: Phase,
    tx: Tx,
    rx: Rx,
    started: nat,
    lastHeard: nat,
    lastPing: nat)

  function NewState(config: Config, now: nat): State {
    State(config, Connecting,
          Tx(0, 0, 0, 0, Retransmit.NewRetrans(config.retransmit), [], SendLog([], [], [], [], 0, map[], map[])),
          Rx(Splits.NewReasm(config.split), Order.NewOrder(config.orderWindow), Order.NewDedup(config.dedupWindow), [],
             RecvLog({}, {}, {}, {}, [], [], 0, false, false, false)),
          now, now, now)
  }

  predicate IsClosed(s: State) {
    s.phase.Finished?
  }

  // Sending.

  function Capacity(config: Config): nat {
    Splits.FragmentCapacity(config.payloadLimit)
  }

  function Budget(config: Config): nat {
    Monus(config.payloadLimit, DATAGRAM_HEADER_LEN)
  }

  /** Datagrams `frames` will occupy, as the reservation counts them. */
  function DatagramsNeeded(frames: seq<Frames.Frame>, budget: nat, used: nat): nat
    decreases |frames|
  {
    if frames == [] then 0 else
    var size := Frames.EncodedLen(frames[0]);
    if used == 0 || used + size > budget
    then 1 + DatagramsNeeded(frames[1..], budget, size)
    else DatagramsNeeded(frames[1..], budget, used + size)
  }

  /** The batches the packing loop flushes, `batch` being the one under way. */
  function Pack(frames: seq<Frames.Frame>, budget: nat, batch: seq<Frames.Frame>, used: nat): seq<seq<Frames.Frame>>
    decreases |frames|
  {
    if frames == [] then (if batch == [] then [] else [batch]) else
    var size := Frames.EncodedLen(frames[0]);
    if batch != [] && used + size > budget
    then [batch] + Pack(frames[1..], budget, [frames[0]], size)
    else Pack(frames[1..], budget, batch + [frames[0]], used + size)
  }

  function Numbered(frames: seq<Frames.Frame>, reliable: nat, order: u32): seq<Frames.Frame> {
    seq(|frames|, i requires 0 <= i < |frames| =>
      frames[i].(reliableIndex := (reliable + i) % TWO_32, orderIndex := order))
  }

  function FlushStep(tx: Tx, batch: seq<Frames.Frame>, now: nat): (after: Tx)
    requires |tx.retrans.inFlight| < tx.retrans.limits.maxInFlight
    ensures after.retrans.limits == tx.retrans.limits
    ensures |after.retrans.inFlight| <= |tx.retrans.inFlight| + 1
  {
    var datagram := DatagramBytes(FrameSet(tx.nextSequence, batch));
    var retrans := Retransmit.TrackStep(tx.retrans, tx.nextSequence, datagram, now).value;
    assert retrans.inFlight.Keys == tx.retrans.inFlight.Keys + {tx.nextSequence};
    tx.(nextSequence := (tx.nextSequence + 1) % TWO_32,
    retrans := retrans,
    outbox := tx.outbox + [datagram],
    log := tx.log.(batches := tx.log.batches + [batch]))
  }

  function FlushAll(tx: Tx, batches: seq<seq<Frames.Frame>>, now: nat): Tx
    requires |tx.retrans.inFlight| + |batches| <= tx.retrans.limits.maxInFlight
    decreases |batches|
  {
    if batches == [] then tx else FlushAll(FlushStep(tx, batches[0], now), batches[1..], now)
  }

  /** The payload joins the history under the next order index. */
  function Logged(log: SendLog, payload: bytes, frames: seq<Frames.Frame>, splitId: Option<u16>, capacity: nat): SendLog
    requires splitId.Some? ==> capacity > 0
  {
    var k := |log.accepted|;
    log.(accepted := log.accepted + [payload],
    starts := log.starts + [|log.frames|],
    frames := log.frames + frames,
    catalog := if splitId.Some? then log.catalog[splitId.value := Splits.Chunks(payload, capacity)] else log.catalog,
    owner := if splitId.Some? then log.owner[splitId.value := k] else log.owner)
  }

  predicate IsSplit(payload: bytes, capacity: nat) {
    capacity > 0 && |payload| > capacity
  }

  predicate Refused(config: Config, tx: Tx, frames: seq<Frames.Frame>) {
    var needed := DatagramsNeeded(frames, Budget(config), 0);
    |tx.outbox| + needed > config.maxOutbox || |tx.retrans.inFlight| + needed > tx.retrans.limits.maxInFlight
  }

  lemma {:induction false} PackSize(frames: seq<Frames.Frame>, budget: nat, batch: seq<Frames.Frame>, used: nat)
    requires used == 0 <==> batch == []
    ensures |Pack(frames, budget, batch, used)| == DatagramsNeeded(frames, budget, used) + (if batch == [] then 0 else 1)
    decreases |frames|
  {
    if frames != [] {
      var size := Frames.EncodedLen(frames[0]);
      if batch != [] && used + size > budget {
        PackSize(frames[1..], budget, [frames[0]], size);
      } else {
        PackSize(frames[1..], budget, batch + [frames[0]], used + size);
      }
    }
  }

  lemma {:induction false} NumberingKeepsSizes(a: seq<Frames.Frame>, b: seq<Frames.Frame>, budget: nat, used: nat)
    requires |a| == |b| && forall i :: 0 <= i < |a| ==> Frames.EncodedLen(a[i]) == Frames.EncodedLen(b[i])
    ensures DatagramsNeeded(a, budget, used) == DatagramsNeeded(b, budget, used)
    decreases |a|
  {
    if a != [] {
      var size := Frames.EncodedLen(a[0]);
      NumberingKeepsSizes(a[1..], b[1..], budget, if used == 0 || used + size > budget then size else used + size);
    }
  }

  function Batches(config: Config, tx: Tx, frames: seq<Frames.Frame>): (batches: seq<seq<Frames.Frame>>)
    ensures |batches| == DatagramsNeeded(frames, Budget(config), 0)
  {
    var numbered := Numbered(frames, tx.nextReliable, tx.nextOrder);
    PackSize(numbered, Budget(config), [], 0);
    NumberingKeepsSizes(numbered, frames, Budget(config), 0);
    Pack(numbered, Budget(config), [], 0)
  }

  /** Reserves room for the whole payload, or refuses it; then packs, numbers and queues it. */
  function SendFrames(config: Config, tx: Tx, payload: bytes, frames: seq<Frames.Frame>, splitId: Option<u16>, now: nat): (Tx, bool)
    requires splitId.Some? ==> Capacity(config) > 0
  {
    if Refused(config, tx, frames) then (tx, false) else
    var queued := FlushAll(tx, Batches(config, tx, frames), now);
    (queued.(nextReliable := (tx.nextReliable + |frames|) % TWO_32,
     nextOrder := (tx.nextOrder + 1) % TWO_32,
     log := Logged(queued.log, payload, Numbered(frames, tx.nextReliable, tx.nextOrder), splitId, Capacity(config))),
     true)
  }

  /** The split id is spent even when the payload is refused. */
  function SpendSplitId(config: Config, tx: Tx, payload: bytes): Tx {
    tx.(nextSplitId := Splits.SplitStep(tx.nextSplitId, payload, Capacity(config)).1,
    log := tx.log.(splits := tx.log.splits + (if IsSplit(payload, Capacity(config)) then 1 else 0)))
  }

  function SendStep(config: Config, phase: Phase, tx: Tx, payload: bytes, now: nat): (Tx, Result<(), SessionError>) {
    if phase.Finished? then (tx, Failure(SessionClosed)) else
    var frames := Splits.SplitStep(tx.nextSplitId, payload, Capacity(config)).0;
    var splitId := if IsSplit(payload, Capacity(config)) then Some(tx.nextSplitId) else None;
    var (after, ok) := SendFrames(config, SpendSplitId(config, tx, payload), payload, frames, splitId, now);
    (after, if ok then Success(()) else Failure(OutboxFull))
  }

  /** Datagrams join the outbox while there is room. */
  function Queue(outbox: seq<bytes>, datagrams: seq<bytes>, max: nat): seq<bytes> {
    outbox + datagrams[..Min(|datagrams|, Monus(max, |outbox|))]
  }

  // Acknowledging.

  function Coalesce(keys: seq<nat>): seq<Range>
    requires forall i :: 0 <= i < |keys| ==> keys[i] < TWO_32
    decreases |keys|
  {
    if keys == [] then [] else
    var ranges := Coalesce(keys[..|keys| - 1]);
    var k := keys[|keys| - 1];
    var last := |ranges| - 1;
    if ranges != [] && k == ranges[last].end + 1
    then ranges[..last] + [Range(ranges[last].start, k)]
    else ranges + [Range(k, k)]
  }

  function Pending(acks: seq<u32>): set<u32> {
    set s | s in acks
  }

  function AckRanges(acks: seq<u32>): seq<Range> {
    var keys := Sorted(Pending(acks));
    assert forall i :: 0 <= i < |keys| ==> keys[i] in Pending(acks);
    Coalesce(keys)
  }

  /** Everything pending leaves in one acknowledgement, dropped if the outbox is full. */
  function FlushAcks(s: State): State {
    if s.rx.pendingAcks == [] then s else
    s.(tx := s.tx.(outbox := Queue(s.tx.outbox, [DatagramBytes(Ack(AckRanges(s.rx.pendingAcks)))], s.config.maxOutbox)),
    rx := s.rx.(pendingAcks := []))
  }

  // Receiving.

  datatype Outcome = Released(payloads: seq<bytes>) | Failed(e: SessionError)

  /** One frame: deduplicated, reassembled, put in order. The index is marked taken before the
      fragment is looked at. */
  function TakeFrame(rx: Rx, f: Frames.Frame, now: nat): (Rx, Outcome) {
    var (dedup, isNew) := if f.reliability.IsReliable() then Order.AcceptStep(rx.dedup, f.reliableIndex) else (rx.dedup, true);
    if isNew then Place(Marked(rx, f, dedup), f, now) else (Skipped(rx, f), Released([]))
  }

  function Marked(rx: Rx, f: Frames.Frame, dedup: Order.DedupState): Rx {
    rx.(dedup := dedup,
    log := if f.reliability.IsReliable() then rx.log.(taken := rx.log.taken + {f.reliableIndex}) else rx.log)
  }

  function Skipped(rx: Rx, f: Frames.Frame): Rx {
    rx.(log := rx.log.(late := rx.log.late || f.reliableIndex !in rx.log.taken))
  }

  function Place(rx: Rx, f: Frames.Frame, now: nat): (Rx, Outcome) {
    match Splits.PushStep(rx.reasm, f, now)
    case (_, Failure(e)) => (rx, Failed(BadFragment(e)))
    case (reasm, Success(None)) => (Stored(rx, f, reasm), Released([]))
    case (reasm, Success(Some(payload))) => Release(Stored(rx, f, reasm), f, payload)
  }

  function Stored(rx: Rx, f: Frames.Frame, reasm: Splits.ReasmState): Rx {
    rx.(reasm := reasm,
    log := if f.split.Some? then rx.log.(fragments := rx.log.fragments + {(f.split.value.id, f.split.value.index)}) else rx.log)
  }

  function Release(rx: Rx, f: Frames.Frame, payload: bytes): (Rx, Outcome) {
    if !f.reliability.IsOrdered() then (rx, Released([payload])) else
    match Order.PushStep(rx.ordering, f.orderIndex, payload)
    case (_, Failure(e)) => (rx, Failed(OutOfOrder(e)))
    case (ordering, Success(ready)) =>
      (rx.(ordering := ordering, log := rx.log.(released := rx.log.released + ready, pushed := rx.log.pushed + {f.orderIndex})),
       Released(ready))
  }

  function NowMillis(s: State, now: nat): u64 {
    Min(Monus(now, s.started) / NANOS_PER_MILLI, MAX_I64)
  }

  /** The 64-bit time `skip` bytes into a control packet, or zero when it is cut short. */
  function EchoedTime(payload: bytes, skip: nat): u64 {
    if |payload| < skip + 8 then 0 else BigEndian8(payload[skip..skip + 8])
  }

  function Repeat(b: bytes, n: nat): bytes {
    if n == 0 then [] else b + Repeat(b, n - 1)
  }

  function RequestAccepted(s: State, time: u64, now: nat): bytes {
    [ID_CONNECTION_REQUEST_ACCEPTED] + s.config.peerAddress + U16Bytes(0)
    + Repeat(s.config.localAddress, SYSTEM_ADDRESS_COUNT) + U64Bytes(time) + U64Bytes(NowMillis(s, now))
  }

  function Pong(s: State, time: u64, now: nat): bytes {
    [ID_CONNECTED_PONG] + U64Bytes(time) + U64Bytes(NowMillis(s, now))
  }

  function Ping(s: State, now: nat): bytes {
    [ID_CONNECTED_PING] + U64Bytes(NowMillis(s, now))
  }

  predicate IsApp(payload: bytes) {
    payload != [] && payload[0] >= USER_PACKET_START
  }

  /** The application payloads among `payloads`, in order. */
  function AppOnly(payloads: seq<bytes>): (apps: seq<bytes>)
    decreases |payloads|
  {
    if payloads == [] then [] else
    var last := |payloads| - 1;
    AppOnly(payloads[..last]) + (if IsApp(payloads[last]) then [payloads[last]] else [])
  }

  /** Control packets that want an answer. */
  predicate Asks(payload: bytes) {
    payload != [] && (payload[0] == ID_CONNECTION_REQUEST || payload[0] == ID_CONNECTED_PING)
  }

  /** The control packets that are answered, and their answer. */
  function ReplyTo(s: State, payload: bytes, now: nat): Option<bytes> {
    if payload == [] then None
    else if payload[0] == ID_CONNECTION_REQUEST then Some(RequestAccepted(s, EchoedTime(payload, 9), now))
    else if payload[0] == ID_CONNECTED_PING then Some(Pong(s, EchoedTime(payload, 1), now))
    else None
  }

  function PhaseAfter(phase: Phase, payload: bytes): Phase {
    if payload == [] then phase
    else if payload[0] == ID_NEW_INCOMING_CONNECTION then Connected
    else if payload[0] == ID_DISCONNECT then Finished(ByPeer)
    else phase
  }

  /** Answers RakNet's own packets; only application payloads go on to the caller. */
  function Handle(s: State, payload: bytes, now: nat): (State, Result<Option<bytes>, SessionError>) {
    var reply := ReplyTo(s, payload, now);
    if reply.Some? then
      match SendStep(s.config, s.phase, s.tx, reply.value, now)
      case (tx, Failure(e)) => (s.(tx := tx), Failure(e))
      case (tx, Success(_)) => (s.(tx := tx), Success(None))
    else (s.(phase := PhaseAfter(s.phase, payload)), Success(if IsApp(payload) then Some(payload) else None))
  }

  function HandleAll(s: State, payloads: seq<bytes>, delivered: seq<bytes>, now: nat): (State, Result<seq<bytes>, SessionError>)
    decreases |payloads|
  {
    if payloads == [] then (s, Success(delivered)) else
    match Handle(s, payloads[0], now)
    case (after, Failure(e)) => (after, Failure(e))
    case (after, Success(None)) => HandleAll(after, payloads[1..], delivered, now)
    case (after, Success(Some(p))) => HandleAll(after, payloads[1..], delivered + [p], now)
  }

  function Lost(s: State, count: nat): State {
    s.(rx := s.rx.(log := s.rx.log.(lost := s.rx.log.lost + count)))
  }

  function TakeFrames(s: State, frames: seq<Frames.Frame>, delivered: seq<bytes>, now: nat): (State, Result<seq<bytes>, SessionError>)
    decreases |frames|
  {
    if frames == [] then (s, Success(delivered)) else
    match TakeFrame(s.rx, frames[0], now)
    case (rx, Failed(e)) => (s.(rx := rx), Failure(e))
    case (rx, Released(payloads)) =>
      match HandleAll(s.(rx := rx), payloads, delivered, now)
      case (after, Failure(e)) => (Lost(after, |delivered| + |AppOnly(payloads)|), Failure(e))
      case (after, Success(more)) => TakeFrames(after, frames[1..], more, now)
  }

  /** Only what a call that succeeds returns reaches the caller. */
  function Settle(s: State, result: Result<seq<bytes>, SessionError>): State {
    match result
    case Success(payloads) => s.(rx := s.rx.(log := s.rx.log.(delivered := s.rx.log.delivered + payloads)))
    case Failure(_) => s.(rx := s.rx.(log := s.rx.log.(failed := true)))
  }

  /** The sequence is noted, to be acknowledged, before any frame is looked at. */
  function Noted(s: State, sequence: u32): State {
    s.(rx := s.rx.(pendingAcks := s.rx.pendingAcks + [sequence],
    log := s.rx.log.(received := s.rx.log.received + {sequence})))
  }

  function ReceiveFrameSet(s: State, sequence: u32, frames: seq<Frames.Frame>, now: nat): (State, Result<seq<bytes>, SessionError>) {
    var (after, result) := TakeFrames(Noted(s, sequence), frames, [], now);
    (Settle(after, result), result)
  }

  function ReceiveStep(s: State, b: bytes, now: nat): (State, Result<seq<bytes>, SessionError>) {
    if IsClosed(s) then (s, Failure(SessionClosed)) else
    var s := s.(lastHeard := now);
    match DecodeDatagram(b)
    case Failure(e) => (s, Failure(BadDatagram(e)))
    case Success(Ack(ranges)) =>
      (s.(tx := s.tx.(retrans := Retransmit.AckStep(s.tx.retrans, ranges, now))), Success([]))
    case Success(Nack(ranges)) =>
      var (retrans, out) := Retransmit.NackStep(s.tx.retrans, ranges, now);
      (s.(tx := s.tx.(retrans := retrans, outbox := Queue(s.tx.outbox, out, s.config.maxOutbox))), Success([]))
    case Success(FrameSet(sequence, frames)) => ReceiveFrameSet(s, sequence, frames, now)
  }

  // Time passing.

  function Resend(s: State, now: nat): State {
    var (retrans, out) := Retransmit.DueStep(s.tx.retrans, now);
    s.(tx := s.tx.(retrans := retrans, outbox := Queue(s.tx.outbox, out, s.config.maxOutbox)))
  }

  ghost function Expire(s: State, now: nat): State {
    var reasm := Splits.ExpireStep(s.rx.reasm, now);
    s.(rx := s.rx.(reasm := reasm, log := s.rx.log.(expired := s.rx.log.expired || reasm.pending != s.rx.reasm.pending)))
  }

  function KeepAlive(s: State, now: nat): State {
    if Monus(now, s.lastPing) < s.config.keepalive then s else
    var s := s.(lastPing := now);
    s.(tx := SendStep(s.config, s.phase, s.tx, Ping(s, now), now).0)
  }

  ghost function TickStep(s: State, now: nat): State {
    if IsClosed(s) then s
    else if Monus(now, s.lastHeard) >= s.config.timeout then s.(phase := Finished(Timeout))
    else if s.tx.retrans.dead then s.(phase := Finished(Unreachable))
    else KeepAlive(Expire(Resend(FlushAcks(s), now), now), now)
  }

  function CloseStep(s: State, now: nat): State {
    if IsClosed(s) then s else
    s.(tx := SendStep(s.config, s.phase, s.tx, [ID_DISCONNECT], now).0, phase := Finished(ByUs))
  }

  function PollStep(s: State): (State, Option<bytes>) {
    if s.tx.outbox == [] then (s, None)
    else (s.(tx := s.tx.(outbox := s.tx.outbox[1..])), Some(s.tx.outbox[0]))
  }
}
