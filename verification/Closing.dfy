/** When a session is closed, and whether it stays so. */
module Closing {
  import opened Integers
  import opened Wrappers
  import opened SessionSpec
  import opened Network
  import opened Refusals
  import Frames

  /** `Closed` is absorbing across calls: whatever either end does, and whatever arrives, a closed
      session stays closed for the same reason, sends nothing more and hands nothing over. */
  lemma {:induction false} ClosedIsForever(net: Net, ops: seq<Op>)
    requires IsClosed(net.left.session)
    ensures var after := Run(net, ops);
            && after.left.session.phase == net.left.session.phase
            && after.left.session.tx.log == net.left.session.tx.log
            && after.left.session.rx == net.left.session.rx
            && (after.left.sent, after.left.handed) == (net.left.sent, net.left.handed)
    decreases |ops|
  {
    if ops != [] {
      var last := |ops| - 1;
      ClosedIsForever(net, ops[..last]);
      ClosedStep(Run(net, ops[..last]), ops[last]);
    }
  }

  lemma ClosedStep(net: Net, op: Op)
    requires IsClosed(net.left.session)
    ensures var after := Step(net, op);
            && after.left.session.phase == net.left.session.phase
            && after.left.session.tx.log == net.left.session.tx.log
            && after.left.session.rx == net.left.session.rx
            && (after.left.sent, after.left.handed) == (net.left.sent, net.left.handed)
  {
    assert net.left.sent + [] == net.left.sent && net.left.handed + [] == net.left.handed;
  }

  predicate IsDisconnect(payload: bytes) {
    payload != [] && payload[0] == ID_DISCONNECT
  }

  predicate IsNewIncoming(payload: bytes) {
    payload != [] && payload[0] == ID_NEW_INCOMING_CONNECTION
  }

  /** Some disconnect has no new connection after it. */
  predicate DisconnectComesLast(payloads: seq<bytes>) {
    exists i :: 0 <= i < |payloads| && IsDisconnect(payloads[i]) && NoNewIncoming(payloads[i + 1..])
  }

  predicate NoNewIncoming(payloads: seq<bytes>) {
    forall i :: 0 <= i < |payloads| ==> !IsNewIncoming(payloads[i])
  }

  lemma LastComesLater(payloads: seq<bytes>)
    requires payloads != []
    ensures DisconnectComesLast(payloads)
       <==> DisconnectComesLast(payloads[1..]) || (IsDisconnect(payloads[0]) && NoNewIncoming(payloads[1..]))
  {
    var tail := payloads[1..];
    forall i | 0 <= i < |tail|
      ensures tail[i] == payloads[i + 1] && tail[i + 1..] == payloads[i + 1..][1..]
    {
    }
    if i :| 0 <= i < |payloads| && IsDisconnect(payloads[i]) && NoNewIncoming(payloads[i + 1..]) && i > 0 {
      assert tail[i - 1] == payloads[i] && tail[i..] == payloads[i + 1..];
      assert DisconnectComesLast(tail) by {
        assert IsDisconnect(tail[i - 1]) && NoNewIncoming(tail[i - 1 + 1..]);
      }
    }
    if i :| 0 <= i < |tail| && IsDisconnect(tail[i]) && NoNewIncoming(tail[i + 1..]) {
      assert payloads[i + 1] == tail[i] && payloads[i + 1 + 1..] == tail[i + 1..];
      assert IsDisconnect(payloads[i + 1]) && NoNewIncoming(payloads[i + 1 + 1..]);
    }
  }

  /** The connection is closed after a list of payloads exactly when a disconnect among them has no new
      connection after it, or it was closed before and there is none at all. */
  lemma {:induction false} ClosedAfterPayloads(phase: Phase, payloads: seq<bytes>)
    ensures PhaseAfterAll(phase, payloads).Finished?
       <==> DisconnectComesLast(payloads) || (phase.Finished? && NoNewIncoming(payloads))
    decreases |payloads|
  {
    if payloads != [] {
      LastComesLater(payloads);
      NoneComesLater(payloads);
      hide DisconnectComesLast, NoNewIncoming;
      ClosedAfterPayloads(PhaseAfter(phase, payloads[0]), payloads[1..]);
    }
  }

  lemma NoneComesLater(payloads: seq<bytes>)
    requires payloads != []
    ensures NoNewIncoming(payloads) <==> !IsNewIncoming(payloads[0]) && NoNewIncoming(payloads[1..])
  {
    assert forall i :: 1 <= i < |payloads| ==> payloads[1..][i - 1] == payloads[i];
  }

  /** Within one call it is not: whatever the datagram and the session, the payloads it releases are
      handled one after another, over all of its frames, until the answer to one is refused; and the
      session is closed afterwards exactly when a disconnect among those has no new connection after
      it, or it was closed before and there is none at all. */
  lemma ClosedAfterACall(s: State, sequence: u32, frames: seq<Frames.Frame>, now: nat)
    ensures var after := ReceiveFrameSet(s, sequence, frames, now).0;
            var ready := TakeAll(Noted(s, sequence).rx, frames, now).1;
            var handled := ready[..Met(Noted(s, sequence), ready, now)];
            && after.phase == PhaseAfterAll(s.phase, handled)
            && (IsClosed(after) <==> DisconnectComesLast(handled) || (IsClosed(s) && NoNewIncoming(handled)))
  {
    var noted := Noted(s, sequence);
    var ready := TakeAll(noted.rx, frames, now).1;
    TakeFramesHandles(noted, frames, [], now);
    HandleAllMeets(noted, ready, [], now);
    ClosedAfterPayloads(s.phase, ready[..Met(noted, ready, now)]);
    hide TakeFrames, TakeAll, HandleAll, Met, PhaseAfterAll, DisconnectComesLast, NoNewIncoming;
  }

  /** The input that shows it: a disconnect and a new connection in one call leave the session open. */
  lemma DisconnectThenConnect(s: State, now: nat)
    ensures var (after, result) := HandleAll(s, [[ID_DISCONNECT], [ID_NEW_INCOMING_CONNECTION]], [], now);
            result == Success([]) && after.phase == Connected
  {
    var first: bytes := [ID_DISCONNECT];
    var second: bytes := [ID_NEW_INCOMING_CONNECTION];
    HandleMoves(s, first, now);
    var mid := Handle(s, first, now).0;
    HandleMoves(mid, second, now);
    assert Handle(s, first, now).1 == Success(None) && Handle(mid, second, now).1 == Success(None);
    hide Handle;
    assert [first, second][1..] == [second];
    assert [second][1..] == [];
    var end := Handle(mid, second, now).0;
    assert HandleAll(end, [], [], now) == (end, Success([]));
    assert HandleAll(mid, [second], [], now) == (end, Success([]));
  }
}
