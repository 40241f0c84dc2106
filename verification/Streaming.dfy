/** Which columns a player is handed as they move, and in what order. */
module Streaming {
  import opened Integers

  const FORGET_MARGIN: nat := 2
  const CHUNK_WIDTH: nat := 16

  type Place = (int, int)

  function Distance(a: int, b: int): nat {
    if a >= b then a - b else b - a
  }

  /** Inside the square of `radius` around `center`. */
  predicate Near(p: Place, center: Place, radius: nat) {
    Distance(p.0, center.0) <= radius && Distance(p.1, center.1) <= radius
  }

  /** Columns of one row, then the rows, in the order they are asked for. */
  function Row(x: int, z: int, n: nat): seq<Place> {
    if n == 0 then [] else Row(x, z, n - 1) + [(x, z + n - 1)]
  }

  function Rows(x: int, z: int, width: nat, n: nat): seq<Place> {
    if n == 0 then [] else Rows(x, z, width, n - 1) + Row(x + n - 1, z, width)
  }

  function ColumnsAround(center: Place, radius: nat): seq<Place> {
    Rows(center.0 - radius, center.1 - radius, 2 * radius + 1, 2 * radius + 1)
  }

  lemma {:induction false} RowHolds(x: int, z: int, n: nat, p: Place)
    ensures p in Row(x, z, n) <==> p.0 == x && z <= p.1 < z + n
    decreases n
  {
    if n > 0 {
      RowHolds(x, z, n - 1, p);
    }
  }

  lemma RowsUnfold(x: int, z: int, width: nat, n: nat, p: Place)
    ensures p in Rows(x, z, width, n) <==> n > 0 && (p in Rows(x, z, width, n - 1) || p in Row(x + n - 1, z, width))
  {
    hide Row;
  }

  lemma {:induction false} RowsHold(x: int, z: int, width: nat, n: nat, p: Place)
    ensures p in Rows(x, z, width, n) <==> x <= p.0 < x + n && z <= p.1 < z + width
    decreases n
  {
    hide Rows, Row;
    RowsUnfold(x, z, width, n, p);
    if n > 0 {
      RowsHold(x, z, width, n - 1, p);
      RowHolds(x + n - 1, z, width, p);
    }
  }

  /** Exactly the square. */
  lemma AroundIsTheSquare(center: Place, radius: nat)
    ensures forall p: Place :: p in ColumnsAround(center, radius) <==> Near(p, center, radius)
  {
    hide Rows;
    forall p: Place
      ensures p in ColumnsAround(center, radius) <==> Near(p, center, radius)
    {
      RowsHold(center.0 - radius, center.1 - radius, 2 * radius + 1, 2 * radius + 1, p);
    }
  }

  /** The position is in whole blocks, `feet` being the height the player stands at. */
  datatype Player = Player(radius: nat, center: Place, sent: set<Place>, position: Place, feet: i32)

  /** What is sent: the point columns are accepted around, and columns. */
  datatype Sent = Publisher(center: Place, radius: nat) | Column(at: Place)

  /** Everything sent to a player since the world was first streamed to them, and how many columns
      have been forgotten since. */
  datatype Stream = Stream(player: Player, log: seq<Sent>, forgotten: nat)

  /** Walks the wanted columns, handing out those not sent before. */
  function HandOut(sent: set<Place>, wanted: seq<Place>): (set<Place>, seq<Sent>)
    decreases |wanted|
  {
    if wanted == [] then (sent, []) else
    var last := |wanted| - 1;
    var (before, out) := HandOut(sent, wanted[..last]);
    if wanted[last] in before then (before, out) else (before + {wanted[last]}, out + [Column(wanted[last])])
  }

  lemma HandOutNext(sent: set<Place>, wanted: seq<Place>, i: nat)
    requires i < |wanted|
    ensures var (before, out) := HandOut(sent, wanted[..i]);
            HandOut(sent, wanted[..i + 1])
            == if wanted[i] in before then (before, out) else (before + {wanted[i]}, out + [Column(wanted[i])])
  {
    assert wanted[..i + 1][..i] == wanted[..i];
  }

  function Kept(sent: set<Place>, center: Place, radius: nat): set<Place> {
    set p | p in sent && Near(p, center, radius + FORGET_MARGIN)
  }

  function StreamAround(s: Stream, center: Place): Stream {
    var radius := s.player.radius;
    var kept := Kept(s.player.sent, center, radius);
    var (sent, out) := HandOut(kept, ColumnsAround(center, radius));
    Stream(s.player.(center := center, sent := sent),
           s.log + [Publisher(center, radius)] + out,
           s.forgotten + |s.player.sent - kept|)
  }

  function NewPlayer(radius: int, feet: i32): Player {
    Player(if radius < 0 then 0 else radius, (0, 0), {}, (0, 0), feet)
  }

  function StreamWorld(radius: int, feet: i32): Stream {
    StreamAround(Stream(NewPlayer(radius, feet), [], 0), (0, 0))
  }

  datatype Move = Move(x: i32, feet: i32, z: i32)

  function CenterOf(m: Move): Place {
    (m.x / CHUNK_WIDTH, m.z / CHUNK_WIDTH)
  }

  /** Streams again only when the player crossed into another column. */
  function Moved(s: Stream, m: Move): Stream {
    var there := s.(player := s.player.(position := (m.x, m.z), feet := m.feet));
    if CenterOf(m) == s.player.center then there else StreamAround(there, CenterOf(m))
  }

  function MoveAll(radius: int, feet: i32, moves: seq<Move>): Stream
    decreases |moves|
  {
    if moves == [] then StreamWorld(radius, feet)
    else Moved(MoveAll(radius, feet, moves[..|moves| - 1]), moves[|moves| - 1])
  }

  // What a run of moves keeps.

  function ColumnsIn(log: seq<Sent>): nat
    decreases |log|
  {
    if log == [] then 0 else ColumnsIn(log[..|log| - 1]) + (if log[|log| - 1].Column? then 1 else 0)
  }

  /** The publisher update in force at i is the one at k. */
  ghost predicate InForce(log: seq<Sent>, k: nat, i: nat) {
    k < i <= |log| && log[k].Publisher? && forall m :: k < m < i ==> log[m].Column?
  }

  /** The column at i comes under a publisher update that reaches it. */
  ghost predicate Accepted(log: seq<Sent>, i: nat)
    requires i < |log| && log[i].Column?
  {
    exists k: nat :: InForce(log, k, i) && Near(log[i].at, log[k].center, log[k].radius)
  }

  /** After i, the centre went beyond the margin from p. */
  ghost predicate WentFar(log: seq<Sent>, i: nat, p: Place) {
    exists k: nat :: i < k < |log| && log[k].Publisher? && !Near(p, log[k].center, log[k].radius + FORGET_MARGIN)
  }

  ghost predicate Far(log: seq<Sent>, i: nat, j: nat, p: Place) {
    exists k: nat :: i < k < j && k < |log| && log[k].Publisher? && !Near(p, log[k].center, log[k].radius + FORGET_MARGIN)
  }

  /** What the log says of the columns now held to be sent. */
  ghost predicate GoodLog(log: seq<Sent>, sent: set<Place>, forgotten: nat) {
    && ColumnsIn(log) == |sent| + forgotten
    && (forall i :: 0 <= i < |log| && log[i].Column? ==> Accepted(log, i))
    && (forall i :: 0 <= i < |log| && log[i].Column? && log[i].at !in sent ==> WentFar(log, i, log[i].at))
    && (forall i, j :: 0 <= i < j < |log| && log[i].Column? && log[i] == log[j] ==> Far(log, i, j, log[i].at))
  }

  ghost predicate WithinMargin(sent: set<Place>, center: Place, radius: nat) {
    forall c: Place :: c in sent ==> Near(c, center, radius + FORGET_MARGIN)
  }

  ghost predicate Covered(sent: set<Place>, center: Place, radius: nat) {
    forall c: Place :: Near(c, center, radius) ==> c in sent
  }

  lemma AcceptedStays(log: seq<Sent>, more: Sent, i: nat)
    requires i < |log| && log[i].Column? && Accepted(log, i)
    ensures Accepted(log + [more], i)
  {
    var k: nat :| InForce(log, k, i) && Near(log[i].at, log[k].center, log[k].radius);
    assert InForce(log + [more], k, i);
  }

  lemma FarStays(log: seq<Sent>, more: Sent, i: nat, j: nat, p: Place)
    requires Far(log, i, j, p)
    ensures Far(log + [more], i, j, p)
  {
    var k: nat :| i < k < j && k < |log| && log[k].Publisher? && !Near(p, log[k].center, log[k].radius + FORGET_MARGIN);
    assert (log + [more])[k] == log[k];
  }

  lemma WentFarStays(log: seq<Sent>, more: Sent, i: nat, p: Place)
    requires WentFar(log, i, p)
    ensures WentFar(log + [more], i, p) && Far(log + [more], i, |log|, p)
  {
    var k: nat :| i < k < |log| && log[k].Publisher? && !Near(p, log[k].center, log[k].radius + FORGET_MARGIN);
    assert (log + [more])[k] == log[k];
  }

  lemma OneMoreColumn(log: seq<Sent>, more: Sent)
    ensures ColumnsIn(log + [more]) == ColumnsIn(log) + (if more.Column? then 1 else 0)
  {
    assert (log + [more])[..|log|] == log;
  }

  /** What stays true of the old part of the log, whatever comes next. */
  lemma OldPartStays(log: seq<Sent>, sent: set<Place>, forgotten: nat, more: Sent)
    requires GoodLog(log, sent, forgotten)
    ensures var after := log + [more];
            && (forall i :: 0 <= i < |log| && after[i].Column? ==> Accepted(after, i))
            && (forall i :: 0 <= i < |log| && after[i].Column? && after[i].at !in sent ==>
                              WentFar(after, i, after[i].at) && Far(after, i, |log|, after[i].at))
            && (forall i, j :: 0 <= i < j < |log| && after[i].Column? && after[i] == after[j] ==> Far(after, i, j, after[i].at))
  {
    var after := log + [more];
    assert forall i :: 0 <= i < |log| ==> after[i] == log[i];
    hide Accepted, WentFar, Far;
    forall i | 0 <= i < |log| && log[i].Column?
      ensures Accepted(after, i)
      ensures log[i].at !in sent ==> WentFar(after, i, log[i].at) && Far(after, i, |log|, log[i].at)
    {
      AcceptedStays(log, more, i);
      if log[i].at !in sent {
        WentFarStays(log, more, i, log[i].at);
      }
    }
    forall i, j | 0 <= i < j < |log| && log[i].Column? && log[i] == log[j]
      ensures Far(after, i, j, log[i].at)
    {
      FarStays(log, more, i, j, log[i].at);
    }
  }

  /** A publisher update, after the columns beyond the margin are forgotten. */
  lemma PublishKeeps(log: seq<Sent>, sent: set<Place>, forgotten: nat, center: Place, radius: nat)
    requires GoodLog(log, sent, forgotten)
    ensures var kept := Kept(sent, center, radius);
            && GoodLog(log + [Publisher(center, radius)], kept, forgotten + |sent - kept|)
            && WithinMargin(kept, center, radius)
            && InForce(log + [Publisher(center, radius)], |log|, |log| + 1)
  {
    hide Accepted, Far, ColumnsIn;
    var kept, more := Kept(sent, center, radius), Publisher(center, radius);
    var after := log + [more];
    OldPartStays(log, sent, forgotten, more);
    OneMoreColumn(log, more);
    assert sent == kept + (sent - kept);
    forall i | 0 <= i < |after| && after[i].Column? && after[i].at !in kept
      ensures WentFar(after, i, after[i].at)
    {
      if after[i].at in sent {
        assert after[|log|] == more;
      }
    }
  }

  lemma NewestIsAccepted(log: seq<Sent>, k: nat, c: Place)
    requires InForce(log, k, |log|) && Near(c, log[k].center, log[k].radius)
    ensures Accepted(log + [Column(c)], |log|)
  {
    assert InForce(log + [Column(c)], k, |log|) && (log + [Column(c)])[k] == log[k];
  }

  /** One column handed out under the update in force. */
  lemma HandOneKeeps(log: seq<Sent>, sent: set<Place>, forgotten: nat, k: nat, c: Place)
    requires GoodLog(log, sent, forgotten) && c !in sent
    requires InForce(log, k, |log|) && Near(c, log[k].center, log[k].radius)
    ensures GoodLog(log + [Column(c)], sent + {c}, forgotten) && InForce(log + [Column(c)], k, |log| + 1)
  {
    hide Accepted, Far, WentFar, ColumnsIn;
    var more := Column(c);
    var after := log + [more];
    OldPartStays(log, sent, forgotten, more);
    OneMoreColumn(log, more);
    NewestIsAccepted(log, k, c);
  }

  lemma {:induction false} HandOutKeeps(log: seq<Sent>, sent: set<Place>, forgotten: nat, k: nat, wanted: seq<Place>)
    requires GoodLog(log, sent, forgotten) && InForce(log, k, |log|)
    requires forall c :: c in wanted ==> Near(c, log[k].center, log[k].radius)
    ensures var (after, out) := HandOut(sent, wanted);
            && GoodLog(log + out, after, forgotten) && InForce(log + out, k, |log + out|)
            && (forall c :: c in after <==> c in sent || c in wanted)
    decreases |wanted|
  {
    if wanted == [] {
      assert log + [] == log;
    } else {
      var last := |wanted| - 1;
      HandOutKeeps(log, sent, forgotten, k, wanted[..last]);
      var (before, out) := HandOut(sent, wanted[..last]);
      assert wanted == wanted[..last] + [wanted[last]];
      assert (log + out)[k] == log[k];
      hide GoodLog, InForce;
      if wanted[last] !in before {
        HandOneKeeps(log + out, before, forgotten, k, wanted[last]);
        Assoc(log, out, [Column(wanted[last])]);
      }
    }
  }

  ghost predicate Good(s: Stream) {
    var p := s.player;
    GoodLog(s.log, p.sent, s.forgotten) && WithinMargin(p.sent, p.center, p.radius)
  }

  lemma StreamAroundKeeps(s: Stream, center: Place)
    requires GoodLog(s.log, s.player.sent, s.forgotten)
    ensures Good(StreamAround(s, center))
    ensures Covered(StreamAround(s, center).player.sent, center, s.player.radius)
    ensures StreamAround(s, center).player == s.player.(center := center, sent := StreamAround(s, center).player.sent)
  {
    hide GoodLog, InForce, ColumnsAround, Kept;
    var radius := s.player.radius;
    var kept, wanted, log := Kept(s.player.sent, center, radius), ColumnsAround(center, radius), s.log + [Publisher(center, radius)];
    PublishKeeps(s.log, s.player.sent, s.forgotten, center, radius);
    AroundIsTheSquare(center, radius);
    assert log[|s.log|] == Publisher(center, radius);
    HandOutKeeps(log, kept, s.forgotten + |s.player.sent - kept|, |s.log|, wanted);
  }

  /** After any run of moves since the world was first streamed: every column in view has been sent and
      none beyond the margin is remembered; the columns handed out are those remembered and those
      forgotten; each came under a publisher update that reaches it; and none came twice unless the
      centre went beyond the margin in between. */
  lemma {:induction false} StreamingKeepsUp(radius: int, feet: i32, moves: seq<Move>)
    ensures var s := MoveAll(radius, feet, moves);
            && s.player.radius == (if radius < 0 then 0 else radius)
            && s.player.center == (if moves == [] then (0, 0) else CenterOf(moves[|moves| - 1]))
            && Covered(s.player.sent, s.player.center, s.player.radius)
            && WithinMargin(s.player.sent, s.player.center, s.player.radius)
            && GoodLog(s.log, s.player.sent, s.forgotten)
    decreases |moves|
  {
    if moves == [] {
      StreamAroundKeeps(Stream(NewPlayer(radius, feet), [], 0), (0, 0));
    } else {
      var last := |moves| - 1;
      StreamingKeepsUp(radius, feet, moves[..last]);
      var before := MoveAll(radius, feet, moves[..last]);
      var there := before.(player := before.player.(position := (moves[last].x, moves[last].z), feet := moves[last].feet));
      assert GoodLog(there.log, there.player.sent, there.forgotten);
      hide Covered, WithinMargin, Accepted, WentFar, Far, ColumnsIn, StreamAround;
      StreamAroundKeeps(there, CenterOf(moves[last]));
    }
  }

  lemma CenterIsUnderfoot(m: Move)
    ensures var c := CenterOf(m);
            c.0 * 16 <= m.x < c.0 * 16 + 16 && c.1 * 16 <= m.z < c.1 * 16 + 16
  {
  }

  lemma BlocksAround(x: int, x': int, radius: nat)
    requires x - 16 * radius <= x' <= x + 16 * radius
    ensures x / 16 - radius <= x' / 16 <= x / 16 + radius
  {
  }

  lemma StandsWhereReported(radius: int, feet: i32, moves: seq<Move>)
    requires moves != []
    ensures var p, m := MoveAll(radius, feet, moves).player, moves[|moves| - 1];
            p.position == (m.x as int, m.z as int) && p.feet == m.feet
  {
    hide HandOut, ColumnsAround, Kept;
  }

  predicate WithinBlocks(m: Move, x: int, z: int, d: nat) {
    m.x - d <= x <= m.x + d && m.z - d <= z <= m.z + d
  }

  /** After any run of moves the centre is the column the player stands in, and the column of every
      block within the radius of them, counted in blocks and along both axes, has been sent; and no
      column more than the radius and two from their own is remembered. */
  lemma StreamedAroundThePlayer(radius: int, feet: i32, moves: seq<Move>)
    requires moves != []
    ensures var s, m := MoveAll(radius, feet, moves), moves[|moves| - 1];
            var p := s.player;
            && p.position == (m.x as int, m.z as int) && p.feet == m.feet
            && p.center.0 * 16 <= m.x < p.center.0 * 16 + 16 && p.center.1 * 16 <= m.z < p.center.1 * 16 + 16
            && (forall c: Place :: c in p.sent ==>
                                     && p.center.0 - p.radius - 2 <= c.0 <= p.center.0 + p.radius + 2
                                     && p.center.1 - p.radius - 2 <= c.1 <= p.center.1 + p.radius + 2)
            && (forall x: int, z: int :: WithinBlocks(m, x, z, 16 * p.radius) ==> (x / 16, z / 16) in p.sent)
  {
    var p, m := MoveAll(radius, feet, moves).player, moves[|moves| - 1];
    StreamingKeepsUp(radius, feet, moves);
    StandsWhereReported(radius, feet, moves);
    CenterIsUnderfoot(m);
    hide MoveAll, GoodLog, CenterOf;
    forall x: int, z: int | WithinBlocks(m, x, z, 16 * p.radius)
      ensures (x / 16, z / 16) in p.sent
    {
      BlocksAround(m.x, x, p.radius);
      BlocksAround(m.z, z, p.radius);
      assert Near((x / 16, z / 16), p.center, p.radius);
    }
  }
}
