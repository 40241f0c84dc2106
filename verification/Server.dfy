/** The part of the server that streams the world to its players through their encrypted streams. */
module Servers {
  import opened Integers
  import opened Wrappers
  import opened Streaming
  import opened Batches
  import opened LevelChunks
  import Subchunks
  import Columns
  import Chunks
  import Sections
  import Worlds
  import Ciphers
  import GameBytes

  const SURFACE_HEIGHT: i32 := 80
  /** 80 less the 1.62 blocks from the feet to the reported position, cut to whole blocks. */
  const SPAWN_FEET: i32 := 78

  type Peer = int

  predicate InI32(v: int) {
    -0x8000_0000 <= v < 0x8000_0000
  }

  function PublisherPacket(x: i32, feet: i32, z: i32, radius: u32): Packet {
    NewPacket(ID_NETWORK_CHUNK_PUBLISHER_UPDATE, Subchunks.PublisherBody(x, feet, z, radius))
  }

  /** The packet that carries a stream entry: the update in blocks, or the column as the world has it. */
  ghost predicate Carries(packet: Packet, e: Sent, feet: i32, columns: imap<Place, seq<Sections.Section>>) {
    match e
    case Publisher(center, radius) =>
      var (x, z, r) := (center.0 * CHUNK_WIDTH, center.1 * CHUNK_WIDTH, radius * CHUNK_WIDTH);
      InI32(x) && InI32(z) && r < TWO_32 && packet == PublisherPacket(x, feet, z, r)
    case Column(at) =>
      InI32(at.0) && InI32(at.1) && at in columns
      && packet == NewPacket(ID_LEVEL_CHUNK, Columns.ColumnBody(at.0, at.1, columns[at], BIOME_PLAINS))
  }

  lemma UpdateCarried(packet: Packet, center: Place, radius: nat, feet: i32, columns: imap<Place, seq<Sections.Section>>)
    returns (update: (i32, i32, u32))
    requires Carries(packet, Publisher(center, radius), feet, columns)
    ensures update.0 == 16 * center.0 && update.1 == 16 * center.1 && update.2 == 16 * radius
    ensures packet == NewPacket(121, Subchunks.PublisherBody(update.0, feet, update.1, update.2))
  {
    hide Columns.ColumnBody, Subchunks.PublisherBody;
    update := (center.0 * CHUNK_WIDTH, center.1 * CHUNK_WIDTH, radius * CHUNK_WIDTH);
  }

  /** The batches handed over carry the stream entries, one each, in order. */
  ghost predicate CarriesAll(handed: seq<(Peer, seq<Packet>)>, peer: Peer, log: seq<Sent>, feet: i32, columns: imap<Place, seq<Sections.Section>>) {
    && |handed| == |log|
    && forall i :: 0 <= i < |log| ==>
                     handed[i].0 == peer && |handed[i].1| == 1 && Carries(handed[i].1[0], log[i], feet, columns)
  }

  lemma CarriesOneMore(before: seq<(Peer, seq<Packet>)>, after: seq<(Peer, seq<Packet>)>, base: nat, peer: Peer,
                       log: seq<Sent>, e: Sent, feet: i32, columns: imap<Place, seq<Sections.Section>>)
    requires base <= |before| && CarriesAll(before[base..], peer, log, feet, columns) && e.Column?
    requires exists packet :: after == before + [(peer, [packet])] && Carries(packet, e, 0, columns)
    ensures after[..|before|] == before && CarriesAll(after[base..], peer, log + [e], feet, columns)
  {
    var packet :| after == before + [(peer, [packet])] && Carries(packet, e, 0, columns);
    assert Carries(packet, e, feet, columns);
    assert after[base..] == before[base..] + [(peer, [packet])];
    hide Carries;
  }

  /** Whether the products computed in 32 bits fit: positions in blocks are 32-bit, so
      columns are below 2^27. */
  predicate Fits(center: Place, radius: int) {
    && -0x800_0000 <= center.0 < 0x800_0000 && -0x800_0000 <= center.1 < 0x800_0000
    && radius < 0x800_0000
  }

  lemma NearFits(p: Place, center: Place, radius: nat)
    requires Fits(center, radius) && Near(p, center, radius)
    ensures InI32(p.0) && InI32(p.1)
  {
  }

  method AskedFor(center: Place, radius: nat) returns (out: seq<Place>)
    ensures out == ColumnsAround(center, radius)
  {
    var width, x0, z0 := 2 * radius + 1, center.0 - radius, center.1 - radius;
    out := [];
    for i := 0 to width
      invariant out == Rows(x0, z0, width, i)
    {
      for j := 0 to width
        invariant out == Rows(x0, z0, width, i) + Row(x0 + i, z0, j)
      {
        Assoc(Rows(x0, z0, width, i), Row(x0 + i, z0, j), [(x0 + i, z0 + j)]);
        out := out + [(x0 + i, z0 + j)];
      }
    }
  }

  /** How the server stood before it streamed. */
  datatype Start = Start(players: map<Peer, Player>, streams: map<Peer, Stream>, handed: seq<(Peer, seq<Packet>)>, columns: imap<Place, seq<Sections.Section>>)

  /** Only this player, and their stream, have changed. */
  ghost predicate Stood(players: map<Peer, Player>, streams: map<Peer, Stream>, start: Start, peer: Peer, player: Player) {
    && peer in start.players && peer in start.streams
    && players == start.players[peer := player]
    && streams == start.streams[peer := start.streams[peer].(player := player)]
  }

  /** The update has been handed over, and then the columns `out`. */
  ghost predicate HandedOver(handed: seq<(Peer, seq<Packet>)>, start: Start, peer: Peer, center: Place, player: Player, out: seq<Sent>) {
    && |start.handed| <= |handed| && handed[..|start.handed|] == start.handed
    && CarriesAll(handed[|start.handed|..], peer, [Publisher(center, player.radius)] + out, player.feet, start.columns)
  }

  lemma StoodOn(players: map<Peer, Player>, streams: map<Peer, Stream>, start: Start, peer: Peer, player: Player, next: Player)
    requires Stood(players, streams, start, peer, player)
    ensures Stood(players[peer := next], streams[peer := streams[peer].(player := next)], start, peer, next)
  {
  }

  lemma HandedOneMore(before: seq<(Peer, seq<Packet>)>, after: seq<(Peer, seq<Packet>)>, start: Start, peer: Peer, center: Place,
                      player: Player, out: seq<Sent>, at: Place)
    requires HandedOver(before, start, peer, center, player, out)
    requires exists packet :: after == before + [(peer, [packet])] && Carries(packet, Column(at), 0, start.columns)
    ensures HandedOver(after, start, peer, center, player, out + [Column(at)])
  {
    CarriesOneMore(before, after, |start.handed|, peer, [Publisher(center, player.radius)] + out, Column(at), player.feet, start.columns);
    Assoc([Publisher(center, player.radius)], out, [Column(at)]);
    hide CarriesAll, Carries;
    assert after[..|start.handed|] == before[..|start.handed|];
  }

  lemma WantedFits(center: Place, radius: nat)
    requires Fits(center, radius)
    ensures forall c :: c in ColumnsAround(center, radius) ==> InI32(c.0) && InI32(c.1)
  {
    AroundIsTheSquare(center, radius);
    hide ColumnsAround;
    forall c | c in ColumnsAround(center, radius)
      ensures InI32(c.0) && InI32(c.1)
    {
      NearFits(c, center, radius);
    }
  }

  /** The walk done, the player is where the stream's step leads. */
  lemma EndOfWalk(players: map<Peer, Player>, streams: map<Peer, Stream>, handed: seq<(Peer, seq<Packet>)>, start: Start, peer: Peer, center: Place)
    requires peer in start.players && peer in start.streams && start.streams[peer].player == start.players[peer]
    requires var player := start.players[peer];
             var (held, out) := HandOut(Kept(player.sent, center, player.radius), ColumnsAround(center, player.radius));
             && Stood(players, streams, start, peer, player.(center := center, sent := held))
             && HandedOver(handed, start, peer, center, player, out)
    ensures var before, after := start.streams[peer], Streaming.StreamAround(start.streams[peer], center);
            && players == start.players[peer := after.player]
            && streams[peer := after] == start.streams[peer := after]
            && |HandOut(Kept(before.player.sent, center, before.player.radius), ColumnsAround(center, before.player.radius)).1| + 1
               == |after.log| - |before.log|
            && CarriesAll(handed[|start.handed|..], peer, after.log[|before.log|..], before.player.feet, start.columns)
  {
    var before, after := start.streams[peer], Streaming.StreamAround(start.streams[peer], center);
    var out := HandOut(Kept(before.player.sent, center, before.player.radius), ColumnsAround(center, before.player.radius)).1;
    assert after.log == before.log + [Publisher(center, before.player.radius)] + out;
    Assoc(before.log, [Publisher(center, before.player.radius)], out);
    assert after.log[|before.log|..] == [Publisher(center, before.player.radius)] + out;
    hide CarriesAll, HandOut, ColumnsAround, Kept;
  }

  class Server {
    const world: Worlds.World
    var players: map<Peer, Player>
    var ciphers: map<Peer, Ciphers.Cipher>
    /** Payloads given to the listener. */
    var wire: seq<(Peer, bytes)>
    /** Batches given to `SendEncrypted`, and what each player has been sent since they joined. */
    ghost var handed: seq<(Peer, seq<Packet>)>
    ghost var streams: map<Peer, Stream>

    ghost predicate Valid()
      reads this, world, world.chunks.Values, ciphers.Values
    {
      && world.Valid()
      && players.Keys == streams.Keys
      && (forall k :: k in players ==> streams[k].player == players[k] && players[k].radius < 0x800_0000)
      && (forall k :: k in ciphers ==> ciphers[k].Valid())
      && (forall a, b :: a in ciphers && b in ciphers && ciphers[a] == ciphers[b] ==> a == b)
    }

    constructor ()
      ensures Valid() && fresh(world) && players == map[] && ciphers == map[] && wire == [] && handed == []
    {
      var w := new Worlds.World(SURFACE_HEIGHT);
      world := w;
      players, ciphers, wire, handed, streams := map[], map[], [], [], map[];
    }

    /** Sends a batch through the peer's encrypted stream: the marker in the clear, the rest encrypted.
        Without a cipher nothing goes out. */
    method SendEncrypted(peer: Peer, packets: seq<Packet>)
      requires Valid()
      modifies this`wire, this`handed, ciphers.Values
      ensures Valid()
      ensures handed == old(handed) + [(peer, packets)]
      ensures if peer in ciphers
              then var (after, payload) := Ciphers.SendEncrypted(ciphers[peer].p, old(ciphers[peer].State()), packets);
                   ciphers[peer].State() == after && wire == old(wire) + [(peer, payload)]
              else wire == old(wire)
      ensures forall k :: k in ciphers && k != peer ==> ciphers[k].State() == old(ciphers[k].State())
    {
      hide Ciphers.EncryptStep, Worlds.FlatOk;
      handed := handed + [(peer, packets)];
      var framed := Batches.EncodeWithMethod(packets);
      if peer !in ciphers {
        return;
      }
      var ciphertext := ciphers[peer].Encrypt(framed[1..]);
      wire := wire + [(peer, [MARKER] + ciphertext)];
    }

    /** The decrypt path: what a payload from a peer with a cipher turns out to be. */
    method OnPayload(peer: Peer, payload: bytes) returns (r: Ciphers.Reading)
      requires Valid() && peer in ciphers
      modifies ciphers.Values
      ensures Valid()
      ensures (ciphers[peer].State(), r) == Ciphers.OnPayload(ciphers[peer].p, old(ciphers[peer].State()), payload)
      ensures forall k :: k in ciphers && k != peer ==> ciphers[k].State() == old(ciphers[k].State())
    {
      hide Ciphers.DecryptStep, DecodePackets, Worlds.FlatOk;
      if payload == [] || payload[0] != MARKER {
        return Ciphers.Undecodable;
      }
      var plaintext := ciphers[peer].Decrypt(payload[1..]);
      if plaintext.Failure? {
        return Ciphers.DecryptionFailed;
      }
      var reader := new GameBytes.Reader(if plaintext.value == [] then [] else plaintext.value[1..]);
      var packets := DecodePacketsFrom(reader);
      r := if packets.Success? then Ciphers.Packets(packets.value) else Ciphers.Undecodable;
    }

    /** The column at a place, on its way to a player. */
    method SendColumn(peer: Peer, at: Place)
      requires Valid() && InI32(at.0) && InI32(at.1)
      modifies this`wire, this`handed, world, ciphers.Values
      ensures Valid() && world.Snapshot() == old(world.Snapshot())
      ensures exists packet :: handed == old(handed) + [(peer, [packet])] && Carries(packet, Column(at), 0, old(world.Snapshot()))
    {
      hide Worlds.FlatOk, Chunks.ColumnOk, Columns.ColumnBody, Ciphers.SendEncrypted;
      var chunk := world.Column(at.0, at.1);
      var packet := Columns.ColumnPacket(chunk, BIOME_PLAINS);
      SendEncrypted(peer, [packet]);
      assert Carries(packet, Column(at), 0, old(world.Snapshot()));
    }

    ghost function Now(): Start
      reads this, world, world.chunks.Values
    {
      Start(players, streams, handed, world.Snapshot())
    }

    /** The player's centre moves, columns far behind are forgotten, and the update goes out. */
    method Announce(peer: Peer, center: Place)
      requires Valid() && peer in players && Fits(center, players[peer].radius)
      modifies this`players, this`wire, this`handed, this`streams, ciphers.Values
      ensures Valid() && world.Snapshot() == old(world.Snapshot())
      ensures var player := old(players[peer]);
              && Stood(players, streams, old(Now()), peer, player.(center := center, sent := Kept(player.sent, center, player.radius)))
              && HandedOver(handed, old(Now()), peer, center, player, [])
    {
      hide Worlds.FlatOk, Chunks.ColumnOk, Subchunks.PublisherBody, Ciphers.SendEncrypted, Worlds.World.Valid, Worlds.World.Snapshot;
      var player := players[peer];
      var moved := player.(center := center, sent := Kept(player.sent, center, player.radius));
      players := players[peer := moved];
      streams := streams[peer := streams[peer].(player := moved)];
      var packet := PublisherPacket(center.0 * CHUNK_WIDTH, player.feet, center.1 * CHUNK_WIDTH, player.radius * CHUNK_WIDTH);
      SendEncrypted(peer, [packet]);
    }

    /** One wanted column, sent unless it has been. */
    method TryColumn(peer: Peer, at: Place) returns (isNew: bool)
      requires Valid() && peer in players && InI32(at.0) && InI32(at.1)
      modifies this`players, this`wire, this`handed, this`streams, world, ciphers.Values
      ensures Valid() && world.Snapshot() == old(world.Snapshot())
      ensures isNew <==> at !in old(players[peer]).sent
      ensures var next := old(players[peer]).(sent := old(players[peer]).sent + {at});
              players == old(players)[peer := next] && streams == old(streams)[peer := old(streams[peer]).(player := next)]
      ensures if isNew
              then exists packet :: handed == old(handed) + [(peer, [packet])] && Carries(packet, Column(at), 0, old(world.Snapshot()))
              else handed == old(handed)
    {
      hide Worlds.FlatOk, Carries;
      var player := players[peer];
      isNew := at !in player.sent;
      if !isNew {
        assert player.sent + {at} == player.sent;
        return;
      }
      players := players[peer := player.(sent := player.sent + {at})];
      streams := streams[peer := streams[peer].(player := players[peer])];
      SendColumn(peer, at);
    }

    /** The walk over the wanted columns has come to the i-th. */
    ghost predicate Handing(peer: Peer, start: Start, center: Place, wanted: seq<Place>, i: nat, sent: nat)
      reads this, world, world.chunks.Values, ciphers.Values
    {
      && Valid() && world.Snapshot() == start.columns
      && peer in start.players && i <= |wanted|
      && var player := start.players[peer];
      var (held, out) := HandOut(Kept(player.sent, center, player.radius), wanted[..i]);
      && Stood(players, streams, start, peer, player.(center := center, sent := held))
      && HandedOver(handed, start, peer, center, player, out)
      && sent == |out|
    }

    /** One turn of the walk. */
    method HandOutOne(peer: Peer, wanted: seq<Place>, i: nat, sent: nat, ghost start: Start, ghost center: Place) returns (count: nat)
      requires i < |wanted| && InI32(wanted[i].0) && InI32(wanted[i].1)
      requires Handing(peer, start, center, wanted, i, sent)
      modifies this`players, this`wire, this`handed, this`streams, world, ciphers.Values
      ensures Handing(peer, start, center, wanted, i + 1, count)
    {
      ghost var player := start.players[peer];
      ghost var (held, out) := HandOut(Kept(player.sent, center, player.radius), wanted[..i]);
      ghost var soFar := handed;
      HandOutNext(Kept(player.sent, center, player.radius), wanted, i);
      assert players[peer] == player.(center := center, sent := held);
      StoodOn(players, streams, start, peer, players[peer], players[peer].(sent := held + {wanted[i]}));
      hide HandOut, Kept, Valid, Carries, HandedOver, Stood;
      var isNew := TryColumn(peer, wanted[i]);
      count := sent;
      if isNew {
        HandedOneMore(soFar, handed, start, peer, center, player, out, wanted[i]);
        count := sent + 1;
      } else {
        assert held + {wanted[i]} == held;
      }
    }

    method HandOutAll(peer: Peer, wanted: seq<Place>, ghost start: Start, ghost center: Place) returns (sent: nat)
      requires forall c :: c in wanted ==> InI32(c.0) && InI32(c.1)
      requires Handing(peer, start, center, wanted, 0, 0)
      modifies this`players, this`wire, this`handed, this`streams, world, ciphers.Values
      ensures Handing(peer, start, center, wanted, |wanted|, sent)
    {
      sent := 0;
      for i := 0 to |wanted|
        invariant Handing(peer, start, center, wanted, i, sent)
      {
        hide Handing;
        assert wanted[i] in wanted;
        sent := HandOutOne(peer, wanted, i, sent, start, center);
      }
    }

    method Walk(peer: Peer, center: Place) returns (sent: nat)
      requires Valid() && peer in players && Fits(center, players[peer].radius)
      modifies this`players, this`wire, this`handed, this`streams, world, ciphers.Values
      ensures var wanted := ColumnsAround(center, old(players[peer].radius));
              Handing(peer, old(Now()), center, wanted, |wanted|, sent)
    {
      ghost var start := Now();
      var radius := players[peer].radius;
      var wanted := AskedFor(center, radius);
      WantedFits(center, radius);
      Announce(peer, center);
      assert wanted[..0] == [];
      hide Stood, HandedOver, ColumnsAround, Kept;
      assert Handing(peer, start, center, wanted, 0, 0);
      hide Handing;
      sent := HandOutAll(peer, wanted, start, center);
    }

    /** Sends the columns a player can see from `center` and has not been sent, after the publisher
        update that lets the client accept them. */
    method StreamAround(peer: Peer, center: Place) returns (sent: nat)
      requires Valid() && (peer in players ==> Fits(center, players[peer].radius))
      modifies this`players, this`wire, this`handed, this`streams, world, ciphers.Values
      ensures Valid() && world.Snapshot() == old(world.Snapshot())
      ensures peer !in old(players) ==> sent == 0 && streams == old(streams) && handed == old(handed)
      ensures peer in old(players) ==>
                var before, after := old(streams[peer]), Streaming.StreamAround(old(streams[peer]), center);
                && streams == old(streams)[peer := after]
                && sent + 1 == |after.log| - |before.log|
                && |old(handed)| <= |handed| && handed[..|old(handed)|] == old(handed)
                && CarriesAll(handed[|old(handed)|..], peer, after.log[|before.log|..], before.player.feet, old(world.Snapshot()))
    {
      hide Stood, CarriesAll, ColumnsAround, HandOut, Worlds.World.Valid, Worlds.World.Snapshot;
      if peer !in players {
        return 0;
      }
      ghost var start := Now();
      ghost var wanted := ColumnsAround(center, players[peer].radius);
      sent := Walk(peer, center);
      assert wanted[..|wanted|] == wanted;
      EndOfWalk(players, streams, handed, start, peer, center);
      streams := streams[peer := Streaming.StreamAround(start.streams[peer], center)];
    }

    /** A new player: forgotten whatever was sent before, then sent the world around spawn. */
    method StreamWorld(peer: Peer, radius: i32) returns (columns: nat)
      requires Valid() && radius < 0x800_0000
      modifies this`players, this`wire, this`handed, this`streams, world, ciphers.Values
      ensures Valid() && world.Snapshot() == old(world.Snapshot())
      ensures streams == old(streams)[peer := Streaming.StreamWorld(radius, SPAWN_FEET)]
      ensures var log := streams[peer].log;
              && columns + 1 == |log|
              && |old(handed)| <= |handed| && handed[..|old(handed)|] == old(handed)
              && CarriesAll(handed[|old(handed)|..], peer, log, SPAWN_FEET, old(world.Snapshot()))
    {
      hide Handing, HandedOver, Stood, CarriesAll, ColumnsAround, HandOut, Worlds.FlatOk, Streaming.StreamAround;
      Join(peer, NewPlayer(radius, SPAWN_FEET));
      hide Valid;
      columns := StreamAround(peer, (0, 0));
      ghost var log := streams[peer].log;
      assert log[0..] == log;
    }

    method Join(peer: Peer, player: Player)
      requires Valid() && player.radius < 0x800_0000
      modifies this`players, this`streams
      ensures Valid() && players == old(players)[peer := player] && streams == old(streams)[peer := Stream(player, [], 0)]
    {
      players := players[peer := player];
      streams := streams[peer := Stream(player, [], 0)];
      hide Worlds.World.Valid;
    }

    /** A report of where the player is: streams when it lies in another column than the last. */
    method OnPlayerMoved(peer: Peer, m: Move) returns (streamed: Option<nat>)
      requires Valid()
      modifies this`players, this`wire, this`handed, this`streams, world, ciphers.Values
      ensures Valid() && world.Snapshot() == old(world.Snapshot())
      ensures peer !in old(players) ==> streams == old(streams) && streamed.None?
      ensures peer in old(players) ==>
                var before, after := old(streams[peer]), Moved(old(streams[peer]), m);
                && streams == old(streams)[peer := after]
                && (var c := after.player.center; c.0 * 16 <= m.x < c.0 * 16 + 16 && c.1 * 16 <= m.z < c.1 * 16 + 16)
                && (streamed.Some? <==> after.player.center != before.player.center)
                && |old(handed)| <= |handed| && handed[..|old(handed)|] == old(handed)
                && |before.log| <= |after.log|
                && CarriesAll(handed[|old(handed)|..], peer, after.log[|before.log|..], m.feet, old(world.Snapshot()))
    {
      if peer !in players {
        return None;
      }
      ghost var before := streams[peer];
      CenterIsUnderfoot(m);
      var player := players[peer].(position := (m.x, m.z), feet := m.feet);
      players := players[peer := player];
      streams := streams[peer := before.(player := player)];
      hide Handing, HandedOver, Stood, ColumnsAround, HandOut, Worlds.FlatOk, Streaming.StreamAround;
      if CenterOf(m) == player.center {
        return None;
      }
      var sent := StreamAround(peer, CenterOf(m));
      streamed := Some(sent);
    }
  }
}
