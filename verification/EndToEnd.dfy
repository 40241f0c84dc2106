/** The cores together: a column of the world, framed, encrypted and carried, is the column a client
    reads. */
module EndToEnd {
  import opened Integers
  import opened Wrappers
  import opened Blocks
  import opened Chunks
  import opened Batches
  import opened Ciphers
  import opened LevelChunks
  import Sections
  import Subchunks
  import Columns
  import SessionSpec
  import Servers
  import Streaming
  import Worlds

  lemma HeaderIsShort(p: Packet)
    requires p.id < 0x400 && p.sender < 4 && p.target < 4
    ensures |PacketBytes(p)| <= 5 + |p.body|
  {
    assert Power(0x80, 2) == 0x4000;
    assert Power(0x80, 4) == 0x1000_0000;
    Columns.VarintIsShort(Header(p), 5);
  }

  lemma ColumnIsFramable(x: i32, z: i32, sections: seq<Sections.Section>, biome: i32)
    requires ColumnOk(sections)
    ensures var packet := NewPacket(ID_LEVEL_CHUNK, Columns.ColumnBody(x, z, sections, biome));
            AllFramable([packet]) && TrimmedAll([packet]) == [packet]
  {
    var packet := NewPacket(ID_LEVEL_CHUNK, Columns.ColumnBody(x, z, sections, biome));
    Columns.ColumnReadsBack(x, z, sections, biome);
    hide Columns.ColumnBody, ColumnOk, Columns.ReadsAs, Subchunks.ReadLevelChunk, PacketBytes;
    HeaderIsShort(packet);
    TrimmedIsExact([packet]);
  }

  /** A column sent to a player: the payload is one the transport hands to the application, and a
      client in step decrypts and decodes it to one packet, whose body reads back as the same place and
      shows the runtime id of the world's block, or air, at every position. */
  lemma ColumnsReachTheClient(p: Primitives, sender: CipherState, client: CipherState,
                              x: i32, z: i32, sections: seq<Sections.Section>, biome: i32)
    requires p.Valid() && InStep(sender, client) && ColumnOk(sections)
    ensures var packet := NewPacket(ID_LEVEL_CHUNK, Columns.ColumnBody(x, z, sections, biome));
            var (after, payload) := SendEncrypted(p, sender, [packet]);
            var (heard, reading) := OnPayload(p, client, payload);
            && SessionSpec.IsApp(payload)
            && InStep(after, heard)
            && reading == Packets([packet])
            && var column := Subchunks.ReadLevelChunk(packet.body);
            && column.Some? && (column.value.x, column.value.z) == (x as int, z as int)
            && Columns.ReadsAs(column.value, sections)
  {
    var packet := NewPacket(ID_LEVEL_CHUNK, Columns.ColumnBody(x, z, sections, biome));
    Columns.ColumnReadsBack(x, z, sections, biome);
    ColumnIsFramable(x, z, sections, biome);
    OneBatch(p, sender, client, [packet]);
    hide Columns.ColumnBody, ColumnOk, Columns.ReadsAs, Subchunks.ReadLevelChunk, OnPayload, EncryptStep, InStep, TrimmedAll, AllFramable, BatchBytesWithMethod;
    assert SendEncrypted(p, sender, [packet]).1[0] == MARKER;
  }

  /** After any run of looks, writes and unloads of a world: the column a client reads for a place
      shows, at each of its positions, the block last written there since the column was last
      unloaded, or the natural one. */
  lemma ReachableColumnsReadBack(f: Worlds.Flat, ops: seq<Worlds.Op>, biome: i32, x: i32, y: int, z: i32)
    requires Worlds.FlatOk(f) && MIN_Y <= y < MAX_Y
    ensures var (cx, cz) := Worlds.ChunkOf(x, z);
            var (bx, bz) := Worlds.LocalOf(x, z);
            var column := Subchunks.ReadLevelChunk(Columns.ColumnBody(cx, cz, Worlds.ColumnAfter(f, ops, cx, cz), biome));
            && column.Some?
            && Columns.ClientId(column.value, bx, y, bz) == Some(WireId(Worlds.Remembered(f, ops, x, y, z)) as int)
  {
    var (cx, cz) := Worlds.ChunkOf(x, z);
    var (bx, bz) := Worlds.LocalOf(x, z);
    var sections := Worlds.ColumnAfter(f, ops, cx, cz);
    Worlds.ColumnsStayOk(f, ops, cx, cz);
    Columns.ColumnReadsBack(cx, cz, sections, biome);
    Worlds.WorldIsItsHistory(f, ops, x, y, z);
    Worlds.PositionsAreDistinct(x, z, x, z);
    var column := Subchunks.ReadLevelChunk(Columns.ColumnBody(cx, cz, sections, biome)).value;
    assert InColumn(bx, y, bz);
    hide Columns.ColumnBody, ColumnOk, Subchunks.ReadLevelChunk, Columns.ClientId, BlockIn, Worlds.ColumnAfter, Worlds.Remembered, InColumn;
    assert Columns.ShowsAt(column, sections, bx, y, bz);
  }

  /** The update a client reads, in blocks. */
  lemma UpdateReadsBack(packet: Packet, center: Streaming.Place, radius: nat, feet: i32, columns: imap<Streaming.Place, seq<Sections.Section>>)
    requires Servers.Carries(packet, Streaming.Publisher(center, radius), feet, columns)
    ensures packet.id == 121
    ensures Subchunks.ReadPublisher(packet.body) == Some((16 * center.0, feet as int, 16 * center.1, 16 * radius))
  {
    hide Subchunks.ReadPublisher, Subchunks.PublisherBody, Columns.ColumnBody, Servers.Carries;
    var update := Servers.UpdateCarried(packet, center, radius, feet, columns);
    Subchunks.PublisherReadsBack(update.0, feet, update.1, update.2);
  }

  /** A block's column lies within the radius of the update, both counted in blocks. */
  ghost predicate Reaches(update: (int, int, int, nat), at: Streaming.Place) {
    var (x, _, z, radius) := update;
    x - radius <= 16 * at.0 <= x + radius && z - radius <= 16 * at.1 <= z + radius
  }

  lemma NearIsReached(at: Streaming.Place, center: Streaming.Place, radius: nat, feet: i32)
    requires Streaming.Near(at, center, radius)
    ensures Reaches((16 * center.0, feet as int, 16 * center.1, 16 * radius), at)
  {
  }

  lemma {:induction false} OnlyWhatIsWanted(sent: set<Streaming.Place>, wanted: seq<Streaming.Place>)
    ensures AreWanted(Streaming.HandOut(sent, wanted).1, wanted)
    decreases |wanted|
  {
    if wanted != [] {
      var last := |wanted| - 1;
      OnlyWhatIsWanted(sent, wanted[..last]);
      assert wanted == wanted[..last] + [wanted[last]];
    }
  }

  ghost predicate AreWanted(out: seq<Streaming.Sent>, wanted: seq<Streaming.Place>) {
    forall i :: 0 <= i < |out| ==> out[i].Column? && out[i].at in wanted
  }

  /** Whenever columns are streamed, what is handed over is first an update, which the client reads as a
      point and a radius in blocks, and then columns it reaches. */
  lemma ColumnsAreAccepted(before: Streaming.Stream, center: Streaming.Place, handed: seq<(Servers.Peer, seq<Packet>)>,
                           peer: Servers.Peer, columns: imap<Streaming.Place, seq<Sections.Section>>)
    requires var after := Streaming.StreamAround(before, center);
             |before.log| <= |after.log|
             && Servers.CarriesAll(handed, peer, after.log[|before.log|..], before.player.feet, columns)
    ensures var log := Streaming.StreamAround(before, center).log[|before.log|..];
            var update := (16 * center.0, before.player.feet as int, 16 * center.1, 16 * before.player.radius);
            && |handed| == |log| > 0
            && Subchunks.ReadPublisher(handed[0].1[0].body) == Some(update)
            && forall i :: 0 < i < |log| ==> log[i].Column? && Reaches(update, log[i].at)
  {
    hide Subchunks.ReadPublisher, Servers.Carries, Streaming.Near, Reaches, Streaming.HandOut, Streaming.ColumnsAround, Streaming.Kept;
    var radius, feet := before.player.radius, before.player.feet;
    var wanted := Streaming.ColumnsAround(center, radius);
    var out := Streaming.HandOut(Streaming.Kept(before.player.sent, center, radius), wanted).1;
    var log := Streaming.StreamAround(before, center).log[|before.log|..];
    assert log == [Streaming.Publisher(center, radius)] + out;
    assert Servers.Carries(handed[0].1[0], log[0], feet, columns);
    UpdateReadsBack(handed[0].1[0], center, radius, feet, columns);
    OnlyWhatIsWanted(Streaming.Kept(before.player.sent, center, radius), wanted);
    Streaming.AroundIsTheSquare(center, radius);
    forall i | 0 < i < |log|
      ensures log[i].Column? && Reaches((16 * center.0, feet as int, 16 * center.1, 16 * radius), log[i].at)
    {
      assert log[i] == out[i - 1];
      assert out[i - 1].Column? && out[i - 1].at in wanted;
      NearIsReached(log[i].at, center, radius, feet);
    }
  }

  /** In the ids themselves, and counting blocks: in the column at (cx, cz) the client sees id 2706 at a
      place whose block, sixteen times the column and the place on, is stone last written or lying there,
      and 13094 at every other. */
  lemma StoneIsSeenAsStone(f: Worlds.Flat, ops: seq<Worlds.Op>, biome: i32, cx: int, cz: int, bx: nat, y: int, bz: nat)
    requires Worlds.FlatOk(f) && MIN_Y <= y < MAX_Y && bx < 16 && bz < 16
    requires -0x800_0000 <= cx < 0x800_0000 && -0x800_0000 <= cz < 0x800_0000
    ensures var column := Subchunks.ReadLevelChunk(Columns.ColumnBody(cx, cz, Worlds.ColumnAfter(f, ops, cx, cz), biome));
            && column.Some?
            && Columns.ClientId(column.value, bx, y, bz)
               == Some(if Worlds.Remembered(f, ops, 16 * cx + bx, y, 16 * cz + bz) == Block("minecraft:stone", []) then 2706 else 13094)
  {
    hide WireId, Worlds.Remembered, Worlds.ColumnAfter, Columns.ColumnBody, Subchunks.ReadLevelChunk, Columns.ClientId, Worlds.FlatOk;
    var x, z := 16 * cx + bx, 16 * cz + bz;
    Worlds.PositionIsItsParts(x, z);
    ReachableColumnsReadBack(f, ops, biome, x, y, z);
    OnlyStoneIsStone(Worlds.Remembered(f, ops, x, y, z));
  }

  lemma {:induction false} UnwrittenIsNatural(f: Worlds.Flat, ops: seq<Worlds.Op>, x: int, y: int, z: int)
    requires MIN_Y <= y < MAX_Y && forall n :: 0 <= n < |ops| ==> !ops[n].Put?
    ensures Worlds.Remembered(f, ops, x, y, z) == if y < f.surfaceHeight then STONE else AIR
    decreases |ops|
  {
    if ops != [] {
      UnwrittenIsNatural(f, ops[..|ops| - 1], x, y, z);
      hide Worlds.ColumnAfter;
    }
  }

  /** A world nobody wrote to is seen as stone exactly below its surface. */
  lemma FlatWorldIsSeen(f: Worlds.Flat, ops: seq<Worlds.Op>, biome: i32, cx: int, cz: int, bx: nat, y: int, bz: nat)
    requires Worlds.FlatOk(f) && MIN_Y <= y < MAX_Y && bx < 16 && bz < 16
    requires -0x800_0000 <= cx < 0x800_0000 && -0x800_0000 <= cz < 0x800_0000
    requires forall n :: 0 <= n < |ops| ==> !ops[n].Put?
    ensures var column := Subchunks.ReadLevelChunk(Columns.ColumnBody(cx, cz, Worlds.ColumnAfter(f, ops, cx, cz), biome));
            column.Some? && Columns.ClientId(column.value, bx, y, bz) == Some(if y < f.surfaceHeight then 2706 else 13094)
  {
    hide Worlds.Remembered, Worlds.ColumnAfter, Columns.ColumnBody, Subchunks.ReadLevelChunk, Columns.ClientId, Worlds.FlatOk;
    StoneIsSeenAsStone(f, ops, biome, cx, cz, bx, y, bz);
    UnwrittenIsNatural(f, ops, 16 * cx + bx, y, 16 * cz + bz);
  }
}
