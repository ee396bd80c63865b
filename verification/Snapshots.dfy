/** What a snapshot of a world holds, and its text fields. */
module Snapshots {
  import opened Words
  import opened Biology
  import opened Torus
  import opened LifeProperties
  import opened BitFields
  import Base64
  import Hex
  import L = Life
  import E = Engine

  const VERSION := 2
  const NO_PARENT := 0xFFFF_FFFF_FFFF_FFFF

  datatype SnapshotAgent = SnapshotAgent(
    id: nat, pos: Position, energy: int, hydration: int, alive: bool, genome: Genome, parentId: nat, generation: nat)

  datatype Snapshot = Snapshot(
    version: int, tick: nat, width: nat, height: nat, seed: nat, agents: seq<SnapshotAgent>,
    food: seq<nat>, water: seq<nat>, mineral: seq<nat>, terrain: seq<byte>)

  function TerrainBytes(terrain: seq<Terrain>): (r: seq<byte>)
    ensures |r| == |terrain|
  {
    seq(|terrain|, i requires 0 <= i < |terrain| => TerrainCode(terrain[i]))
  }

  /** All that a snapshot keeps of an agent; the direction that it faces is not among it. */
  function Portrait(a: L.Agent): SnapshotAgent {
    SnapshotAgent(a.id, a.pos, a.energy, a.hydration, a.alive, a.genome,
                  if a.parent.Some? then a.parent.value else NO_PARENT, a.generation)
  }

  function Portraits(agents: seq<L.Agent>): (r: seq<SnapshotAgent>)
    ensures |r| == |agents|
  {
    seq(|agents|, i requires 0 <= i < |agents| => Portrait(agents[i]))
  }

  function SnapshotOf(w: L.World): Snapshot {
    Snapshot(VERSION, w.tick, w.cfg.width, w.cfg.height, w.cfg.seed, Portraits(w.agents),
             w.land.food, w.land.water, w.land.mineral, TerrainBytes(w.land.terrain))
  }

  /** What the picture of an agent shows of it; an agent without parent has the largest 64-bit number in its place. */
  ghost predicate Shows(s: SnapshotAgent, a: L.Agent) {
    && s.id == a.id && s.pos == a.pos && s.energy == a.energy && s.hydration == a.hydration
    && s.alive == a.alive && s.genome == a.genome && s.generation == a.generation
    && s.parentId == if a.parent == None then 0xFFFF_FFFF_FFFF_FFFF else a.parent.value
  }

  /** The snapshot shows every agent, and the terrain of every cell by its number. */
  lemma SnapshotShows(w: L.World)
    ensures var s := SnapshotOf(w);
            && |s.agents| == |w.agents| && forall i :: 0 <= i < |w.agents| ==> Shows(s.agents[i], w.agents[i])
    ensures var s := SnapshotOf(w);
            && |s.terrain| == |w.land.terrain|
            && forall i :: 0 <= i < |s.terrain| ==>
                 && 0 <= s.terrain[i] < 4 && w.land.terrain[i] == [Plain, Forest, Water, Rock][s.terrain[i]]
  {
    forall i | 0 <= i < |w.agents|
      ensures Shows(SnapshotOf(w).agents[i], w.agents[i])
    {
    }
  }

  /** Copies the world: its agents, and its grids cell by cell, row by row. */
  method CaptureSnapshot(world: E.World) returns (snap: Snapshot)
    requires world.Valid()
    ensures snap == SnapshotOf(world.Abs([]))
  {
    var agents: seq<SnapshotAgent> := [];
    for i := 0 to |world.agents|
      invariant agents == Portraits(world.agents[..i])
    {
      agents := agents + [Portrait(world.agents[i])];
    }
    assert world.agents[..|world.agents|] == world.agents;
    var food, water, mineral, terrain := CaptureGrids(world);
    snap := Snapshot(VERSION, world.tickCount, world.config.width, world.config.height, world.config.seed, agents,
                     food, water, mineral, terrain);
  }

  method CaptureGrids(world: E.World) returns (food: seq<nat>, water: seq<nat>, mineral: seq<nat>, terrain: seq<byte>)
    requires world.Valid()
    ensures food == world.food.cells[..] && water == world.water.cells[..] && mineral == world.mineral.cells[..]
    ensures terrain == TerrainBytes(world.terrain.cells[..])
  {
    hide Index, TerrainCode, Copied;
    var w, h := world.config.width, world.config.height;
    var total := w * h;
    var f, wa, m, t := new nat[total], new nat[total], new nat[total], new byte[total];
    NothingCopied(world, f, wa, m, t, w);
    for y := 0 to h
      invariant Copied(world, f, wa, m, t, Cell(0, y, w))
    {
      for x := 0 to w
        invariant Copied(world, f, wa, m, t, Cell(x, y, w))
      {
        E.IndexInside(x, y, w, h);
        CopyCell(world, f, wa, m, t, Position(x, y), Cell(x, y, w));
      }
      E.NextRow(y, w);
    }
    E.RowEnd(h, w);
    AllCopied(world, f, wa, m, t);
    return f[..], wa[..], m[..], t[..];
  }

  method CopyCell(world: E.World, food: array<nat>, water: array<nat>, mineral: array<nat>, terrain: array<byte>,
                  p: Position, idx: nat)
    requires world.Valid() && idx == Index(p, world.config.width, world.config.height)
    requires food.Length == water.Length == mineral.Length == terrain.Length
    requires food.Length == Area(world.config.width, world.config.height)
    requires {food, water, mineral} !! {world.food.cells, world.water.cells, world.mineral.cells}
    requires food != water && food != mineral && water != mineral
    requires Copied(world, food, water, mineral, terrain, idx)
    modifies food, water, mineral, terrain
    ensures Copied(world, food, water, mineral, terrain, idx + 1)
  {
    hide Index;
    food[idx] := world.food.At(p);
    water[idx] := world.water.At(p);
    mineral[idx] := world.mineral.At(p);
    terrain[idx] := TerrainCode(world.terrain.At(p));
  }

  lemma NothingCopied(world: E.World, food: array<nat>, water: array<nat>, mineral: array<nat>, terrain: array<byte>,
                      width: nat)
    requires world.Valid()
    requires food.Length == water.Length == mineral.Length == terrain.Length
    requires food.Length == Area(world.config.width, world.config.height)
    ensures Copied(world, food, water, mineral, terrain, Cell(0, 0, width))
  {
  }

  lemma AllCopied(world: E.World, food: array<nat>, water: array<nat>, mineral: array<nat>, terrain: array<byte>)
    requires world.Valid()
    requires food.Length == water.Length == mineral.Length == terrain.Length
    requires food.Length == Area(world.config.width, world.config.height)
    requires Copied(world, food, water, mineral, terrain, food.Length)
    ensures food[..] == world.food.cells[..] && water[..] == world.water.cells[..]
    ensures mineral[..] == world.mineral.cells[..]
    ensures terrain[..] == TerrainBytes(world.terrain.cells[..])
  {
  }

  /** The first n cells are copied. */
  ghost predicate Copied(world: E.World, food: array<nat>, water: array<nat>, mineral: array<nat>,
                         terrain: array<byte>, n: nat)
    requires world.Valid()
    requires food.Length == water.Length == mineral.Length == terrain.Length
    requires food.Length == Area(world.config.width, world.config.height)
    reads world.terrain.cells, world.food.cells, world.water.cells, world.mineral.cells, food, water, mineral, terrain
  {
    forall i :: 0 <= i < n && i < food.Length ==>
      && food[i] == world.food.cells[i] && water[i] == world.water.cells[i] && mineral[i] == world.mineral.cells[i]
      && terrain[i] == TerrainCode(world.terrain.cells[i])
  }

  // ---- The text fields ----

  datatype AgentFields = AgentFields(
    id: nat, x: int, y: int, energy: int, hydration: int, alive: bool, genome: string, parentId: nat, generation: nat)

  /** The numbers, and the texts of genomes and grids, that are written. */
  datatype Fields = Fields(
    version: int, tick: nat, width: nat, height: nat, seed: nat, agents: seq<AgentFields>,
    food: string, water: string, mineral: string, terrain: string)

  ghost predicate GridText(cells: seq<nat>, text: string) {
    exists packed :: IsPacked(packed, cells, |cells|) && text == Base64.Encode(AsBytes(packed))
  }

  function AgentText(a: SnapshotAgent): AgentFields {
    AgentFields(a.id, a.pos.x, a.pos.y, a.energy, a.hydration, a.alive, Hex.Text(a.genome), a.parentId, a.generation)
  }

  ghost predicate Written(s: Snapshot, f: Fields) {
    && f.version == s.version && f.tick == s.tick && f.width == s.width && f.height == s.height && f.seed == s.seed
    && |f.agents| == |s.agents| && (forall i :: 0 <= i < |s.agents| ==> f.agents[i] == AgentText(s.agents[i]))
    && GridText(s.food, f.food) && GridText(s.water, f.water) && GridText(s.mineral, f.mineral)
    && f.terrain == Base64.Encode(s.terrain)
  }

  method Write(s: Snapshot) returns (f: Fields)
    ensures Written(s, f)
  {
    hide IsPacked, Base64.Encode, Hex.Text;
    var agents: seq<AgentFields> := [];
    for i := 0 to |s.agents|
      invariant |agents| == i && forall k :: 0 <= k < i ==> agents[k] == AgentText(s.agents[k])
    {
      var a := s.agents[i];
      var genome := Hex.GenomeToHex(a.genome);
      var fields := AgentFields(
        a.id, a.pos.x, a.pos.y, a.energy, a.hydration, a.alive, genome, a.parentId, a.generation);
      agents := agents + [fields];
    }
    var food := EncodeGrid(s.food);
    var water := EncodeGrid(s.water);
    var mineral := EncodeGrid(s.mineral);
    var terrain := Base64.Base64Encode(s.terrain);
    f := Fields(s.version, s.tick, s.width, s.height, s.seed, agents, food, water, mineral, terrain);
  }

  /** Cut or filled up with zeros to a length. */
  function Resized(s: seq<byte>, n: nat): (r: seq<byte>)
    ensures |r| == n
  {
    if |s| >= n then s[..n] else s + seq(n - |s|, _ => 0)
  }

  function ReadAgents(fields: seq<AgentFields>): Option<seq<SnapshotAgent>> {
    if fields == [] then Some([])
    else
      var f := fields[0];
      var g := Hex.Read(f.genome);
      if g.None? then None
      else
        var rest := ReadAgents(fields[1..]);
        if rest.None? then None
        else
          var pos := Position(f.x, f.y);
          var a := SnapshotAgent(f.id, pos, f.energy, f.hydration, f.alive, g.value, f.parentId, f.generation);
          Some([a] + rest.value)
  }

  /** Reads the fields; None when the text of a genome or a grid is malformed. */
  function Read(f: Fields): Option<Snapshot> {
    var total := Area(f.width, f.height);
    var agents := ReadAgents(f.agents);
    var food, water, mineral := DecodeGrid(f.food, total), DecodeGrid(f.water, total), DecodeGrid(f.mineral, total);
    var terrain := Base64.Decode(f.terrain);
    if agents.None? || food.Err? || water.Err? || mineral.Err? || terrain.Err? then None
    else Some(Snapshot(f.version, f.tick, f.width, f.height, f.seed, agents.value,
                       food.value, water.value, mineral.value, Resized(terrain.value, total)))
  }

  lemma {:induction false} AgentsReadBack(agents: seq<SnapshotAgent>, fields: seq<AgentFields>)
    requires |agents| == |fields| && forall i :: 0 <= i < |agents| ==> fields[i] == AgentText(agents[i])
    ensures ReadAgents(fields) == Some(agents)
  {
    hide Hex.Read, Hex.Text;
    if agents != [] {
      Hex.ReadInvertsText(agents[0].genome);
      AgentsReadBack(agents[1..], fields[1..]);
      assert [agents[0]] + agents[1..] == agents;
    }
  }

  lemma GridReadBack(cells: seq<nat>, text: string)
    requires GridText(cells, text)
    ensures DecodeGrid(text, |cells|).Ok?
    ensures DecodeGrid(text, |cells|).value == cells <==> AllBits(cells)
  {
    hide IsPacked, Base64.Encode, Base64.Decode, Unpack;
    var packed :| IsPacked(packed, cells, |cells|) && text == Base64.Encode(AsBytes(packed));
    Base64.DecodeInvertsEncode(AsBytes(packed));
    BitsOfBytes(packed);
    UnpackInvertsPack(cells, packed);
  }

  /** A snapshot with a value for each cell. */
  ghost predicate FullGrids(s: Snapshot) {
    |s.food| == |s.water| == |s.mineral| == |s.terrain| == Area(s.width, s.height)
  }

  /** The fields of a snapshot always read back; they give the same snapshot exactly when all cells are 0 or 1. */
  lemma FieldsReadBack(s: Snapshot, f: Fields)
    requires Written(s, f) && FullGrids(s)
    ensures Read(f).Some?
    ensures Read(f).value == s <==> AllBits(s.food) && AllBits(s.water) && AllBits(s.mineral)
  {
    hide GridText, DecodeGrid, Base64.Decode, Base64.Encode, ReadAgents, AgentText, AllBits;
    GridReadBack(s.food, f.food);
    GridReadBack(s.water, f.water);
    GridReadBack(s.mineral, f.mineral);
    Base64.DecodeInvertsEncode(s.terrain);
    AgentsReadBack(s.agents, f.agents);
    assert Resized(s.terrain, |s.terrain|) == s.terrain;
  }

  /** Snapshots lose nothing that they hold of any world that any number of ticks reaches from one with 0/1 cells. */
  lemma ReachableWorldsReadBack(w: L.World, n: nat, f: Fields)
    requires BinaryLand(w.land) && w.land.width == w.cfg.width && w.land.height == w.cfg.height
    requires Written(SnapshotOf(L.Ticks(w, n)), f)
    ensures Read(f) == Some(SnapshotOf(L.Ticks(w, n)))
  {
    hide Written, Read, AllBits, L.Ticks, Portraits;
    TicksKeepBits(w, n);
    FieldsReadBack(SnapshotOf(L.Ticks(w, n)), f);
  }
}
