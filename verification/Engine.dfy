/** The world and its simulation as the C++ classes: grids, agents and caches, updated in place. */
module Engine {
  import opened Words
  import opened Random
  import opened Biology
  import opened Torus
  import opened LifeProperties
  import opened Lineage
  import opened Census
  import L = Life

  /** The terrain that a roll from 0 to 99 selects. */
  function TerrainOf(roll: int): Terrain {
    if roll < 30 then Forest else if roll < 40 then Water else if roll < 50 then Rock else Plain
  }

  /** The generator n draws later. */
  ghost function Later(rng: Rng, n: nat): Rng {
    rng.(used := rng.used + n)
  }

  /** Minerals on rock cells from cell i on, three chances in ten for each. */
  ghost function Mine(terrain: seq<Terrain>, cells: seq<nat>, i: nat, rng: Rng): (seq<nat>, Rng)
    requires i <= |terrain| == |cells|
    decreases |terrain| - i
  {
    if i == |terrain| then (cells, rng)
    else if terrain[i] != Rock then Mine(terrain, cells, i + 1, rng)
    else
      var (lucky, rng') := Chance(rng, 0.3);
      Mine(terrain, if lucky then cells[i := 1] else cells, i + 1, rng')
  }

  ghost predicate Mined(terrain: seq<Terrain>, before: seq<nat>, after: seq<nat>) {
    |terrain| == |before| == |after|
    && forall i :: 0 <= i < |after| ==> after[i] == before[i] || (terrain[i] == Rock && after[i] == 1)
  }

  lemma {:induction false} MineOnRock(terrain: seq<Terrain>, cells: seq<nat>, i: nat, rng: Rng)
    requires i <= |terrain| == |cells|
    ensures Mined(terrain, cells, Mine(terrain, cells, i, rng).0)
    decreases |terrain| - i
  {
    if i < |terrain| {
      if terrain[i] == Rock {
        var (lucky, rng') := Chance(rng, 0.3);
        MineOnRock(terrain, if lucky then cells[i := 1] else cells, i + 1, rng');
      } else {
        MineOnRock(terrain, cells, i + 1, rng);
      }
    }
  }

  class World {
    const config: L.Config
    const terrain: Grid<Terrain>
    const food: Grid<nat>
    const water: Grid<nat>
    const mineral: Grid<nat>
    const agentCounts: Grid<nat>
    var agents: seq<L.Agent>
    var agentIndexMap: map<nat, nat>
    var rng: Rng
    var tickCount: nat
    var nextId: nat

    ghost predicate Fits<T(0)>(g: Grid<T>) {
      g.Valid() && g.width == config.width && g.height == config.height
    }

    ghost predicate Valid() {
      && Fits(terrain) && Fits(food) && Fits(water) && Fits(mineral) && Fits(agentCounts)
      && food.cells != water.cells && food.cells != mineral.cells && water.cells != mineral.cells
      && agentCounts.cells != food.cells && agentCounts.cells != water.cells && agentCounts.cells != mineral.cells
    }

    ghost function Ground(): (land: L.ValidLand)
      requires Valid()
      reads terrain.cells, food.cells, water.cells, mineral.cells
      ensures land.width == config.width && land.height == config.height
    {
      L.Land(config.width, config.height, terrain.cells[..], food.cells[..], water.cells[..], mineral.cells[..])
    }

    /** The world as a value, with a given log. */
    ghost function Abs(log: seq<L.Event>): L.World
      requires Valid()
      reads this, terrain.cells, food.cells, water.cells, mineral.cells
    {
      L.World(config, Ground(), agents, nextId, tickCount, rng, log)
    }

    constructor (config: L.Config, rng: Rng)
      requires config.width > 0 && config.height > 0
      ensures Valid() && this.config == config && this.rng == rng
      ensures fresh(terrain.cells) && fresh(food.cells) && fresh(water.cells) && fresh(mineral.cells)
      ensures fresh(agentCounts.cells)
      ensures agents == [] && nextId == 0 && tickCount == 0 && AllZero(agentCounts.cells[..])
      ensures AllZero(food.cells[..]) && AllZero(water.cells[..]) && AllZero(mineral.cells[..])
      ensures forall i :: 0 <= i < terrain.cells.Length ==> terrain.cells[i] == Plain
    {
      this.config := config;
      var terrain := new Grid<Terrain>(config.width, config.height, Plain);
      var food := new Grid<nat>(config.width, config.height, 0);
      var water := new Grid<nat>(config.width, config.height, 0);
      var mineral := new Grid<nat>(config.width, config.height, 0);
      var counts := new Grid<nat>(config.width, config.height, 0);
      this.terrain, this.food, this.water, this.mineral, agentCounts := terrain, food, water, mineral, counts;
      agents, agentIndexMap, this.rng, tickCount, nextId := [], map[], rng, 0, 0;
    }

    // ---- The first world ----

    /**
     Draws terrain cell by cell, scatters food on drawn cells, puts water exactly on water cells and minerals on the
     lucky rock cells, and spawns agents on drawn cells with drawn genomes.
     */
    method Init()
      requires Valid() && agents == [] && nextId == 0 && BinaryLand(Ground())
      modifies this`agents, this`nextId, this`rng, terrain.cells, food.cells, water.cells, mineral.cells
      ensures BinaryLand(Ground()) && Drawn(terrain.cells[..], old(rng))
      ensures Scattered(old(food.cells[..]), food.cells[..], Later(old(rng), terrain.cells.Length))
      ensures Watered(terrain.cells[..], old(water.cells[..]), water.cells[..])
      ensures var (minerals, r) := Mine(terrain.cells[..], old(mineral.cells[..]), 0, AfterFood(old(rng)));
              && mineral.cells[..] == minerals && Mined(terrain.cells[..], old(mineral.cells[..]), minerals)
              && forall i :: 0 <= i < |agents| ==> Founder(agents[i], Later(r, 18 * i)) && agents[i].id == i
      ensures InOrder(agents, nextId)
      ensures nextId == |agents| == if config.initialAgents > 0 then config.initialAgents else 0
      ensures config.startingEnergy > 0 ==> Fit(Abs([]))
    {
      hide Drawn, Scattered, Watered, Mined, Mine, FoodCell;
      DrawTerrain();
      ScatterFood();
      PlaceWater();
      assert rng == AfterFood(old(rng));
      MineOnRock(terrain.cells[..], mineral.cells[..], 0, rng);
      PlaceMinerals();
      ghost var r := rng;
      SpawnFounders();
      assert forall i :: 0 <= i < |agents| ==> Founder(agents[i], Later(r, 18 * i));
    }

    /** The generator after the draws for terrain and food. */
    ghost function AfterFood(start: Rng): Rng
      requires Valid()
    {
      Later(start, terrain.cells.Length + if config.initialFood > 0 then 2 * config.initialFood else 0)
    }

    /** The terrain of each cell is what its own draw selects. */
    ghost predicate Drawn(cells: seq<Terrain>, start: Rng) {
      forall i :: 0 <= i < |cells| ==> cells[i] == TerrainOf(UniformInt(Later(start, i), 0, 99).0)
    }

    method DrawTerrain()
      requires Valid()
      modifies this`rng, terrain.cells
      ensures Drawn(terrain.cells[..], old(rng)) && rng == Later(old(rng), terrain.cells.Length)
    {
      hide Index, TerrainOf;
      var w := config.width;
      for y := 0 to config.height
        invariant Cell(0, y, w) <= Area(w, config.height) && rng == Later(old(rng), Cell(0, y, w))
        invariant Drawn(terrain.cells[..Cell(0, y, w)], old(rng))
      {
        for x := 0 to w
          invariant Cell(x, y, w) <= Area(w, config.height) && rng == Later(old(rng), Cell(x, y, w))
          invariant Drawn(terrain.cells[..Cell(x, y, w)], old(rng))
        {
          IndexInside(x, y, w, config.height);
          var (roll, rng') := UniformInt(rng, 0, 99);
          rng := rng';
          terrain.Set(Position(x, y), TerrainOf(roll));
        }
        NextRow(y, w);
      }
      RowEnd(config.height, w);
      assert terrain.cells[..terrain.cells.Length] == terrain.cells[..];
    }

    /** The position that the next two draws give. */
    ghost function CellDrawn(start: Rng): Position
      requires config.width > 0 && config.height > 0
    {
      var (x, rng') := UniformInt(start, 0, config.width - 1);
      var (y, _) := UniformInt(rng', 0, config.height - 1);
      Position(x, y)
    }

    /** The cell of the k-th of the draws that scatter food. */
    ghost function FoodCell(start: Rng, k: nat): nat
      requires config.width > 0 && config.height > 0
    {
      Index(CellDrawn(Later(start, 2 * k)), config.width, config.height)
    }

    ghost predicate Scattered(before: seq<nat>, after: seq<nat>, start: Rng, count: int := config.initialFood)
      requires config.width > 0 && config.height > 0
    {
      && |after| == |before|
      && forall i :: 0 <= i < |after| ==>
           after[i] == if exists k :: 0 <= k < count && FoodCell(start, k) == i then 1 else before[i]
    }

    method ScatterFood()
      requires Valid() && AllBits(food.cells[..])
      modifies this`rng, food.cells
      ensures AllBits(food.cells[..]) && Scattered(old(food.cells[..]), food.cells[..], old(rng))
      ensures rng == Later(old(rng), if config.initialFood > 0 then 2 * config.initialFood else 0)
    {
      hide Index;
      var i := 0;
      while i < config.initialFood
        invariant 0 <= i && (i <= config.initialFood || i == 0)
        invariant rng == Later(old(rng), 2 * i)
        invariant AllBits(food.cells[..]) && Scattered(old(food.cells[..]), food.cells[..], old(rng), i)
      {
        var p := RandomCell();
        assert Index(p, config.width, config.height) == FoodCell(old(rng), i);
        food.Set(p, 1);
        i := i + 1;
      }
    }

    ghost predicate Watered(terrain: seq<Terrain>, before: seq<nat>, after: seq<nat>) {
      |terrain| == |before| == |after|
      && forall i :: 0 <= i < |after| ==> after[i] == if terrain[i] == Water then 1 else before[i]
    }

    method PlaceWater()
      requires Valid() && AllBits(water.cells[..])
      modifies water.cells
      ensures AllBits(water.cells[..]) && Watered(terrain.cells[..], old(water.cells[..]), water.cells[..])
    {
      hide Index;
      var w := config.width;
      for y := 0 to config.height
        invariant AllBits(water.cells[..]) && Cell(0, y, w) <= Area(w, config.height)
        invariant forall i :: 0 <= i < water.cells.Length ==>
                    water.cells[i] == if i < Cell(0, y, w) && terrain.cells[i] == Water then 1 else old(water.cells[i])
      {
        for x := 0 to w
          invariant AllBits(water.cells[..]) && Cell(x, y, w) <= Area(w, config.height)
          invariant forall i :: 0 <= i < water.cells.Length ==>
                      water.cells[i]
                      == if i < Cell(x, y, w) && terrain.cells[i] == Water then 1 else old(water.cells[i])
        {
          IndexInside(x, y, w, config.height);
          if terrain.At(Position(x, y)) == Water {
            water.Set(Position(x, y), 1);
          }
        }
        NextRow(y, w);
      }
      RowEnd(config.height, w);
    }

    method PlaceMinerals()
      requires Valid() && AllBits(mineral.cells[..])
      modifies this`rng, mineral.cells
      ensures AllBits(mineral.cells[..])
      ensures (mineral.cells[..], rng) == Mine(terrain.cells[..], old(mineral.cells[..]), 0, old(rng))
    {
      hide Index, Chance;
      var w := config.width;
      ghost var all := Mine(terrain.cells[..], mineral.cells[..], 0, rng);
      for y := 0 to config.height
        invariant AllBits(mineral.cells[..]) && Cell(0, y, w) <= Area(w, config.height)
        invariant all == Mine(terrain.cells[..], mineral.cells[..], Cell(0, y, w), rng)
      {
        for x := 0 to w
          invariant AllBits(mineral.cells[..]) && Cell(x, y, w) <= Area(w, config.height)
          invariant all == Mine(terrain.cells[..], mineral.cells[..], Cell(x, y, w), rng)
        {
          IndexInside(x, y, w, config.height);
          if terrain.At(Position(x, y)) == Rock {
            var (lucky, rng') := Chance(rng, 0.3);
            rng := rng';
            if lucky {
              mineral.Set(Position(x, y), 1);
            }
          }
        }
        NextRow(y, w);
      }
      RowEnd(config.height, w);
    }

    method SpawnFounders()
      requires Valid() && agents == [] && nextId == 0
      modifies this`agents, this`nextId, this`rng
      ensures nextId == |agents| == if config.initialAgents > 0 then config.initialAgents else 0
      ensures forall i :: 0 <= i < |agents| ==> Founder(agents[i], Later(old(rng), 18 * i)) && agents[i].id == i
    {
      var i := 0;
      while i < config.initialAgents
        invariant 0 <= i && (i <= config.initialAgents || i == 0)
        invariant nextId == i && |agents| == i && rng == Later(old(rng), 18 * i)
        invariant forall k :: 0 <= k < i ==> Founder(agents[k], Later(old(rng), 18 * k)) && agents[k].id == k
      {
        var p := RandomCell();
        var genome := RandomGenome();
        var id := SpawnAgent(p, config.startingEnergy, genome);
        i := i + 1;
      }
    }

    /** An agent as the first world spawns it: two draws for its place, and one for each gene. */
    ghost predicate Founder(a: L.Agent, start: Rng)
      requires config.width > 0 && config.height > 0
    {
      && a.alive && a.parent == None && a.generation == 0
      && a.energy == config.startingEnergy && a.hydration == config.startingHydration
      && a.pos == CellDrawn(start) && Inside(a.pos, config.width, config.height)
      && GenomeDrawn(a.genome, Later(start, 2))
    }

    ghost predicate GenomeDrawn(g: Genome, start: Rng) {
      forall i :: 0 <= i < GENOME_LENGTH ==> g[i] == UniformInt(Later(start, i), 0, 255).0
    }

    method RandomCell() returns (p: Position)
      requires Valid()
      modifies this`rng
      ensures p == CellDrawn(old(rng)) && Inside(p, config.width, config.height) && rng == Later(old(rng), 2)
    {
      var (x, rng') := UniformInt(rng, 0, config.width - 1);
      var (y, rng'') := UniformInt(rng', 0, config.height - 1);
      rng := rng'';
      p := Position(x, y);
    }

    method RandomGenome() returns (g: Genome)
      modifies this`rng
      ensures GenomeDrawn(g, old(rng)) && rng == Later(old(rng), GENOME_LENGTH)
    {
      g := seq(GENOME_LENGTH, _ => 0);
      for i := 0 to GENOME_LENGTH
        invariant rng == Later(old(rng), i)
        invariant forall k :: 0 <= k < i ==> g[k] == UniformInt(Later(old(rng), k), 0, 255).0
      {
        var (b, rng') := UniformInt(rng, 0, 255);
        rng := rng';
        g := g[i := b as byte];
      }
    }

    // ---- Agents and caches ----

    method SpawnAgent(pos: Position, energy: int, genome: Genome) returns (id: nat)
      modifies this`agents, this`nextId
      ensures id == old(nextId) && nextId == old(nextId) + 1
      ensures agents == old(agents) + [L.Agent(pos, energy, config.startingHydration, true, id, genome, None, 0, North)]
    {
      id := nextId;
      nextId := nextId + 1;
      agents := agents + [L.Agent(pos, energy, config.startingHydration, true, id, genome, None, 0, North)];
    }

    method SpawnChild(pos: Position, energy: int, genome: Genome, parent: nat, generation: nat) returns (id: nat)
      modifies this`agents, this`nextId
      ensures id == old(nextId) && nextId == old(nextId) + 1
      ensures var birth := L.Birth(pos, energy, genome, parent, generation);
              agents == old(agents) + [L.Child(birth, id, config.startingHydration)]
    {
      id := nextId;
      nextId := nextId + 1;
      var hydration := config.startingHydration;
      agents := agents + [L.Agent(pos, energy, hydration, true, id, genome, Some(parent), generation, North)];
    }

    /** Afterwards the counts and the index map are those that the lemmas of Census speak of. */
    method RebuildCaches()
      requires Valid()
      modifies this`agentIndexMap, agentCounts.cells
      ensures agentCounts.cells[..]
           == Counted(Zeros(Area(config.width, config.height)), agents, config.width, config.height)
      ensures agentIndexMap == IndexOf(agents, |agents|)
    {
      ClearCounts();
      agentIndexMap := map[];
      ghost var w, h := config.width, config.height;
      ghost var all := Counted(Zeros(Area(w, h)), agents, w, h);
      for i := 0 to |agents|
        invariant agentIndexMap == IndexOf(agents, i)
        invariant |agentCounts.cells[..]| == Area(w, h)
        invariant all == Counted(agentCounts.cells[..], agents[i..], w, h)
      {
        var a := agents[i];
        agentIndexMap := agentIndexMap[a.id := i];
        assert agents[i..][0] == a && agents[i..][1..] == agents[i + 1..];
        if a.alive {
          agentCounts.Set(a.pos, agentCounts.At(a.pos) + 1);
        }
      }
    }

    method ClearCounts()
      requires Valid()
      modifies agentCounts.cells
      ensures agentCounts.cells[..] == Zeros(Area(config.width, config.height))
    {
      var w := config.width;
      for y := 0 to config.height
        invariant forall k :: 0 <= k < Cell(0, y, w) && k < agentCounts.cells.Length ==> agentCounts.cells[k] == 0
      {
        for x := 0 to w
          invariant forall k :: 0 <= k < Cell(x, y, w) && k < agentCounts.cells.Length ==> agentCounts.cells[k] == 0
        {
          IndexInside(x, y, w, config.height);
          agentCounts.Set(Position(x, y), 0);
        }
        NextRow(y, w);
      }
      RowEnd(config.height, w);
    }

    method AgentCountAt(p: Position) returns (n: nat)
      requires Valid()
      ensures n == agentCounts.cells[Index(p, config.width, config.height)]
    {
      n := agentCounts.At(p);
    }

    /** None stands for SIZE_MAX. */
    method AgentIndexById(id: nat) returns (i: Option<nat>)
      ensures i == if id in agentIndexMap then Some(agentIndexMap[id]) else None
    {
      if id in agentIndexMap {
        return Some(agentIndexMap[id]);
      }
      return None;
    }

    // ---- Acting ----

    /** One of the moves of a step: pay, go, and take all that the cell holds. */
    method MoveAgent(agent: L.Agent, traits: Traits, d: Direction) returns (moved: L.Agent)
      requires Valid()
      modifies food.cells, water.cells, mineral.cells
      ensures (moved, Ground()) == L.Move(agent, traits, d, old(Ground()))
    {
      hide Index, WrapPosition, EntryCost, OffsetX, OffsetY;
      var target := WrapPosition(Position(agent.pos.x + OffsetX(d), agent.pos.y + OffsetY(d)),
                                 config.width, config.height);
      var t := terrain.At(target);
      var cost := PriceOf(t, traits.swim);
      moved := agent.(energy := agent.energy - (cost - 1), pos := target);
      moved := Harvest(moved, traits.forage);
    }

    /** Takes all food, water and minerals from where an agent stands. */
    method Harvest(agent: L.Agent, forage: int) returns (fed: L.Agent)
      requires Valid()
      modifies food.cells, water.cells, mineral.cells
      ensures var i, land := Index(agent.pos, config.width, config.height), old(Ground());
              && Ground()
                 == land.(food := land.food[i := 0], water := land.water[i := 0], mineral := land.mineral[i := 0])
              && fed == agent.(energy := agent.energy + land.food[i] * forage + land.mineral[i],
                               hydration := agent.hydration + land.water[i] * forage)
    {
      hide Index;
      var eaten := TakeAll(food, agent.pos);
      fed := agent.(energy := agent.energy + eaten * forage);
      var drunk := TakeAll(water, agent.pos);
      fed := fed.(hydration := fed.hydration + drunk * forage);
      var collected := TakeAll(mineral, agent.pos);
      fed := fed.(energy := fed.energy + collected);
    }

    /** Empties a cell if there is anything on it. */
    method TakeAll(g: Grid<nat>, p: Position) returns (amount: nat)
      requires Fits(g)
      modifies g.cells
      ensures amount == old(g.At(p))
      ensures g.cells[..] == old(g.cells[..])[Index(p, config.width, config.height) := 0]
    {
      amount := g.At(p);
      if amount > 0 {
        g.Set(p, 0);
      }
    }

    method StepAgent(i: nat)
      requires Valid() && i < |agents|
      modifies this`agents, this`rng, food.cells, water.cells, mineral.cells
      ensures var r := L.StepAgent(old(agents[i]), old(Ground()), old(rng));
              agents == old(agents)[i := r.agent] && Ground() == r.land && rng == r.rng
    {
      hide L.Move;
      var agent := agents[i];
      if !agent.alive {
        assert agents == old(agents)[i := agent];
        return;
      }
      var traits := Decode(agent.genome);
      ghost var all := L.Moves(agent, traits, traits.speed, Ground(), rng);
      for step := 0 to traits.speed
        invariant all == L.Moves(agent, traits, traits.speed - step, Ground(), rng)
        invariant agents == old(agents)
      {
        var (dirIndex, rng') := UniformInt(rng, 0, 3);
        rng := rng';
        agent := MoveAgent(agent, traits, DirectionOf(dirIndex));
      }
      agent := agent.(energy := agent.energy - traits.metabolism);
      agent := agent.(hydration := agent.hydration - 1);
      agent := agent.(alive := !(agent.energy <= 0 || agent.hydration <= 0));
      agents := agents[i := agent];
    }

    // ---- Reproduction ----

    /** Flips bits byte by byte, lowest bit first, each by its own draw. */
    method MutateGenome(genome: Genome) returns (g: Genome)
      modifies this`rng
      ensures (g, rng) == Mutate(genome, old(rng), config.mutationRate, 0)
    {
      hide Chance, FlipBit;
      g := genome;
      ghost var all := Mutate(genome, rng, config.mutationRate, 0);
      for i := 0 to GENOME_LENGTH
        invariant all == Mutate(g, rng, config.mutationRate, 8 * i)
      {
        for bit := 0 to 8
          invariant all == Mutate(g, rng, config.mutationRate, 8 * i + bit)
        {
          ghost var at := 8 * i + bit;
          assert at / 8 == i && at % 8 == bit;
          var (flip, rng') := Chance(rng, config.mutationRate);
          rng := rng';
          if flip {
            g := g[i := FlipBit(g[i], bit)];
          }
        }
      }
    }

    /** The part of reproduction that concerns one agent: it pays, and its child is noted down. */
    method ReproduceAgent(i: nat) returns (birth: Option<L.Birth>)
      requires Valid() && i < |agents|
      modifies this`agents, this`rng
      ensures var (a, b, r) := L.Reproduce(old(agents[i]), Ground(), old(rng), config.mutationRate);
              agents == old(agents)[i := a] && birth == b && rng == r
    {
      hide Mutate, WrapTo;
      var agent := agents[i];
      var traits := Decode(agent.genome);
      if !agent.alive || agent.energy < traits.reproductionThreshold {
        assert agents == old(agents)[i := agent];
        return None;
      }
      var (dirIndex, rng') := UniformInt(rng, 0, 3);
      rng := rng';
      var d := DirectionOf(dirIndex);
      var childPos := WrapPosition(Position(agent.pos.x + OffsetX(d), agent.pos.y + OffsetY(d)),
                                   config.width, config.height);
      var childEnergy := agent.energy / 2;
      agents := agents[i := agent.(energy := agent.energy - childEnergy)];
      var childGenome := MutateGenome(agent.genome);
      birth := Some(L.Birth(childPos, childEnergy, childGenome, agent.id, agent.generation + 1));
    }

    // ---- Regrowth ----

    method Grow(g: Grid<nat>, p: Position, rate: real)
      requires Fits(g)
      modifies g.cells, this`rng
      ensures var i := Index(p, config.width, config.height);
              var (cell, r) := L.GrowCell(old(g.cells[..])[i], old(rng), rate);
              g.cells[..] == old(g.cells[..])[i := cell] && rng == r
    {
      hide Chance, Index;
      if g.At(p) == 0 {
        var (grows, rng') := Chance(rng, rate);
        rng := rng';
        if grows {
          g.Set(p, 1);
        }
      }
    }

    method RespawnAt(p: Position, foodRate: real, mineralRate: real)
      requires Valid()
      modifies this`rng, food.cells, water.cells, mineral.cells
      ensures var i := Index(p, config.width, config.height);
              var r := L.GrowAt(old(Ground()), i, old(rng), foodRate, mineralRate);
              Ground() == r.land && rng == r.rng
    {
      hide L.GrowCell, Index, L.FoodChance, L.WaterChance, L.MineralChance;
      var t := terrain.At(p);
      Grow(food, p, L.FoodChance(t, foodRate));
      Grow(water, p, L.WaterChance(t, foodRate));
      Grow(mineral, p, L.MineralChance(t, mineralRate));
    }

    method RespawnResources()
      requires Valid()
      modifies this`rng, food.cells, water.cells, mineral.cells
      ensures var r := L.Respawn(old(Ground()), old(rng), config, tickCount); Ground() == r.land && rng == r.rng
    {
      hide L.FoodRate, L.MineralRate, L.GrowAt, Index;
      var foodRate, mineralRate := L.FoodRate(config, tickCount), L.MineralRate(config);
      var w := config.width;
      ghost var all := L.GrowFrom(Ground(), 0, rng, foodRate, mineralRate);
      for y := 0 to config.height
        invariant Cell(0, y, w) <= Area(w, config.height)
        invariant all == L.GrowFrom(Ground(), Cell(0, y, w), rng, foodRate, mineralRate)
      {
        for x := 0 to w
          invariant Cell(x, y, w) <= Area(w, config.height)
          invariant all == L.GrowFrom(Ground(), Cell(x, y, w), rng, foodRate, mineralRate)
        {
          IndexInside(x, y, w, config.height);
          RespawnAt(Position(x, y), foodRate, mineralRate);
        }
        NextRow(y, w);
      }
      RowEnd(config.height, w);
    }
  }

  /** The price of entering terrain; swimmers pay less in water, but never less than 1. */
  method PriceOf(t: Terrain, swim: int) returns (cost: int)
    ensures cost == EntryCost(t, swim)
  {
    cost := MovementCost(t);
    if t == Water && swim > 0 {
      cost := if cost - swim > 1 then cost - swim else 1;
    }
  }

  class Simulation {
    const world: World
    var log: seq<L.Event>

    constructor (world: World)
      ensures this.world == world && log == []
    {
      this.world, log := world, [];
    }

    ghost function Abs(): L.World
      requires world.Valid()
      reads this, world, world.terrain.cells, world.food.cells, world.water.cells, world.mineral.cells
    {
      world.Abs(log)
    }

    method StepAgents()
      requires world.Valid()
      modifies world`agents, world`rng, world.food.cells, world.water.cells, world.mineral.cells
      ensures Abs() == L.AfterSteps(old(Abs()))
    {
      hide L.StepAgent, L.StepAgents;
      ghost var all := L.StepAgents(world.agents, world.Ground(), world.rng);
      StepsNothing(world.agents, world.Ground(), world.rng);
      for i := 0 to |world.agents|
        invariant |world.agents| == |old(world.agents)|
        invariant all == SteppedFrom(world.agents, i, world.Ground(), world.rng)
      {
        StepsNext(world.agents, i, world.Ground(), world.rng);
        world.StepAgent(i);
      }
      StepsNothing(world.agents, world.Ground(), world.rng);
    }

    method ReproduceAgents()
      requires world.Valid()
      modifies this`log, world`agents, world`rng, world`nextId
      ensures Abs() == L.AfterBirths(old(Abs()))
    {
      var births := CollectBirths();
      Deliver(births);
    }

    /** Parents pay at once; the children wait until all agents have had their turn. */
    method CollectBirths() returns (births: seq<L.Birth>)
      requires world.Valid()
      modifies world`agents, world`rng
      ensures L.Nursery(world.agents, births, world.rng)
           == L.ReproduceAll(old(world.agents), world.Ground(), old(world.rng), world.config.mutationRate)
    {
      hide L.Reproduce, L.ReproduceAll;
      births := [];
      ghost var rate := world.config.mutationRate;
      ghost var land := world.Ground();
      ghost var all := L.ReproduceAll(world.agents, land, world.rng, rate);
      NoBirthsYet(all);
      for i := 0 to |world.agents|
        invariant |world.agents| == |old(world.agents)|
        invariant all == Prefixed(world.agents[..i], births, L.ReproduceAll(world.agents[i..], land, world.rng, rate))
      {
        ghost var before, rng := world.agents, world.rng;
        var birth := world.ReproduceAgent(i);
        BirthStep(before, births, land, rng, rate, i);
        SplitAt(before, world.agents[i], i);
        if birth.Some? {
          births := births + [birth.value];
        }
      }
      AllBorn(world.agents, births, land, world.rng, rate);
    }

    /** Children join the world in the order of the births, each with a line in the log. */
    method Deliver(births: seq<L.Birth>)
      modifies this`log, world`agents, world`nextId
      ensures world.agents == old(world.agents) + L.Children(births, old(world.nextId), world.config.startingHydration)
      ensures world.nextId == old(world.nextId) + |births|
      ensures log == old(log) + L.BirthEvents(births, old(world.nextId), world.tickCount)
    {
      hide L.Children, L.BirthEvents, L.Child;
      ghost var hydration := world.config.startingHydration;
      Delivered(births, world.nextId, hydration, world.tickCount, world.agents, log);
      assert births[0..] == births;
      for i := 0 to |births|
        invariant world.nextId == old(world.nextId) + i
        invariant world.agents + L.Children(births[i..], world.nextId, hydration)
               == old(world.agents) + L.Children(births, old(world.nextId), hydration)
        invariant log + L.BirthEvents(births[i..], world.nextId, world.tickCount)
               == old(log) + L.BirthEvents(births, old(world.nextId), world.tickCount)
      {
        var b := births[i];
        Delivered(births[i..], world.nextId, hydration, world.tickCount, world.agents, log);
        assert births[i..][1..] == births[i + 1..];
        var id := world.SpawnChild(b.pos, b.energy, b.genome, b.parent, b.generation);
        log := log + [L.Born(world.tickCount, id, b.parent, b.generation, b.genome)];
      }
      Delivered(births[|births|..], world.nextId, hydration, world.tickCount, world.agents, log);
    }

    /** Logs the dead, then removes them. */
    method ReapDead()
      requires world.Valid()
      modifies this`log, world`agents
      ensures Abs() == L.AfterDeaths(old(Abs()))
    {
      LogDeaths();
      EraseDead();
    }

    method LogDeaths()
      modifies this`log
      ensures log == old(log) + L.DeathEvents(world.agents, world.tickCount)
    {
      hide L.DeathEvents;
      var agents := world.agents;
      assert agents[0..] == agents;
      for i := 0 to |agents|
        invariant log + L.DeathEvents(agents[i..], world.tickCount) == old(log) + L.DeathEvents(agents, world.tickCount)
      {
        var a := agents[i];
        DeathStep(agents[i..], world.tickCount, log);
        assert agents[i..][1..] == agents[i + 1..];
        if !a.alive {
          log := log + [L.Died(world.tickCount, a.id, if a.hydration <= 0 then L.Dehydration else L.Starvation)];
        }
      }
      DeathStep(agents[|agents|..], world.tickCount, log);
    }

    method EraseDead()
      modifies world`agents
      ensures world.agents == L.Survivors(old(world.agents))
    {
      hide L.Survivors;
      var kept: seq<L.Agent> := [];
      var agents := world.agents;
      assert agents[0..] == agents && kept + L.Survivors(agents) == L.Survivors(agents);
      for i := 0 to |agents|
        invariant kept + L.Survivors(agents[i..]) == L.Survivors(agents)
      {
        SurvivorStep(agents[i..], kept);
        assert agents[i..][1..] == agents[i + 1..];
        if agents[i].alive {
          kept := kept + [agents[i]];
        }
      }
      SurvivorStep(agents[|agents|..], kept);
      world.agents := kept;
    }

    /** One tick of the classes is one tick of the model; the caches are those of the agents before it. */
    method Tick()
      requires world.Valid()
      modifies this`log, world, world.agentCounts.cells, world.food.cells, world.water.cells, world.mineral.cells
      ensures Abs() == L.Tick(old(Abs()))
      ensures world.agentCounts.cells[..]
           == Counted(Zeros(Area(world.config.width, world.config.height)), old(world.agents),
                      world.config.width, world.config.height)
      ensures world.agentIndexMap == IndexOf(old(world.agents), |old(world.agents)|)
    {
      hide L.AfterSteps, L.AfterBirths, L.AfterGrowth, L.AfterDeaths;
      world.RebuildCaches();
      StepAgents();
      ReproduceAgents();
      Respawn();
      ReapDead();
      world.tickCount := world.tickCount + 1;
    }

    method Respawn()
      requires world.Valid()
      modifies world`rng, world.food.cells, world.water.cells, world.mineral.cells
      ensures Abs() == L.AfterGrowth(old(Abs()))
    {
      world.RespawnResources();
    }

    method Run(n: nat)
      requires world.Valid()
      modifies this`log, world, world.agentCounts.cells, world.food.cells, world.water.cells, world.mineral.cells
      ensures Abs() == L.Ticks(old(Abs()), n)
    {
      hide L.Tick;
      for i := 0 to n
        invariant Abs() == L.Ticks(old(Abs()), i)
      {
        Tick();
      }
    }
  }

  /**
   The engine's main program without its input and output: a first world, then n ticks. Its log, replayed from the
   first agents, is the family history that leads to the last ones, and all cells are 0 or 1. Without food and regrowth
   nobody is left after as many ticks as agents start with energy: the minerals of a first world lie on rock, and
   entering rock costs what they are worth.
   */
  method Simulate(config: L.Config, rng: Rng, n: nat) returns (sim: Simulation, ghost first: L.World)
    requires config.width > 0 && config.height > 0
    ensures sim.world.Valid() && sim.Abs() == L.Ticks(first, n)
    ensures BinaryLand(first.land) && InOrder(first.agents, first.nextId) && first.log == [] && first.tick == 0
    ensures |first.agents| == if config.initialAgents > 0 then config.initialAgents else 0
    ensures BinaryLand(sim.world.Ground()) && InOrder(sim.world.agents, sim.world.nextId)
    ensures Replay(RegistryOf(first), sim.log) == Some(RegistryOf(sim.Abs()))
    ensures config.initialFood <= 0 ==> Barren(first.land)
    ensures config.initialFood <= 0 && config.foodSpawnRate <= 0.0 && config.startingEnergy <= n && 1 <= n ==>
              sim.world.agents == []
  {
    hide L.Ticks, InOrder, RegistryOf, Replay, RunEvents;
    var world := new World(config, rng);
    world.Init();
    ghost var scattered := config.initialFood <= 0;
    assert scattered ==> AllZero(world.food.cells[..]);
    assert scattered ==> Barren(world.Ground());
    assert EnergyAtMost(world.agents, config.startingEnergy);
    hide BinaryLand, Barren, EnergyAtMost;
    sim := new Simulation(world);
    first := sim.Abs();
    sim.Run(n);
    if config.initialFood <= 0 && config.foodSpawnRate <= 0.0 && config.startingEnergy <= n && 1 <= n {
      Extinction(first, config.startingEnergy, n);
    }
    TicksKeepBits(first, n);
    RunHistory(first, n);
    assert [] + RunEvents(first, n) == RunEvents(first, n);
  }

  /** A nursery with agents and births already dealt with in front. */
  ghost function Prefixed(agents: seq<L.Agent>, births: seq<L.Birth>, rest: L.Nursery): L.Nursery {
    L.Nursery(agents + rest.agents, births + rest.births, rest.rng)
  }

  lemma NoBirthsYet(all: L.Nursery)
    ensures Prefixed([], [], all) == all
  {
  }

  lemma BirthStep(agents: seq<L.Agent>, births: seq<L.Birth>, land: L.ValidLand, rng: Rng, rate: real, i: nat)
    requires i < |agents|
    ensures var (a, birth, rng') := L.Reproduce(agents[i], land, rng, rate);
            var born := if birth.Some? then [birth.value] else [];
            Prefixed(agents[..i], births, L.ReproduceAll(agents[i..], land, rng, rate))
            == Prefixed(agents[..i] + [a], births + born, L.ReproduceAll(agents[i + 1..], land, rng', rate))
  {
    hide L.Reproduce;
    var (a, birth, rng') := L.Reproduce(agents[i], land, rng, rate);
    var rest := L.ReproduceAll(agents[i + 1..], land, rng', rate);
    assert agents[i..][1..] == agents[i + 1..];
    assert agents[..i] + ([a] + rest.agents) == agents[..i] + [a] + rest.agents;
    var born := if birth.Some? then [birth.value] else [];
    assert births + (born + rest.births) == births + born + rest.births;
  }

  lemma AllBorn(agents: seq<L.Agent>, births: seq<L.Birth>, land: L.ValidLand, rng: Rng, rate: real)
    ensures Prefixed(agents[..|agents|], births, L.ReproduceAll(agents[|agents|..], land, rng, rate))
         == L.Nursery(agents, births, rng)
  {
  }

  lemma Delivered(births: seq<L.Birth>, next: nat, hydration: int, tick: nat, agents: seq<L.Agent>, log: seq<L.Event>)
    ensures births == [] ==>
              agents + L.Children(births, next, hydration) == agents && log + L.BirthEvents(births, next, tick) == log
    ensures births != [] ==> (
      && agents + [L.Child(births[0], next, hydration)] + L.Children(births[1..], next + 1, hydration)
         == agents + L.Children(births, next, hydration)
      && log + [L.Born(tick, next, births[0].parent, births[0].generation, births[0].genome)]
         + L.BirthEvents(births[1..], next + 1, tick)
         == log + L.BirthEvents(births, next, tick))
  {
  }

  lemma DeathStep(agents: seq<L.Agent>, tick: nat, log: seq<L.Event>)
    ensures agents == [] ==> log + L.DeathEvents(agents, tick) == log
    ensures agents != [] ==> (
      var cause := if agents[0].hydration <= 0 then L.Dehydration else L.Starvation;
      var log' := if agents[0].alive then log else log + [L.Died(tick, agents[0].id, cause)];
      log + L.DeathEvents(agents, tick) == log' + L.DeathEvents(agents[1..], tick))
  {
  }

  lemma SurvivorStep(agents: seq<L.Agent>, kept: seq<L.Agent>)
    ensures agents == [] ==> kept + L.Survivors(agents) == kept
    ensures agents != [] ==>
      kept + L.Survivors(agents) == (if agents[0].alive then kept + [agents[0]] else kept) + L.Survivors(agents[1..])
  {
    if agents != [] {
      BehindOne(kept, agents[0], L.Survivors(agents[1..]));
    }
  }

  lemma BehindOne(kept: seq<L.Agent>, a: L.Agent, rest: seq<L.Agent>)
    ensures kept + ([a] + rest) == kept + [a] + rest && kept + ([] + rest) == kept + rest
  {
  }

  /** The step phase, with all before agent i done. */
  ghost function SteppedFrom(agents: seq<L.Agent>, i: nat, land: L.ValidLand, rng: Rng): L.Phase
    requires i <= |agents|
  {
    var rest := L.StepAgents(agents[i..], land, rng);
    rest.(agents := agents[..i] + rest.agents)
  }

  lemma StepsNothing(agents: seq<L.Agent>, land: L.ValidLand, rng: Rng)
    ensures SteppedFrom(agents, 0, land, rng) == L.StepAgents(agents, land, rng)
    ensures SteppedFrom(agents, |agents|, land, rng) == L.Phase(agents, land, rng)
  {
    hide L.StepAgent;
    assert agents[0..] == agents;
    var rest := L.StepAgents(agents, land, rng);
    assert [] + rest.agents == rest.agents;
  }

  lemma StepsNext(agents: seq<L.Agent>, i: nat, land: L.ValidLand, rng: Rng)
    requires i < |agents|
    ensures var r := L.StepAgent(agents[i], land, rng);
            SteppedFrom(agents, i, land, rng) == SteppedFrom(agents[i := r.agent], i + 1, r.land, r.rng)
  {
    hide L.StepAgent;
    var r := L.StepAgent(agents[i], land, rng);
    SplitAt(agents, r.agent, i);
    var rest := L.StepAgents(agents[i + 1..], r.land, r.rng);
    assert agents[..i] + ([r.agent] + rest.agents) == (agents[..i] + [r.agent]) + rest.agents;
  }

  lemma SplitAt(agents: seq<L.Agent>, a: L.Agent, i: nat)
    requires i < |agents|
    ensures agents[i..][0] == agents[i] && agents[i..][1..] == agents[i := a][i + 1..]
    ensures agents[i := a][..i + 1] == agents[..i] + [a]
  {
  }

  lemma IndexInside(x: nat, y: nat, width: nat, height: nat)
    requires x < width && y < height
    ensures Index(Position(x, y), width, height) == Cell(x, y, width)
    ensures Cell(x, y, width) + 1 == Cell(x + 1, y, width) <= Area(width, height)
  {
    CellInside(x, y, width, height);
    ModIs(x, width, 0, x);
    ModIs(y, height, 0, y);
  }

  lemma NextRow(y: nat, width: nat)
    ensures Cell(width, y, width) == Cell(0, y + 1, width)
  {
    assert (y + 1) * width == y * width + width;
  }

  lemma RowEnd(height: nat, width: nat)
    ensures Cell(0, height, width) == Area(width, height)
  {
    assert height * width == width * height;
  }
}
