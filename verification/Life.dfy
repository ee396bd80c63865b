/** One tick of the world as a function: agents act, reproduce, resources grow back, the dead are removed. */
module Life {
  import opened Words
  import opened Random
  import opened Biology
  import opened Torus

  datatype Config = Config(
    width: nat, height: nat, initialAgents: int, initialFood: int, foodSpawnRate: real,
    startingEnergy: int, startingHydration: int, mutationRate: real, yearLength: int, seed: nat)

  datatype Agent = Agent(
    pos: Position, energy: int, hydration: int, alive: bool, id: nat, genome: Genome,
    parent: Option<nat>, generation: nat, facing: Direction)

  /** Terrain and resources, cell by cell. */
  datatype Land = Land(
    width: nat, height: nat, terrain: seq<Terrain>, food: seq<nat>, water: seq<nat>, mineral: seq<nat>)
  {
    ghost predicate Valid() {
      && width > 0 && height > 0
      && |terrain| == |food| == |water| == |mineral| == Area(width, height)
    }
  }

  type ValidLand = l: Land | l.Valid() witness Land(1, 1, [Plain], [0], [0], [0])

  function Step(p: Position, d: Direction, land: ValidLand): Position {
    WrapPosition(Position(p.x + OffsetX(d), p.y + OffsetY(d)), land.width, land.height)
  }

  function CellOf(p: Position, land: ValidLand): (i: nat)
    ensures i < |land.terrain|
  {
    Index(p, land.width, land.height)
  }

  // ---- Acting ----

  /** One move: pay for the terrain, then take all food, water and minerals of the new cell. */
  function Move(a: Agent, t: Traits, d: Direction, land: ValidLand): (Agent, ValidLand) {
    var target := Step(a.pos, d, land);
    var i := CellOf(target, land);
    var cost := EntryCost(land.terrain[i], t.swim);
    (a.(pos := target,
        energy := a.energy - (cost - 1) + land.food[i] * t.forage + land.mineral[i],
        hydration := a.hydration + land.water[i] * t.forage),
     land.(food := land.food[i := 0], water := land.water[i := 0], mineral := land.mineral[i := 0]))
  }

  datatype Acted = Acted(agent: Agent, land: ValidLand, rng: Rng)

  function Moves(a: Agent, t: Traits, n: nat, land: ValidLand, rng: Rng): Acted
    decreases n
  {
    if n == 0 then Acted(a, land, rng)
    else
      var (dir, rng') := UniformInt(rng, 0, 3);
      var (a', land') := Move(a, t, DirectionOf(dir), land);
      Moves(a', t, n - 1, land', rng')
  }

  function StepAgent(a: Agent, land: ValidLand, rng: Rng): Acted {
    if !a.alive then Acted(a, land, rng)
    else
      var t := Decode(a.genome);
      var m := Moves(a, t, t.speed, land, rng);
      var energy := m.agent.energy - t.metabolism;
      var hydration := m.agent.hydration - 1;
      m.(agent := m.agent.(energy := energy, hydration := hydration, alive := energy > 0 && hydration > 0))
  }

  datatype Phase = Phase(agents: seq<Agent>, land: ValidLand, rng: Rng)

  function StepAgents(agents: seq<Agent>, land: ValidLand, rng: Rng): (r: Phase)
    ensures |r.agents| == |agents|
  {
    if agents == [] then Phase([], land, rng)
    else
      var first := StepAgent(agents[0], land, rng);
      var rest := StepAgents(agents[1..], first.land, first.rng);
      rest.(agents := [first.agent] + rest.agents)
  }

  // ---- Reproducing ----

  datatype Birth = Birth(pos: Position, energy: int, genome: Genome, parent: nat, generation: nat)

  datatype Nursery = Nursery(agents: seq<Agent>, births: seq<Birth>, rng: Rng)

  /** Half of the energy goes to a child on a neighbouring cell. */
  function GiveBirth(a: Agent, land: ValidLand, rng: Rng, rate: real): (Agent, Birth, Rng) {
    var (dir, rng1) := UniformInt(rng, 0, 3);
    var childPos := Step(a.pos, DirectionOf(dir), land);
    var childEnergy := a.energy / 2;
    var (childGenome, rng2) := Mutate(a.genome, rng1, rate);
    (a.(energy := a.energy - childEnergy), Birth(childPos, childEnergy, childGenome, a.id, a.generation + 1), rng2)
  }

  /** A live agent with enough energy reproduces. */
  function Reproduce(a: Agent, land: ValidLand, rng: Rng, rate: real): (Agent, Option<Birth>, Rng) {
    var t := Decode(a.genome);
    if !a.alive || a.energy < t.reproductionThreshold then (a, None, rng)
    else
      var (parent, birth, rng') := GiveBirth(a, land, rng, rate);
      (parent, Some(birth), rng')
  }

  function ReproduceAll(agents: seq<Agent>, land: ValidLand, rng: Rng, rate: real): (r: Nursery)
    ensures |r.agents| == |agents|
  {
    if agents == [] then Nursery([], [], rng)
    else
      var (a, birth, rng1) := Reproduce(agents[0], land, rng, rate);
      var rest := ReproduceAll(agents[1..], land, rng1, rate);
      Nursery([a] + rest.agents, (if birth.Some? then [birth.value] else []) + rest.births, rest.rng)
  }

  function Child(b: Birth, id: nat, hydration: int): Agent {
    Agent(b.pos, b.energy, hydration, true, id, b.genome, Some(b.parent), b.generation, North)
  }

  /** The children of the births, with the next ids in order. */
  function Children(births: seq<Birth>, nextId: nat, hydration: int): (r: seq<Agent>)
    ensures |r| == |births|
    ensures forall i :: 0 <= i < |r| ==> r[i] == Child(births[i], nextId + i, hydration)
  {
    if births == [] then []
    else [Child(births[0], nextId, hydration)] + Children(births[1..], nextId + 1, hydration)
  }

  // ---- Resources ----

  function GrowCell(cell: nat, rng: Rng, rate: real): (nat, Rng) {
    if cell != 0 then (cell, rng)
    else
      var (grows, rng') := Chance(rng, rate);
      (if grows then 1 else 0, rng')
  }

  datatype Grown = Grown(land: ValidLand, rng: Rng)

  function FoodChance(t: Terrain, foodRate: real): real {
    foodRate * FoodRegen(t)
  }

  function WaterChance(t: Terrain, foodRate: real): real {
    foodRate * 0.5 * WaterRegen(t)
  }

  function MineralChance(t: Terrain, mineralRate: real): real {
    mineralRate * MineralRegen(t)
  }

  /** Regrowth of one cell: food, then water, then minerals. */
  function GrowAt(land: ValidLand, i: nat, rng: Rng, foodRate: real, mineralRate: real): Grown
    requires i < |land.terrain|
  {
    var t := land.terrain[i];
    var (food, rng1) := GrowCell(land.food[i], rng, FoodChance(t, foodRate));
    var (water, rng2) := GrowCell(land.water[i], rng1, WaterChance(t, foodRate));
    var (mineral, rng3) := GrowCell(land.mineral[i], rng2, MineralChance(t, mineralRate));
    var fed := land.(food := land.food[i := food], water := land.water[i := water]);
    Grown(fed.(mineral := land.mineral[i := mineral]), rng3)
  }

  function GrowFrom(land: ValidLand, i: nat, rng: Rng, foodRate: real, mineralRate: real): Grown
    requires i <= |land.terrain|
    decreases |land.terrain| - i
  {
    if i == |land.terrain| then Grown(land, rng)
    else
      var g := GrowAt(land, i, rng, foodRate, mineralRate);
      GrowFrom(g.land, i + 1, g.rng, foodRate, mineralRate)
  }

  function FoodRate(cfg: Config, tick: nat): real {
    cfg.foodSpawnRate * SeasonFactor(tick, cfg.yearLength)
  }

  /** Minerals know no seasons. */
  function MineralRate(cfg: Config): real {
    cfg.foodSpawnRate * 0.1
  }

  function Respawn(land: ValidLand, rng: Rng, cfg: Config, tick: nat): Grown {
    GrowFrom(land, 0, rng, FoodRate(cfg, tick), MineralRate(cfg))
  }

  // ---- Dying ----

  function Survivors(agents: seq<Agent>): seq<Agent> {
    if agents == [] then []
    else (if agents[0].alive then [agents[0]] else []) + Survivors(agents[1..])
  }

  datatype Cause = Dehydration | Starvation

  datatype Event =
    | Born(tick: nat, id: nat, parent: nat, generation: nat, genome: Genome)
    | Died(tick: nat, id: nat, cause: Cause)

  function BirthEvents(births: seq<Birth>, nextId: nat, tick: nat): seq<Event> {
    if births == [] then []
    else
      var b := births[0];
      [Born(tick, nextId, b.parent, b.generation, b.genome)] + BirthEvents(births[1..], nextId + 1, tick)
  }

  function DeathEvents(agents: seq<Agent>, tick: nat): seq<Event> {
    if agents == [] then []
    else
      (if agents[0].alive then []
       else [Died(tick, agents[0].id, if agents[0].hydration <= 0 then Dehydration else Starvation)])
      + DeathEvents(agents[1..], tick)
  }

  // ---- One tick ----

  datatype World = World(
    cfg: Config, land: ValidLand, agents: seq<Agent>, nextId: nat, tick: nat, rng: Rng, log: seq<Event>)

  function AfterSteps(w: World): World {
    var p := StepAgents(w.agents, w.land, w.rng);
    w.(agents := p.agents, land := p.land, rng := p.rng)
  }

  function AfterBirths(w: World): World {
    var n := ReproduceAll(w.agents, w.land, w.rng, w.cfg.mutationRate);
    w.(agents := n.agents + Children(n.births, w.nextId, w.cfg.startingHydration),
       nextId := w.nextId + |n.births|,
       rng := n.rng,
       log := w.log + BirthEvents(n.births, w.nextId, w.tick))
  }

  function AfterGrowth(w: World): World {
    var g := Respawn(w.land, w.rng, w.cfg, w.tick);
    w.(land := g.land, rng := g.rng)
  }

  function AfterDeaths(w: World): World {
    w.(agents := Survivors(w.agents), log := w.log + DeathEvents(w.agents, w.tick))
  }

  function Tick(w: World): World {
    var w' := AfterDeaths(AfterGrowth(AfterBirths(AfterSteps(w))));
    w'.(tick := w.tick + 1)
  }

  function Ticks(w: World, n: nat): World
    decreases n
  {
    if n == 0 then w else Tick(Ticks(w, n - 1))
  }
}
