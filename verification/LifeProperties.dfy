/** Whole-run properties of the simulation, for every stream of random draws. */
module LifeProperties {
  import opened Words
  import opened Random
  import opened Biology
  import opened Torus
  import opened Life

  // ---- Extinction without food ----

  ghost predicate AllZero(cells: seq<nat>) {
    forall i :: 0 <= i < |cells| ==> cells[i] == 0
  }

  /** What entering terrain takes from the best swimmer; others pay as much or more. */
  function LeastSurcharge(t: Terrain): int {
    EntryCost(t, 3) - 1
  }

  /** Nothing to live on: no food, and nowhere more minerals than it costs to get there. */
  ghost predicate Barren(land: ValidLand) {
    AllZero(land.food) && forall i :: 0 <= i < |land.mineral| ==> land.mineral[i] <= LeastSurcharge(land.terrain[i])
  }

  /** No live agent has more energy than the bound. */
  ghost predicate EnergyAtMost(agents: seq<Agent>, bound: int) {
    forall i :: 0 <= i < |agents| && agents[i].alive ==> agents[i].energy <= bound
  }

  /** On barren land a move never gains energy. */
  lemma MoveOnBarrenLand(a: Agent, t: Traits, d: Direction, land: ValidLand)
    requires Barren(land)
    ensures var (a', land') := Move(a, t, d, land); Barren(land') && a'.energy <= a.energy
  {
    var i := CellOf(Step(a.pos, d, land), land);
    assert land.food[i] == 0 && land.mineral[i] <= LeastSurcharge(land.terrain[i]);
    assert 0 * t.forage == 0;
  }

  /** An agent as greedy, slow and frugal and as good a swimmer as genes can make it, one cell north of cell i. */
  function Greedy(land: ValidLand, i: nat): Agent
    requires i < |land.terrain|
  {
    var genome := seq(GENOME_LENGTH, _ => 255)[1 := 0][2 := 0];
    Agent(Position(i % land.width, i / land.width - 1), 1, 1, true, 0, genome, None, 0, North)
  }

  function GreedyGain(land: ValidLand, i: nat): int
    requires i < |land.terrain|
  {
    3 * land.food[i] + land.mineral[i] - LeastSurcharge(land.terrain[i])
  }

  lemma GreedyMoves(land: ValidLand, i: nat)
    requires i < |land.terrain|
    ensures var a := Greedy(land, i); Move(a, Decode(a.genome), South, land).0.energy == a.energy + GreedyGain(land, i)
  {
    hide MapByte, Step, CellOf, EntryCost;
    GreedyLands(land, i);
    var t := Decode(Greedy(land, i).genome);
    assert t.swim == 3 && t.forage == 3;
  }

  lemma GreedyLands(land: ValidLand, i: nat)
    requires i < |land.terrain|
    ensures CellOf(Step(Greedy(land, i).pos, South, land), land) == i
  {
    CellOnto(i, land.width, land.height);
    var p := Position(i % land.width, i / land.width);
    WrapKeepsCell(p, land.width, land.height);
    ModIs(p.x, land.width, 0, p.x);
    ModIs(p.y, land.height, 0, p.y);
  }

  lemma {:induction false} MovesOnBarrenLand(a: Agent, t: Traits, n: nat, land: ValidLand, rng: Rng)
    requires Barren(land)
    ensures var r := Moves(a, t, n, land, rng); Barren(r.land) && r.agent.energy <= a.energy
    decreases n
  {
    hide Move, Barren;
    if n > 0 {
      var (dir, rng') := UniformInt(rng, 0, 3);
      var (a', land') := Move(a, t, DirectionOf(dir), land);
      MoveOnBarrenLand(a, t, DirectionOf(dir), land);
      MovesOnBarrenLand(a', t, n - 1, land', rng');
    }
  }

  lemma StepOnBarrenLand(a: Agent, land: ValidLand, rng: Rng)
    requires Barren(land)
    ensures var r := StepAgent(a, land, rng);
            Barren(r.land) && (a.alive ==> r.agent.energy <= a.energy - 1) && (!a.alive ==> r.agent == a)
  {
    hide Moves, Barren;
    MovesOnBarrenLand(a, Decode(a.genome), Decode(a.genome).speed, land, rng);
  }

  lemma GreedySteps(land: ValidLand, i: nat)
    requires i < |land.terrain|
    ensures var a := Greedy(land, i);
            StepAgent(a, land, Rng(_ => 2, _ => 0.0, 0)).agent.energy == a.energy + GreedyGain(land, i) - 1
  {
    hide MapByte, Move, GreedyGain;
    var a, rng := Greedy(land, i), Rng(_ => 2, _ => 0.0, 0);
    var t := Decode(a.genome);
    assert t.speed == 1 && t.metabolism == 1;
    assert UniformInt(rng, 0, 3) == (2, rng.(used := 1)) && DirectionOf(2) == South;
    var (a', land') := Move(a, t, South, land);
    GreedyMoves(land, i);
    assert Moves(a', t, 0, land', rng.(used := 1)).agent == a';
    assert Moves(a, t, 1, land, rng).agent == a';
  }

  /**
   Barren land is exactly the land on which, wherever it stands and whatever is drawn, a step costs every live agent at
   least one energy.
   */
  lemma StepLosesExactly(land: ValidLand)
    ensures Barren(land) <==> forall a: Agent, rng :: a.alive ==> StepAgent(a, land, rng).agent.energy <= a.energy - 1
  {
    hide StepAgent;
    if Barren(land) {
      forall a: Agent, rng | a.alive
        ensures StepAgent(a, land, rng).agent.energy <= a.energy - 1
      {
        StepOnBarrenLand(a, land, rng);
      }
    }
    if forall a: Agent, rng :: a.alive ==> StepAgent(a, land, rng).agent.energy <= a.energy - 1 {
      forall i | 0 <= i < |land.terrain|
        ensures land.food[i] == 0 && land.mineral[i] <= LeastSurcharge(land.terrain[i])
      {
        var a := Greedy(land, i);
        GreedySteps(land, i);
        assert StepAgent(a, land, Rng(_ => 2, _ => 0.0, 0)).agent.energy <= a.energy - 1;
      }
    }
  }

  ghost predicate AllAlive(agents: seq<Agent>) {
    forall i :: 0 <= i < |agents| ==> agents[i].alive
  }

  lemma {:induction false} StepsOnBarrenLand(agents: seq<Agent>, land: ValidLand, rng: Rng, bound: int)
    requires Barren(land) && EnergyAtMost(agents, bound)
    ensures var r := StepAgents(agents, land, rng); Barren(r.land) && EnergyAtMost(r.agents, bound - 1)
  {
    hide StepAgent, Barren;
    if agents != [] {
      StepOnBarrenLand(agents[0], land, rng);
      var first := StepAgent(agents[0], land, rng);
      StepsOnBarrenLand(agents[1..], first.land, first.rng, bound);
    }
  }

  lemma {:induction false} BirthsShareEnergy(agents: seq<Agent>, land: ValidLand, rng: Rng, rate: real, bound: int)
    requires EnergyAtMost(agents, bound)
    ensures var r := ReproduceAll(agents, land, rng, rate);
            EnergyAtMost(r.agents, bound) && forall i :: 0 <= i < |r.births| ==> r.births[i].energy <= bound
    decreases agents
  {
    hide Reproduce;
    if agents != [] {
      var (a, birth, rng1) := Reproduce(agents[0], land, rng, rate);
      OneBirthSharesEnergy(agents[0], land, rng, rate);
      BirthsShareEnergy(agents[1..], land, rng1, rate, bound);
    }
  }

  lemma OneBirthSharesEnergy(a: Agent, land: ValidLand, rng: Rng, rate: real)
    ensures var (a', birth, _) := Reproduce(a, land, rng, rate);
            && a'.energy <= a.energy
            && (birth.Some? ==>
                  a'.energy + birth.value.energy == a.energy && birth.value.energy >= 25 && a'.energy >= 25)
            && (birth.Some? ==> birth.value.parent == a.id && birth.value.generation == a.generation + 1 && a.alive)
            && (birth.Some? ==> Inside(birth.value.pos, land.width, land.height))
            && a' == a.(energy := a'.energy)
            && (birth.None? ==> a' == a)
  {
    hide Mutate;
    WrapKeepsCell(Position(a.pos.x + OffsetX(North), a.pos.y + OffsetY(North)), land.width, land.height);
  }

  lemma ProductNotPositive(x: real, y: real)
    requires x <= 0.0 <= y
    ensures x * y <= 0.0
  {
  }

  lemma NoChance(t: Terrain, foodRate: real, mineralRate: real)
    requires foodRate <= 0.0 && mineralRate <= 0.0
    ensures FoodChance(t, foodRate) <= 0.0 && WaterChance(t, foodRate) <= 0.0 && MineralChance(t, mineralRate) <= 0.0
  {
    ProductNotPositive(foodRate, FoodRegen(t));
    ProductNotPositive(foodRate * 0.5, WaterRegen(t));
    ProductNotPositive(mineralRate, MineralRegen(t));
  }

  lemma {:induction false} NothingGrowsAnywhere(land: ValidLand, i: nat, rng: Rng, foodRate: real, mineralRate: real)
    requires i <= |land.terrain| && foodRate <= 0.0 && mineralRate <= 0.0
    ensures GrowFrom(land, i, rng, foodRate, mineralRate) == Grown(land, rng)
    decreases |land.terrain| - i
  {
    hide FoodChance, WaterChance, MineralChance;
    if i < |land.terrain| {
      NoChance(land.terrain[i], foodRate, mineralRate);
      assert GrowAt(land, i, rng, foodRate, mineralRate) == Grown(land, rng);
      NothingGrowsAnywhere(land, i + 1, rng, foodRate, mineralRate);
    }
  }

  lemma RatesNotPositive(cfg: Config, tick: nat)
    requires cfg.foodSpawnRate <= 0.0
    ensures FoodRate(cfg, tick) <= 0.0 && MineralRate(cfg) <= 0.0
  {
    ProductNotPositive(cfg.foodSpawnRate, SeasonFactor(tick, cfg.yearLength));
  }

  lemma {:induction false} SurvivorsAre(agents: seq<Agent>)
    ensures forall a :: a in Survivors(agents) <==> a in agents && a.alive
  {
    if agents != [] {
      SurvivorsAre(agents[1..]);
    }
  }

  /** One tick on barren land with no regrowth costs every live agent at least one energy. */
  lemma BarrenTick(w: World, bound: int)
    requires Barren(w.land) && w.cfg.foodSpawnRate <= 0.0 && EnergyAtMost(w.agents, bound)
    ensures var w' := Tick(w); Barren(w'.land) && w'.cfg == w.cfg && EnergyAtMost(w'.agents, bound - 1)
  {
    hide StepAgents, ReproduceAll, GrowFrom, Barren, FoodRate, MineralRate, Survivors, DeathEvents, BirthEvents;
    StepsOnBarrenLand(w.agents, w.land, w.rng, bound);
    var s := AfterSteps(w);
    BirthsShareEnergy(s.agents, s.land, s.rng, s.cfg.mutationRate, bound - 1);
    var b := AfterBirths(s);
    assert EnergyAtMost(b.agents, bound - 1);
    RatesNotPositive(b.cfg, b.tick);
    NothingGrowsAnywhere(b.land, 0, b.rng, FoodRate(b.cfg, b.tick), MineralRate(b.cfg));
    SurvivorsAre(b.agents);
    forall i | 0 <= i < |Survivors(b.agents)|
      ensures Survivors(b.agents)[i].energy <= bound - 1
    {
      assert Survivors(b.agents)[i] in Survivors(b.agents);
    }
  }

  lemma {:induction false} BarrenTicks(w: World, bound: int, n: nat)
    requires Barren(w.land) && w.cfg.foodSpawnRate <= 0.0 && EnergyAtMost(w.agents, bound)
    ensures var w' := Ticks(w, n); Barren(w'.land) && w'.cfg == w.cfg && EnergyAtMost(w'.agents, bound - n)
    decreases n
  {
    hide Tick, Barren, EnergyAtMost;
    if n > 0 {
      BarrenTicks(w, bound, n - 1);
      BarrenTick(Ticks(w, n - 1), bound - (n - 1));
    }
  }

  // ---- What every tick establishes ----

  /** An agent that lives has energy and water and stands inside the grid. */
  ghost predicate Thrives(a: Agent, width: nat, height: nat) {
    a.energy > 0 && a.hydration > 0 && Inside(a.pos, width, height)
  }

  ghost predicate LivingThrive(agents: seq<Agent>, width: nat, height: nat) {
    forall i :: 0 <= i < |agents| && agents[i].alive ==> Thrives(agents[i], width, height)
  }

  lemma {:induction false} MovesStayInside(a: Agent, t: Traits, n: nat, land: ValidLand, rng: Rng)
    ensures var r := Moves(a, t, n, land, rng);
            && r.land.width == land.width && r.land.height == land.height && r.land.terrain == land.terrain
            && r.agent == a.(pos := r.agent.pos, energy := r.agent.energy, hydration := r.agent.hydration)
            && (n > 0 ==> Inside(r.agent.pos, land.width, land.height))
    decreases n
  {
    if n > 0 {
      var (dir, rng') := UniformInt(rng, 0, 3);
      var d := DirectionOf(dir);
      WrapKeepsCell(Position(a.pos.x + OffsetX(d), a.pos.y + OffsetY(d)), land.width, land.height);
      var (a', land') := Move(a, t, d, land);
      MovesStayInside(a', t, n - 1, land', rng');
    }
  }

  /** What a step of an agent leaves alone, and what it decides. */
  lemma StepAgentEffect(a: Agent, land: ValidLand, rng: Rng)
    ensures var r := StepAgent(a, land, rng);
            && r.land.width == land.width && r.land.height == land.height && r.land.terrain == land.terrain
            && r.agent == a.(pos := r.agent.pos, energy := r.agent.energy,
                             hydration := r.agent.hydration, alive := r.agent.alive)
            && (r.agent.alive ==> a.alive && Thrives(r.agent, land.width, land.height))
            && (a.alive && !r.agent.alive ==> r.agent.energy <= 0 || r.agent.hydration <= 0)
  {
    hide Moves;
    MovesStayInside(a, Decode(a.genome), Decode(a.genome).speed, land, rng);
  }

  /** Stepping changes no identity: same ids, genomes and generations at the same places of the vector. */
  ghost predicate SameLineage(a: Agent, b: Agent) {
    a.id == b.id && a.genome == b.genome && a.parent == b.parent && a.generation == b.generation
  }

  lemma {:induction false} StepAgentsEffect(agents: seq<Agent>, land: ValidLand, rng: Rng)
    ensures var r := StepAgents(agents, land, rng);
            && r.land.width == land.width && r.land.height == land.height && r.land.terrain == land.terrain
            && (forall i :: 0 <= i < |agents| ==>
                  SameLineage(agents[i], r.agents[i]) && (r.agents[i].alive ==> agents[i].alive))
            && LivingThrive(r.agents, land.width, land.height)
  {
    hide StepAgent;
    if agents != [] {
      StepAgentEffect(agents[0], land, rng);
      var first := StepAgent(agents[0], land, rng);
      StepAgentsEffect(agents[1..], first.land, first.rng);
    }
  }

  lemma {:induction false} ReproduceAllEffect(agents: seq<Agent>, land: ValidLand, rng: Rng, rate: real)
    requires LivingThrive(agents, land.width, land.height)
    ensures var r := ReproduceAll(agents, land, rng, rate);
            && (forall i :: 0 <= i < |agents| ==> r.agents[i] == agents[i].(energy := r.agents[i].energy))
            && LivingThrive(r.agents, land.width, land.height)
            && (forall i :: 0 <= i < |r.births| ==>
                  r.births[i].energy > 0 && Inside(r.births[i].pos, land.width, land.height))
    decreases agents
  {
    hide Reproduce;
    if agents != [] {
      OneBirthSharesEnergy(agents[0], land, rng, rate);
      var (a, birth, rng1) := Reproduce(agents[0], land, rng, rate);
      ReproduceAllEffect(agents[1..], land, rng1, rate);
    }
  }

  lemma {:induction false} GrowKeepsShape(land: ValidLand, i: nat, rng: Rng, foodRate: real, mineralRate: real)
    requires i <= |land.terrain|
    ensures var r := GrowFrom(land, i, rng, foodRate, mineralRate).land;
            r.width == land.width && r.height == land.height && r.terrain == land.terrain
    decreases |land.terrain| - i
  {
    if i < |land.terrain| {
      var g := GrowAt(land, i, rng, foodRate, mineralRate);
      GrowKeepsShape(g.land, i + 1, g.rng, foodRate, mineralRate);
    }
  }

  /** Alive means alive with energy, inside the grid, and with water when agents are born with some. */
  ghost predicate Fit(w: World) {
    forall i :: 0 <= i < |w.agents| && w.agents[i].alive ==>
      && w.agents[i].energy > 0 && Inside(w.agents[i].pos, w.land.width, w.land.height)
      && (w.cfg.startingHydration > 0 ==> w.agents[i].hydration > 0)
  }

  ghost predicate SameFrame(w: World, w': World) {
    && w'.cfg == w.cfg && w'.land.width == w.land.width && w'.land.height == w.land.height
    && w'.land.terrain == w.land.terrain
  }

  lemma StepsLeaveFit(w: World)
    ensures Fit(AfterSteps(w)) && SameFrame(w, AfterSteps(w))
    ensures LivingThrive(AfterSteps(w).agents, w.land.width, w.land.height)
  {
    hide StepAgents;
    StepAgentsEffect(w.agents, w.land, w.rng);
  }

  lemma BirthsLeaveFit(w: World)
    requires LivingThrive(w.agents, w.land.width, w.land.height)
    ensures Fit(AfterBirths(w)) && SameFrame(w, AfterBirths(w))
  {
    hide ReproduceAll, BirthEvents;
    ReproduceAllEffect(w.agents, w.land, w.rng, w.cfg.mutationRate);
  }

  lemma GrowthLeavesFit(w: World)
    requires Fit(w)
    ensures Fit(AfterGrowth(w)) && SameFrame(w, AfterGrowth(w))
  {
    hide GrowFrom, FoodRate, MineralRate;
    GrowKeepsShape(w.land, 0, w.rng, FoodRate(w.cfg, w.tick), MineralRate(w.cfg));
  }

  lemma DeathsLeaveFit(w: World)
    requires Fit(w)
    ensures Fit(AfterDeaths(w)) && SameFrame(w, AfterDeaths(w)) && AllAlive(AfterDeaths(w).agents)
  {
    hide Survivors, DeathEvents;
    SurvivorsAre(w.agents);
    forall i | 0 <= i < |Survivors(w.agents)|
      ensures Survivors(w.agents)[i].alive && Survivors(w.agents)[i] in w.agents
    {
      assert Survivors(w.agents)[i] in Survivors(w.agents);
    }
  }

  /**
   After every tick, from any world whatever: each agent is alive, inside the grid, and has energy;
   and it has water, if agents are born with some.
   */
  lemma TickThrives(w: World)
    ensures Fit(Tick(w)) && AllAlive(Tick(w).agents) && SameFrame(w, Tick(w))
  {
    hide AfterSteps, AfterBirths, AfterGrowth, AfterDeaths;
    StepsLeaveFit(w);
    BirthsLeaveFit(AfterSteps(w));
    GrowthLeavesFit(AfterBirths(AfterSteps(w)));
    DeathsLeaveFit(AfterGrowth(AfterBirths(AfterSteps(w))));
  }

  /**
   Extinction: on barren land without regrowth, live agents of energy at most M hold at most M - t after t ticks,
   whatever is drawn and however often they reproduce, and after M ticks (and at least one) none is left.
   */
  lemma Extinction(w: World, M: int, t: nat)
    requires Barren(w.land) && w.cfg.foodSpawnRate <= 0.0 && EnergyAtMost(w.agents, M)
    ensures EnergyAtMost(Ticks(w, t).agents, M - t) && (t >= 1 ==> AllAlive(Ticks(w, t).agents))
    ensures M <= t && 1 <= t ==> Ticks(w, t).agents == []
  {
    hide Tick, Barren, EnergyAtMost, AllAlive, Fit;
    BarrenTicks(w, M, t);
    if 1 <= t {
      TickThrives(Ticks(w, t - 1));
      if M <= t {
        SomebodyHasEnergy(Ticks(w, t), M - t);
      }
    }
  }

  lemma SomebodyHasEnergy(w: World, bound: int)
    requires Fit(w) && AllAlive(w.agents) && bound <= 0
    ensures w.agents != [] ==> !EnergyAtMost(w.agents, bound)
  {
    hide Inside;
    if w.agents != [] {
      assert w.agents[0].energy > 0;
    }
  }

  // ---- Cells stay 0 or 1 ----

  ghost predicate AllBits(cells: seq<nat>) {
    forall i :: 0 <= i < |cells| ==> cells[i] <= 1
  }

  ghost predicate BinaryLand(land: ValidLand) {
    AllBits(land.food) && AllBits(land.water) && AllBits(land.mineral)
  }

  lemma {:induction false} MovesKeepBits(a: Agent, t: Traits, n: nat, land: ValidLand, rng: Rng)
    requires BinaryLand(land)
    ensures BinaryLand(Moves(a, t, n, land, rng).land)
    decreases n
  {
    if n > 0 {
      var (dir, rng') := UniformInt(rng, 0, 3);
      var (a', land') := Move(a, t, DirectionOf(dir), land);
      MovesKeepBits(a', t, n - 1, land', rng');
    }
  }

  lemma {:induction false} StepsKeepBits(agents: seq<Agent>, land: ValidLand, rng: Rng)
    requires BinaryLand(land)
    ensures BinaryLand(StepAgents(agents, land, rng).land)
  {
    if agents != [] {
      hide Moves, BinaryLand;
      MovesKeepBits(agents[0], Decode(agents[0].genome), Decode(agents[0].genome).speed, land, rng);
      var first := StepAgent(agents[0], land, rng);
      StepsKeepBits(agents[1..], first.land, first.rng);
    }
  }

  lemma GrowAtKeepsBits(land: ValidLand, i: nat, rng: Rng, foodRate: real, mineralRate: real)
    requires BinaryLand(land) && i < |land.terrain|
    ensures BinaryLand(GrowAt(land, i, rng, foodRate, mineralRate).land)
  {
    hide Chance, FoodChance, WaterChance, MineralChance;
  }

  lemma {:induction false} GrowthKeepsBits(land: ValidLand, i: nat, rng: Rng, foodRate: real, mineralRate: real)
    requires BinaryLand(land) && i <= |land.terrain|
    ensures BinaryLand(GrowFrom(land, i, rng, foodRate, mineralRate).land)
    decreases |land.terrain| - i
  {
    hide GrowAt, BinaryLand;
    if i < |land.terrain| {
      GrowAtKeepsBits(land, i, rng, foodRate, mineralRate);
      GrowAtKeepsSize(land, i, rng, foodRate, mineralRate);
      var g := GrowAt(land, i, rng, foodRate, mineralRate);
      GrowthKeepsBits(g.land, i + 1, g.rng, foodRate, mineralRate);
    }
  }

  lemma GrowAtKeepsSize(land: ValidLand, i: nat, rng: Rng, foodRate: real, mineralRate: real)
    requires i < |land.terrain|
    ensures |GrowAt(land, i, rng, foodRate, mineralRate).land.terrain| == |land.terrain|
  {
  }

  lemma TickKeepsBits(w: World)
    requires BinaryLand(w.land)
    ensures BinaryLand(Tick(w).land)
  {
    hide StepAgents, ReproduceAll, GrowFrom, FoodRate, MineralRate, Survivors, BinaryLand, DeathEvents, BirthEvents;
    hide Children;
    StepsKeepBits(w.agents, w.land, w.rng);
    var b := AfterBirths(AfterSteps(w));
    GrowthKeepsBits(b.land, 0, b.rng, FoodRate(b.cfg, b.tick), MineralRate(b.cfg));
  }

  /** Every reachable world has 0/1 cells, and the grid it started with. */
  lemma {:induction false} TicksKeepBits(w: World, n: nat)
    requires BinaryLand(w.land)
    ensures BinaryLand(Ticks(w, n).land) && SameFrame(w, Ticks(w, n))
    decreases n
  {
    hide Tick, BinaryLand;
    if n > 0 {
      TicksKeepBits(w, n - 1);
      TickKeepsBits(Ticks(w, n - 1));
      TickThrives(Ticks(w, n - 1));
    }
  }

  // ---- Where energy goes ----

  function Sum(cells: seq<nat>): nat {
    if cells == [] then 0 else cells[0] + Sum(cells[1..])
  }

  lemma {:induction false} SumUpdate(cells: seq<nat>, i: nat, v: nat)
    requires i < |cells|
    ensures Sum(cells[i := v]) == Sum(cells) - cells[i] + v
  {
    if i == 0 {
      assert cells[0 := v] == [v] + cells[1..];
    } else {
      assert cells[i := v][1..] == cells[1..][i - 1 := v];
      SumUpdate(cells[1..], i - 1, v);
    }
  }

  function TotalEnergy(agents: seq<Agent>): int {
    if agents == [] then 0 else agents[0].energy + TotalEnergy(agents[1..])
  }

  /** The terrain surcharges along the way of an agent. */
  function Surcharges(a: Agent, t: Traits, n: nat, land: ValidLand, rng: Rng): nat
    decreases n
  {
    if n == 0 then 0
    else
      var (dir, rng') := UniformInt(rng, 0, 3);
      var d := DirectionOf(dir);
      var (a', land') := Move(a, t, d, land);
      EntryCost(land.terrain[CellOf(Step(a.pos, d, land), land)], t.swim) - 1 + Surcharges(a', t, n - 1, land', rng')
  }

  lemma {:induction false} MovesLedger(a: Agent, t: Traits, n: nat, land: ValidLand, rng: Rng)
    ensures var r := Moves(a, t, n, land, rng);
            && r.agent.energy == a.energy + t.forage * (Sum(land.food) - Sum(r.land.food))
                                 + (Sum(land.mineral) - Sum(r.land.mineral)) - Surcharges(a, t, n, land, rng)
            && r.agent.hydration == a.hydration + t.forage * (Sum(land.water) - Sum(r.land.water))
    decreases n
  {
    hide Move, Sum, Step, EntryCost, CellOf;
    if n > 0 {
      var (dir, rng') := UniformInt(rng, 0, 3);
      var d := DirectionOf(dir);
      var (a', land') := Move(a, t, d, land);
      var r := Moves(a', t, n - 1, land', rng');
      MoveLedger(a, t, d, land);
      MovesLedger(a', t, n - 1, land', rng');
      Distribute(t.forage, Sum(land.food), Sum(land'.food), Sum(r.land.food));
      Distribute(t.forage, Sum(land.water), Sum(land'.water), Sum(r.land.water));
    }
  }

  lemma Distribute(f: int, a: int, b: int, c: int)
    ensures f * (a - b) + f * (b - c) == f * (a - c)
  {
  }

  lemma MoveLedger(a: Agent, t: Traits, d: Direction, land: ValidLand)
    ensures var (a', land') := Move(a, t, d, land);
            && a'.energy == a.energy + t.forage * (Sum(land.food) - Sum(land'.food))
                            + (Sum(land.mineral) - Sum(land'.mineral))
                            - (EntryCost(land.terrain[CellOf(Step(a.pos, d, land), land)], t.swim) - 1)
            && a'.hydration == a.hydration + t.forage * (Sum(land.water) - Sum(land'.water))
  {
    hide Step, EntryCost, CellOf, Sum;
    var i := CellOf(Step(a.pos, d, land), land);
    SumUpdate(land.food, i, 0);
    SumUpdate(land.water, i, 0);
    SumUpdate(land.mineral, i, 0);
    Commutes(land.food[i], t.forage);
    Commutes(land.water[i], t.forage);
    var (a', land') := Move(a, t, d, land);
    assert Sum(land.food) - Sum(land'.food) == land.food[i];
    assert Sum(land.water) - Sum(land'.water) == land.water[i];
  }

  lemma Commutes(a: int, b: int)
    ensures a * b == b * a
  {
  }

  /**
   What one agent's step adds to its energy: food by forage efficiency and minerals, less surcharges and metabolism.
   */
  function NetGain(a: Agent, land: ValidLand, rng: Rng): int {
    if !a.alive then 0
    else
      var t := Decode(a.genome);
      var r := StepAgent(a, land, rng);
      t.forage * (Sum(land.food) - Sum(r.land.food)) + (Sum(land.mineral) - Sum(r.land.mineral))
        - Surcharges(a, t, t.speed, land, rng) - t.metabolism
  }

  function NetGains(agents: seq<Agent>, land: ValidLand, rng: Rng): int {
    if agents == [] then 0
    else
      var first := StepAgent(agents[0], land, rng);
      NetGain(agents[0], land, rng) + NetGains(agents[1..], first.land, first.rng)
  }

  lemma StepLedger(a: Agent, land: ValidLand, rng: Rng)
    ensures StepAgent(a, land, rng).agent.energy == a.energy + NetGain(a, land, rng)
  {
    hide Moves, Surcharges, Sum;
    if a.alive {
      MovesLedger(a, Decode(a.genome), Decode(a.genome).speed, land, rng);
    }
  }

  /** The step phase changes the total energy by exactly the sum of those gains. */
  lemma {:induction false} StepPhaseLedger(agents: seq<Agent>, land: ValidLand, rng: Rng)
    ensures TotalEnergy(StepAgents(agents, land, rng).agents) == TotalEnergy(agents) + NetGains(agents, land, rng)
  {
    if agents != [] {
      hide StepAgent, NetGain;
      StepLedger(agents[0], land, rng);
      var first := StepAgent(agents[0], land, rng);
      StepPhaseLedger(agents[1..], first.land, first.rng);
      var rest := StepAgents(agents[1..], first.land, first.rng).agents;
      assert ([first.agent] + rest)[1..] == rest;
    }
  }

  function BirthEnergy(births: seq<Birth>): int {
    if births == [] then 0 else births[0].energy + BirthEnergy(births[1..])
  }

  lemma {:induction false} ReproductionSplits(agents: seq<Agent>, land: ValidLand, rng: Rng, rate: real)
    ensures var r := ReproduceAll(agents, land, rng, rate);
            TotalEnergy(r.agents) + BirthEnergy(r.births) == TotalEnergy(agents)
    decreases agents
  {
    if agents != [] {
      hide Reproduce;
      OneBirthSharesEnergy(agents[0], land, rng, rate);
      var (a, birth, rng1) := Reproduce(agents[0], land, rng, rate);
      ReproductionSplits(agents[1..], land, rng1, rate);
      var rest := ReproduceAll(agents[1..], land, rng1, rate);
      assert ([a] + rest.agents)[1..] == rest.agents;
      if birth.Some? {
        assert ([birth.value] + rest.births)[1..] == rest.births;
      } else {
        assert [] + rest.births == rest.births;
      }
    }
  }

  lemma {:induction false} ChildrenEnergy(births: seq<Birth>, nextId: nat, hydration: int)
    ensures TotalEnergy(Children(births, nextId, hydration)) == BirthEnergy(births)
  {
    if births != [] {
      ChildrenEnergy(births[1..], nextId + 1, hydration);
      assert Children(births, nextId, hydration)[1..] == Children(births[1..], nextId + 1, hydration);
    }
  }

  lemma {:induction false} TotalOfConcat(a: seq<Agent>, b: seq<Agent>)
    ensures TotalEnergy(a + b) == TotalEnergy(a) + TotalEnergy(b)
  {
    if a == [] {
      assert a + b == b;
    } else {
      assert (a + b)[1..] == a[1..] + b;
      TotalOfConcat(a[1..], b);
    }
  }

  /** Reproduction preserves the total energy exactly. */
  lemma ReproductionPreservesEnergy(w: World)
    ensures TotalEnergy(AfterBirths(w).agents) == TotalEnergy(w.agents)
  {
    hide ReproduceAll, TotalEnergy, BirthEnergy, BirthEvents;
    ReproductionSplits(w.agents, w.land, w.rng, w.cfg.mutationRate);
    var n := ReproduceAll(w.agents, w.land, w.rng, w.cfg.mutationRate);
    ChildrenEnergy(n.births, w.nextId, w.cfg.startingHydration);
    TotalOfConcat(n.agents, Children(n.births, w.nextId, w.cfg.startingHydration));
  }
}
