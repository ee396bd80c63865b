/** Worlds in which nothing grows back: what is there bounds how long anybody can live on it. */
module Scarcity {
  import opened Words
  import opened Random
  import opened Biology
  import opened Torus
  import opened Life
  import opened LifeProperties

  function Positive(e: int): nat {
    if e > 0 then e else 0
  }

  /** The energy of all agents, debts not counted. */
  function Vigor(agents: seq<Agent>): nat {
    if agents == [] then 0 else Positive(agents[0].energy) + Vigor(agents[1..])
  }

  /** The most energy that the land can still yield: forage efficiency is at most 3. */
  function Supply(land: ValidLand): nat {
    3 * Sum(land.food) + Sum(land.mineral)
  }

  function Wealth(w: World): nat {
    Vigor(w.agents) + Supply(w.land)
  }

  /** The agents that live and have energy. */
  function Well(agents: seq<Agent>): (n: nat)
    ensures n <= |agents|
  {
    if agents == [] then 0 else (if agents[0].alive && agents[0].energy > 0 then 1 else 0) + Well(agents[1..])
  }

  lemma {:induction false} MovesTake(a: Agent, t: Traits, n: nat, land: ValidLand, rng: Rng)
    ensures var r := Moves(a, t, n, land, rng).land;
            Sum(r.food) <= Sum(land.food) && Sum(r.mineral) <= Sum(land.mineral)
    decreases n
  {
    hide Sum, Step, CellOf;
    if n > 0 {
      var (dir, rng') := UniformInt(rng, 0, 3);
      var d := DirectionOf(dir);
      var (a', land') := Move(a, t, d, land);
      var i := CellOf(Step(a.pos, d, land), land);
      SumUpdate(land.food, i, 0);
      SumUpdate(land.mineral, i, 0);
      MovesTake(a', t, n - 1, land', rng');
    }
  }

  /**
   A step costs a live agent with energy at least one unit of what it and the land have together, and gives nobody
   any.
   */
  lemma StepCosts(a: Agent, land: ValidLand, rng: Rng)
    ensures var r := StepAgent(a, land, rng);
            Positive(r.agent.energy) + Supply(r.land) + Well([a]) <= Positive(a.energy) + Supply(land)
  {
    hide Moves, Sum, Surcharges;
    assert [a][1..] == [];
    if a.alive {
      var t := Decode(a.genome);
      var r := StepAgent(a, land, rng);
      MovesTake(a, t, t.speed, land, rng);
      StepLedger(a, land, rng);
      ForageAtMost(t.forage, Sum(land.food) - Sum(r.land.food));
    }
  }

  lemma ForageAtMost(f: int, n: nat)
    requires f <= 3
    ensures f * n <= 3 * n
  {
  }

  lemma {:induction false} StepsCost(agents: seq<Agent>, land: ValidLand, rng: Rng)
    ensures var r := StepAgents(agents, land, rng);
            Vigor(r.agents) + Supply(r.land) + Well(agents) <= Vigor(agents) + Supply(land)
  {
    hide StepAgent, Supply, Positive;
    if agents != [] {
      StepCosts(agents[0], land, rng);
      assert [agents[0]][1..] == [];
      var first := StepAgent(agents[0], land, rng);
      StepsCost(agents[1..], first.land, first.rng);
      var rest := StepAgents(agents[1..], first.land, first.rng).agents;
      assert ([first.agent] + rest)[1..] == rest;
    }
  }

  function BirthVigor(births: seq<Birth>): nat {
    if births == [] then 0 else Positive(births[0].energy) + BirthVigor(births[1..])
  }

  lemma {:induction false} BirthsShareVigor(agents: seq<Agent>, land: ValidLand, rng: Rng, rate: real)
    ensures var r := ReproduceAll(agents, land, rng, rate); Vigor(r.agents) + BirthVigor(r.births) == Vigor(agents)
    decreases agents
  {
    hide Reproduce;
    if agents != [] {
      OneBirthSharesEnergy(agents[0], land, rng, rate);
      var (a, birth, rng1) := Reproduce(agents[0], land, rng, rate);
      BirthsShareVigor(agents[1..], land, rng1, rate);
      var rest := ReproduceAll(agents[1..], land, rng1, rate);
      assert ([a] + rest.agents)[1..] == rest.agents;
      if birth.Some? {
        assert ([birth.value] + rest.births)[1..] == rest.births;
      } else {
        assert [] + rest.births == rest.births;
      }
    }
  }

  lemma {:induction false} ChildrenVigor(births: seq<Birth>, nextId: nat, hydration: int)
    ensures Vigor(Children(births, nextId, hydration)) == BirthVigor(births)
  {
    if births != [] {
      ChildrenVigor(births[1..], nextId + 1, hydration);
      assert Children(births, nextId, hydration)[1..] == Children(births[1..], nextId + 1, hydration);
    }
  }

  lemma {:induction false} VigorOfConcat(a: seq<Agent>, b: seq<Agent>)
    ensures Vigor(a + b) == Vigor(a) + Vigor(b)
  {
    if a == [] {
      assert a + b == b;
    } else {
      assert (a + b)[1..] == a[1..] + b;
      VigorOfConcat(a[1..], b);
    }
  }

  lemma {:induction false} SurvivorsVigor(agents: seq<Agent>)
    ensures Vigor(Survivors(agents)) <= Vigor(agents)
  {
    if agents != [] {
      SurvivorsVigor(agents[1..]);
      var rest := Survivors(agents[1..]);
      assert ([agents[0]] + rest)[1..] == rest && [] + rest == rest;
    }
  }

  /** Without regrowth every tick takes at least one unit of wealth for each agent that is well. */
  lemma TickCosts(w: World)
    requires w.cfg.foodSpawnRate <= 0.0
    ensures var w' := Tick(w);
            w'.cfg == w.cfg && Well(w'.agents) == |w'.agents| && Wealth(w') + Well(w.agents) <= Wealth(w)
  {
    hide StepAgents, ReproduceAll, GrowFrom, Survivors, Vigor, BirthVigor, Supply, Children, DeathEvents, BirthEvents,
         FoodRate, MineralRate, Fit, Well;
    TickThrives(w);
    WellAfterTick(Tick(w));
    StepsCost(w.agents, w.land, w.rng);
    var s := AfterSteps(w);
    BirthsShareVigor(s.agents, s.land, s.rng, s.cfg.mutationRate);
    var n := ReproduceAll(s.agents, s.land, s.rng, s.cfg.mutationRate);
    ChildrenVigor(n.births, s.nextId, s.cfg.startingHydration);
    VigorOfConcat(n.agents, Children(n.births, s.nextId, s.cfg.startingHydration));
    var b := AfterBirths(s);
    RatesNotPositive(b.cfg, b.tick);
    NothingGrowsAnywhere(b.land, 0, b.rng, FoodRate(b.cfg, b.tick), MineralRate(b.cfg));
    SurvivorsVigor(b.agents);
  }

  lemma WellAfterTick(w: World)
    requires Fit(w) && AllAlive(w.agents)
    ensures Well(w.agents) == |w.agents|
  {
    hide Inside, Fit;
    assert forall i :: 0 <= i < |w.agents| ==> w.agents[i].alive && w.agents[i].energy > 0 by {
      FitHasEnergy(w);
    }
    AllWell(w.agents);
  }

  lemma FitHasEnergy(w: World)
    requires Fit(w) && AllAlive(w.agents)
    ensures forall i :: 0 <= i < |w.agents| ==> w.agents[i].alive && w.agents[i].energy > 0
  {
    hide Inside;
  }

  lemma {:induction false} AllWell(agents: seq<Agent>)
    requires forall i :: 0 <= i < |agents| ==> agents[i].alive && agents[i].energy > 0
    ensures Well(agents) == |agents|
  {
    if agents != [] {
      AllWell(agents[1..]);
    }
  }

  /** The agents that were well at the start of each tick of a run, added up; after the first tick that is everybody. */
  function AgentTicks(w: World, t: nat): nat
    decreases t
  {
    if t == 0 then 0 else AgentTicks(w, t - 1) + Well(Ticks(w, t - 1).agents)
  }

  /**
   Life on what is left: without regrowth the populations of all ticks together never exceed the initial wealth, and
   after more ticks than that nobody is left, whatever is drawn, eaten and born.
   */
  lemma {:induction false} WealthRunsOut(w: World, t: nat)
    requires w.cfg.foodSpawnRate <= 0.0
    ensures Ticks(w, t).cfg == w.cfg && (t >= 1 ==> Well(Ticks(w, t).agents) == |Ticks(w, t).agents|)
    ensures Wealth(Ticks(w, t)) + AgentTicks(w, t) <= Wealth(w)
    ensures Well(Ticks(w, t).agents) > 0 ==> t <= AgentTicks(w, t) + 1
    ensures t > Wealth(w) ==> Ticks(w, t).agents == []
    decreases t
  {
    hide Tick, Wealth, Well;
    if t > 0 {
      WealthRunsOut(w, t - 1);
      var v := Ticks(w, t - 1);
      TickCosts(v);
      if v.agents == [] {
        NobodyFromNobody(v);
        WellOfNobody();
      }
    }
    SomebodyIsWealth(Ticks(w, t));
  }

  lemma NobodyFromNobody(w: World)
    requires w.agents == []
    ensures Tick(w).agents == []
  {
    hide GrowFrom;
  }

  lemma WellOfNobody()
    ensures Well([]) == 0
  {
  }

  lemma {:induction false} WellIsVigor(agents: seq<Agent>)
    ensures Well(agents) <= Vigor(agents)
  {
    if agents != [] {
      WellIsVigor(agents[1..]);
    }
  }

  lemma SomebodyIsWealth(w: World)
    ensures Well(w.agents) <= Wealth(w)
  {
    WellIsVigor(w.agents);
  }
}
