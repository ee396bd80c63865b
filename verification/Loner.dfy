/**
 One agent on one plain cell with minerals, which no first world has: how long it lives is exactly its energy and the
 minerals below it. On land that charges for entering, LifeProperties.Extinction gives the bound.
 */
module Loner {
  import opened Words
  import opened Random
  import opened Biology
  import opened Torus
  import opened Life
  import opened LifeProperties

  /** A slow, frugal agent alone on a plain cell with m minerals and no food or water. */
  ghost predicate Alone(w: World, energy: int, m: nat, hydration: int) {
    && w.cfg.foodSpawnRate <= 0.0
    && w.land == Land(1, 1, [Plain], [0], [0], [m])
    && |w.agents| == 1 && IsLoner(w.agents[0], energy, hydration)
  }

  ghost predicate IsLoner(a: Agent, energy: int, hydration: int) {
    && a.alive && a.energy == energy && a.hydration == hydration
    && a.genome[1] == 0 && a.genome[2] == 0 && a.genome[3] == 0
  }

  lemma LonerMoves(a: Agent, t: Traits, d: Direction, m: nat)
    ensures var (moved, rest) := Move(a, t, d, Land(1, 1, [Plain], [0], [0], [m]));
            && rest == Land(1, 1, [Plain], [0], [0], [0])
            && moved == a.(pos := moved.pos, energy := a.energy + m, hydration := a.hydration)
  {
    hide Index, WrapPosition;
    var land := Land(1, 1, [Plain], [0], [0], [m]);
    assert CellOf(Step(a.pos, d, land), land) == 0;
    assert 0 * t.forage == 0;
  }

  lemma LonerSteps(a: Agent, m: nat, rng: Rng, energy: int, hydration: int)
    requires IsLoner(a, energy, hydration) && hydration > 1
    ensures var r := StepAgent(a, Land(1, 1, [Plain], [0], [0], [m]), rng);
            && r.land == Land(1, 1, [Plain], [0], [0], [0])
            && r.agent.energy == energy + m - 1 && r.agent.hydration == hydration - 1
            && r.agent.alive == (energy + m - 1 > 0) && r.agent.genome == a.genome
  {
    hide MapByte, Move, UniformInt;
    var land := Land(1, 1, [Plain], [0], [0], [m]);
    var t := Decode(a.genome);
    assert t.speed == 1 && t.metabolism == 1;
    var (dir, rng') := UniformInt(rng, 0, 3);
    var (moved, rest) := Move(a, t, DirectionOf(dir), land);
    LonerMoves(a, t, DirectionOf(dir), m);
    assert Moves(moved, t, 0, rest, rng') == Acted(moved, rest, rng');
    assert Moves(a, t, 1, land, rng) == Acted(moved, rest, rng');
  }

  /** One tick: the minerals are gone, and what is left of the agent is one unit less. */
  lemma LonerTick(w: World, energy: int, m: nat, hydration: int)
    requires Alone(w, energy, m, hydration) && hydration > 1 && 1 <= energy && energy + m <= 50
    ensures if energy + m > 1 then Alone(Tick(w), energy + m - 1, 0, hydration - 1) else Tick(w).agents == []
    ensures Tick(w).cfg == w.cfg
  {
    hide StepAgent, GrowFrom, Mutate, MapByte;
    var a := w.agents[0];
    assert w.agents == [a] && [a][1..] == [];
    LonerSteps(a, m, w.rng, energy, hydration);
    var first := StepAgent(a, w.land, w.rng);
    var w1 := AfterSteps(w);
    assert StepAgents([], first.land, first.rng) == Phase([], first.land, first.rng);
    assert w1.agents == [first.agent] && [first.agent][1..] == [] && w1.land == first.land;
    assert Decode(first.agent.genome).reproductionThreshold == 50;
    var w2 := AfterBirths(w1);
    assert ReproduceAll([], w1.land, w1.rng, w1.cfg.mutationRate) == Nursery([], [], w1.rng);
    assert ReproduceAll(w1.agents, w1.land, w1.rng, w1.cfg.mutationRate)
        == Nursery([first.agent] + [], [] + [], w1.rng);
    assert Children([], w1.nextId, w1.cfg.startingHydration) == [];
    assert w2.agents == [first.agent] && w2.land == first.land;
    RatesNotPositive(w2.cfg, w2.tick);
    NothingGrowsAnywhere(w2.land, 0, w2.rng, FoodRate(w2.cfg, w2.tick), MineralRate(w2.cfg));
    assert AfterGrowth(w2).land == w2.land && AfterGrowth(w2).agents == [first.agent];
    assert Survivors([first.agent]) == if first.agent.alive then [first.agent] else [];
  }

  lemma NobodyStays(w: World)
    requires w.agents == []
    ensures Tick(w).agents == []
  {
    hide GrowFrom;
  }

  /**
   After t ticks the agent is there exactly if t is less than its energy and the minerals together, whatever is drawn.
   Where entering costs nothing, minerals prolong life by their number.
   */
  lemma {:induction false} LonerLives(w: World, energy: int, m: nat, hydration: int, t: nat)
    requires Alone(w, energy, m, hydration) && 1 <= energy && energy + m <= 50 && hydration > energy + m
    ensures |Ticks(w, t).agents| == if t < energy + m then 1 else 0
    ensures 1 <= t < energy + m ==> Alone(Ticks(w, t), energy + m - t, 0, hydration - t)
    decreases t
  {
    hide Tick;
    if t > 0 {
      LonerLives(w, energy, m, hydration, t - 1);
      var v := Ticks(w, t - 1);
      if t == 1 {
        LonerTick(w, energy, m, hydration);
      } else if t <= energy + m {
        LonerTick(v, energy + m - (t - 1), 0, hydration - (t - 1));
      } else {
        NobodyStays(v);
      }
      assert Ticks(w, t) == Tick(v);
    }
  }
}
