/** What each intrinsic does to its agent and its world, to the unit, and what a whole run of a program adds up to. */
module Deeds {
  import opened Words
  import opened Random
  import opened Biology
  import opened Torus
  import opened Life
  import opened LifeProperties
  import opened AgentVm
  import opened Births
  import Walks
  import Census
  import M = Machine

  function Here(s: ValidScene): nat {
    CellOf(Me(s).pos, s.world.land)
  }

  /** Nothing has changed but the acting agent, to a. */
  ghost predicate OnlyAgent(s: ValidScene, s': ValidScene, a: Agent) {
    s' == s.(world := s.world.(agents := s.world.agents[s.me := a]))
  }

  /** At most cell i has changed, and now it is empty. */
  ghost predicate Emptied(before: seq<nat>, after: seq<nat>, i: nat) {
    |after| == |before| && forall j :: 0 <= j < |before| ==> after[j] == if j == i then 0 else before[j]
  }

  lemma EmptiedSum(cells: seq<nat>, i: nat)
    requires i < |cells|
    ensures Sum(cells) - Sum(cells[i := 0]) == cells[i]
  {
    hide Sum;
    SumUpdate(cells, i, 0);
  }

  // ---- One intrinsic ----

  /**
   Eating takes the food of the agent's own cell. What left the land, times the forage efficiency, is pushed and
   becomes energy, up to 100000.
   */
  lemma EatExactly(s: ValidScene)
    ensures var r := M.Eat; var reply := Handle(r, s);
            var s', a, forage := reply.world, Me(s), Decode(Me(s).genome).forage;
            var gained := forage * (Sum(s.world.land.food) - Sum(s'.world.land.food));
            && reply.pushed == [Wrap(gained)]
            && Emptied(s.world.land.food, s'.world.land.food, Here(s))
            && Me(s') == a.(energy := if s.world.land.food[Here(s)] == 0 then a.energy
                                      else if a.energy + gained < 100000 then a.energy + gained else 100000)
            && s' == s.(world := s.world.(agents := s.world.agents[s.me := Me(s')],
                                          land := s.world.land.(food := s'.world.land.food)))
  {
    hide Sum, CellOf, Decode;
    var i := Here(s);
    EmptiedSum(s.world.land.food, i);
    assert s.world.land.food[i] == 0 ==> s.world.land.food[i := 0] == s.world.land.food;
    assert s.world.agents[s.me := Me(s)] == s.world.agents;
  }

  /** Drinking does the same with water and hydration. */
  lemma DrinkExactly(s: ValidScene)
    ensures var reply := Handle(M.Drink, s);
            var s', a, forage := reply.world, Me(s), Decode(Me(s).genome).forage;
            var gained := forage * (Sum(s.world.land.water) - Sum(s'.world.land.water));
            && reply.pushed == [Wrap(gained)]
            && Emptied(s.world.land.water, s'.world.land.water, Here(s))
            && Me(s') == a.(hydration := if s.world.land.water[Here(s)] == 0 then a.hydration
                                         else if a.hydration + gained < 100000 then a.hydration + gained else 100000)
            && s' == s.(world := s.world.(agents := s.world.agents[s.me := Me(s')],
                                          land := s.world.land.(water := s'.world.land.water)))
  {
    hide Sum, CellOf, Decode;
    var i := Here(s);
    EmptiedSum(s.world.land.water, i);
    assert s.world.land.water[i] == 0 ==> s.world.land.water[i := 0] == s.world.land.water;
    assert s.world.agents[s.me := Me(s)] == s.world.agents;
  }

  function WayOf(d: Direction): nat {
    match d case North => 0 case East => 1 case South => 2 case West => 3
  }

  function CellAhead(s: ValidScene): Position {
    Walks.Neighbour(Me(s).pos, WayOf(Me(s).facing), s.world.land.width, s.world.land.height)
  }

  /** What entering the cell ahead takes beyond the ordinary. */
  function TollAhead(s: ValidScene): int {
    EntryCost(s.world.land.terrain[CellOf(CellAhead(s), s.world.land)], Decode(Me(s).genome).swim) - 1
  }

  lemma AheadIs(s: ValidScene)
    ensures Ahead(Me(s), s.world.land) == CellAhead(s)
  {
    hide Walks.Neighbour;
    Walks.StepsToNeighbour(Me(s).pos, WayOf(Me(s).facing), s.world.land);
  }

  /** Moving goes one cell ahead for the toll of its terrain, and pushes nothing; turning changes the direction only. */
  lemma MoveExactly(s: ValidScene)
    ensures Handle(M.Move, s).pushed == []
    ensures OnlyAgent(s, Handle(M.Move, s).world, Me(s).(pos := CellAhead(s), energy := Me(s).energy - TollAhead(s)))
    ensures Handle(M.TurnLeft, s).pushed == [] && Handle(M.TurnRight, s).pushed == []
    ensures var way := WayOf(Me(s).facing);
            && OnlyAgent(s, Handle(M.TurnRight, s).world, Me(s).(facing := DirectionOf((way + 1) % 4)))
            && OnlyAgent(s, Handle(M.TurnLeft, s).world, Me(s).(facing := DirectionOf((way + 3) % 4)))
  {
    hide Ahead, CellAhead, CellOf, EntryCost, Decode;
    AheadIs(s);
    Walks.TurnsAreQuarters(WayOf(Me(s).facing));
  }

  /**
   Reproducing below the threshold pushes 0 and does nothing; otherwise it pushes 1, the agent keeps the larger half of
   its energy, and a newborn joins at the end.
   */
  lemma ReproduceExactly(s: ValidScene)
    ensures var reply, a, w := Handle(M.Reproduce, s), Me(s), s.world;
            if a.energy < Decode(a.genome).reproductionThreshold then reply == M.Reply(s, [0])
            else
              var agents := reply.world.world.agents;
              && reply.pushed == [1] && |agents| == |w.agents| + 1
              && agents[..|w.agents|] == w.agents[s.me := a.(energy := a.energy - a.energy / 2)]
              && Newborn(agents[|w.agents|], a, w.nextId, w)
              && reply.world == s.(world := w.(agents := agents, nextId := w.nextId + 1, rng := reply.world.world.rng))
  {
    hide Mutate, Step, Decode, Beside, Inherits;
    var a, w := Me(s), s.world;
    if a.energy >= Decode(a.genome).reproductionThreshold {
      var (parent, birth, rng) := GiveBirth(a, w.land, w.rng, w.cfg.mutationRate);
      var live := a.(alive := true);
      BirthIs(live, w.land, w.rng, w.cfg.mutationRate);
      assert Fertile(live);
      assert GiveBirth(live, w.land, w.rng, w.cfg.mutationRate).1 == birth;
    }
  }

  /** Looking pushes the terrain's number, food, water and agent count of the own cell, or of the cell ahead. */
  lemma LookExactly(s: ValidScene)
    ensures var land, i, j := s.world.land, Here(s), CellOf(CellAhead(s), s.world.land);
            && Handle(M.Perceive, s)
               == M.Reply(s, [TerrainCode(land.terrain[i]), Wrap(land.food[i]), Wrap(land.water[i]), Wrap(s.counts[i])])
            && Handle(M.Look, s)
               == M.Reply(s, [TerrainCode(land.terrain[j]), Wrap(land.food[j]), Wrap(land.water[j]), Wrap(s.counts[j])])
  {
    hide CellAhead, Ahead, CellOf;
    AheadIs(s);
  }

  lemma TerrainNumbers()
    ensures TerrainCode(Plain) == 0 && TerrainCode(Forest) == 1 && TerrainCode(Water) == 2 && TerrainCode(Rock) == 3
  {
  }

  /** With counts as a rebuild leaves them, the last value is the number of live agents on the cell. */
  lemma PerceiveCountsTheLiving(s: ValidScene, agents: seq<Agent>)
    requires var land := s.world.land;
             s.counts == Census.Counted(Census.Zeros(Area(land.width, land.height)), agents, land.width, land.height)
    ensures var land := s.world.land;
            && Handle(M.Perceive, s).pushed[3] == Wrap(Census.Headcount(agents, Me(s).pos, land.width, land.height))
            && Handle(M.Look, s).pushed[3] == Wrap(Census.Headcount(agents, CellAhead(s), land.width, land.height))
  {
    hide CellAhead, Census.Counted, Census.Headcount, Index;
    LookExactly(s);
    Census.RebuiltCounts(agents, Me(s).pos, s.world.land.width, s.world.land.height);
    Census.RebuiltCounts(agents, CellAhead(s), s.world.land.width, s.world.land.height);
  }

  /** Reading oneself pushes the energy, the hydration or a trait by its number, or 0 for a number without a trait. */
  lemma ReadExactly(s: ValidScene, id: byte)
    ensures var a, t := Me(s), Decode(Me(s).genome);
            && Handle(M.MyEnergy, s) == M.Reply(s, [Wrap(a.energy)])
            && Handle(M.MyHydration, s) == M.Reply(s, [Wrap(a.hydration)])
            && Handle(M.MyTrait(id), s).world == s
            && (id > 5 ==> Handle(M.MyTrait(id), s).pushed == [0])
            && (id <= 5 ==>
                  Handle(M.MyTrait(id), s).pushed
                  == [Wrap([t.vision, t.speed, t.metabolism, t.reproductionThreshold, t.swim, t.forage][id])])
  {
    hide Decode;
  }

  // ---- A whole run ----

  /** An intrinsic that is carried out, and the scene that it finds. */
  datatype Deed = Deed(i: M.Intrinsic, before: ValidScene)

  /** Whether the next instruction is an intrinsic that reaches its handler. */
  predicate Acts(bc: M.Bytecode, s: M.State<ValidScene>) {
    && !s.halted && s.pc < |bc.code| && 0x80 <= bc.code[s.pc] <= 0x8A
    && (bc.code[s.pc] == 0x8A ==> s.pc + 1 < |bc.code|)
  }

  /** All deeds of a run, in order; the last of them may be one whose replies find no room. */
  ghost function DeedsOf(bc: M.Bytecode, s: M.State<ValidScene>, budget: int): seq<Deed>
    requires |s.locals| == M.MAX_LOCALS
    decreases if budget > 0 then budget else 0
  {
    var cost := M.CostAt(bc.code, s.pc);
    if budget <= 0 || budget < cost then []
    else
      var (s', status) := M.Step(bc, Some(Handle), s);
      var rest := if status == M.Running then DeedsOf(bc, s', budget - cost) else [];
      if Acts(bc, s) then
        [Deed(M.IntrinsicOf(bc.code[s.pc], if bc.code[s.pc] == 0x8A then bc.code[s.pc + 1] else 0), s.world)] + rest
      else rest
  }

  /** The deeds lead from one scene to another, each finding what the one before it left. */
  ghost predicate Leads(deeds: seq<Deed>, start: ValidScene, end: ValidScene) {
    if deeds == [] then start == end
    else deeds[0].before == start && Leads(deeds[1..], Handle(deeds[0].i, start).world, end)
  }

  lemma StepActs(bc: M.Bytecode, s: M.State<ValidScene>)
    requires |s.locals| == M.MAX_LOCALS
    ensures var s' := M.Step(bc, Some(Handle), s).0;
            s'.world == if Acts(bc, s)
                        then Handle(M.IntrinsicOf(bc.code[s.pc],
                                                  if bc.code[s.pc] == 0x8A then bc.code[s.pc + 1] else 0),
                                    s.world).world
                        else s.world
  {
    hide M.Arith, I16At, I32At, U16At, Handle;
  }

  /** A run does to its world exactly what its deeds do. */
  lemma {:induction false} RunLeads(bc: M.Bytecode, s: M.State<ValidScene>, budget: int)
    requires |s.locals| == M.MAX_LOCALS
    ensures Leads(DeedsOf(bc, s, budget), s.world, M.Run(bc, Some(Handle), s, budget).state.world)
    decreases if budget > 0 then budget else 0
  {
    hide M.Step, Handle, Acts;
    var cost := M.CostAt(bc.code, s.pc);
    if budget > 0 && budget >= cost {
      var (s', status) := M.Step(bc, Some(Handle), s);
      StepActs(bc, s);
      if status == M.Running {
        RunLeads(bc, s', budget - cost);
      }
    }
  }

  /** What a deed adds to the energy of all agents together; a birth only shares it. */
  function EnergyGain(d: Deed): int {
    var s, a := d.before, Me(d.before);
    if d.i == M.Eat && s.world.land.food[Here(s)] > 0 then
      Min(a.energy + Decode(a.genome).forage * s.world.land.food[Here(s)], 100000) - a.energy
    else if d.i == M.Move then -TollAhead(s)
    else 0
  }

  function WaterGain(d: Deed): int {
    var s, a := d.before, Me(d.before);
    if d.i == M.Drink && s.world.land.water[Here(s)] > 0 then
      Min(a.hydration + Decode(a.genome).forage * s.world.land.water[Here(s)], 100000) - a.hydration
    else 0
  }

  function FoodEaten(d: Deed): int {
    if d.i == M.Eat then d.before.world.land.food[Here(d.before)] else 0
  }

  function NewAgents(d: Deed): int {
    if d.i == M.Reproduce && Me(d.before).energy >= Decode(Me(d.before).genome).reproductionThreshold then 1 else 0
  }

  function Total(deeds: seq<Deed>, f: Deed -> int): int {
    if deeds == [] then 0 else f(deeds[0]) + Total(deeds[1..], f)
  }

  /** The books of one deed. */
  lemma DeedLedger(i: M.Intrinsic, s: ValidScene)
    ensures var s', d := Handle(i, s).world, Deed(i, s);
            && TotalEnergy(s'.world.agents) == TotalEnergy(s.world.agents) + EnergyGain(d)
            && Me(s').hydration == Me(s).hydration + WaterGain(d)
            && Sum(s'.world.land.food) == Sum(s.world.land.food) - FoodEaten(d)
            && |s'.world.agents| == |s.world.agents| + NewAgents(d)
  {
    hide Handle, Sum, TotalEnergy, CellOf, Decode, TollAhead, CellAhead, Newborn, EntryCost;
    var w, a := s.world, Me(s);
    match i
    case Eat => EatLedger(s);
    case Drink => DrinkLedger(s);
    case Move =>
      MoveExactly(s);
      TotalUpdate(w.agents, s.me, a.(pos := CellAhead(s), energy := a.energy - TollAhead(s)));
    case TurnLeft =>
      MoveExactly(s);
      TotalUpdate(w.agents, s.me, a.(facing := DirectionOf((WayOf(a.facing) + 3) % 4)));
    case TurnRight =>
      MoveExactly(s);
      TotalUpdate(w.agents, s.me, a.(facing := DirectionOf((WayOf(a.facing) + 1) % 4)));
    case Reproduce => ReproduceLedger(s);
    case Perceive => LookExactly(s);
    case Look => LookExactly(s);
    case MyEnergy => ReadExactly(s, 0);
    case MyHydration => ReadExactly(s, 0);
    case MyTrait(id) => ReadExactly(s, id);
  }

  lemma EatLedger(s: ValidScene)
    ensures var s', d := Handle(M.Eat, s).world, Deed(M.Eat, s);
            && TotalEnergy(s'.world.agents) == TotalEnergy(s.world.agents) + EnergyGain(d)
            && Me(s').hydration == Me(s).hydration
            && Sum(s'.world.land.food) == Sum(s.world.land.food) - s.world.land.food[Here(s)]
            && |s'.world.agents| == |s.world.agents|
  {
    EatExactly(s);
    var s', i := Handle(M.Eat, s).world, Here(s);
    hide Handle, TotalEnergy, Sum, CellOf, Decode;
    EmptiedSum(s.world.land.food, i);
    assert s'.world.land.food == s.world.land.food[i := 0];
    TotalUpdate(s.world.agents, s.me, Me(s'));
  }

  lemma DrinkLedger(s: ValidScene)
    ensures var s', d := Handle(M.Drink, s).world, Deed(M.Drink, s);
            && TotalEnergy(s'.world.agents) == TotalEnergy(s.world.agents)
            && Me(s').hydration == Me(s).hydration + WaterGain(d)
            && Sum(s'.world.land.food) == Sum(s.world.land.food)
            && |s'.world.agents| == |s.world.agents|
  {
    DrinkExactly(s);
    var s', i := Handle(M.Drink, s).world, Here(s);
    hide Handle, TotalEnergy, Sum, CellOf, Decode;
    EmptiedSum(s.world.land.water, i);
    assert s'.world.land.water == s.world.land.water[i := 0];
    TotalUpdate(s.world.agents, s.me, Me(s'));
  }

  lemma ReproduceLedger(s: ValidScene)
    ensures var s', d := Handle(M.Reproduce, s).world, Deed(M.Reproduce, s);
            && TotalEnergy(s'.world.agents) == TotalEnergy(s.world.agents)
            && Me(s').hydration == Me(s).hydration
            && Sum(s'.world.land.food) == Sum(s.world.land.food)
            && |s'.world.agents| == |s.world.agents| + NewAgents(d)
  {
    ReproduceExactly(s);
    hide Handle, TotalEnergy, Sum, Decode, Newborn;
    var w, a := s.world, Me(s);
    if a.energy >= Decode(a.genome).reproductionThreshold {
      var agents := Handle(M.Reproduce, s).world.world.agents;
      var parent := a.(energy := a.energy - a.energy / 2);
      var child := agents[|w.agents|];
      assert child.energy == a.energy / 2 by { ChildEnergy(child, a, w.nextId, w); }
      assert agents == w.agents[s.me := parent] + [child];
      TotalUpdate(w.agents, s.me, parent);
      TotalOfConcat(w.agents[s.me := parent], [child]);
      TotalOfOne(child);
    }
  }

  lemma ChildEnergy(c: Agent, parent: Agent, id: nat, w: World)
    requires Newborn(c, parent, id, w)
    ensures c.energy == parent.energy / 2
  {
  }

  /** The books of any chain of deeds. */
  lemma {:induction false} DeedsLedger(deeds: seq<Deed>, start: ValidScene, end: ValidScene)
    requires Leads(deeds, start, end)
    ensures TotalEnergy(end.world.agents) == TotalEnergy(start.world.agents) + Total(deeds, EnergyGain)
    ensures Me(end).hydration == Me(start).hydration + Total(deeds, WaterGain)
    ensures Sum(end.world.land.food) == Sum(start.world.land.food) - Total(deeds, FoodEaten)
    ensures |end.world.agents| == |start.world.agents| + Total(deeds, NewAgents)
  {
    hide Handle, Sum, TotalEnergy, EnergyGain, WaterGain, FoodEaten, NewAgents;
    if deeds != [] {
      DeedLedger(deeds[0].i, start);
      assert deeds[0] == Deed(deeds[0].i, start);
      DeedsLedger(deeds[1..], Handle(deeds[0].i, start).world, end);
    }
  }

  /**
   The ledger of a run, for any bytes, state and budget and however it ends: total energy changes by exactly what is
   eaten, capped, less the tolls of its moves; the agent's hydration by what it drinks; the food that is gone is the
   food eaten; and the population grows by its births.
   */
  lemma RunLedger(bc: M.Bytecode, s: M.State<ValidScene>, budget: int)
    requires |s.locals| == M.MAX_LOCALS
    ensures var deeds, end := DeedsOf(bc, s, budget), M.Run(bc, Some(Handle), s, budget).state.world;
            && Leads(deeds, s.world, end)
            && TotalEnergy(end.world.agents) == TotalEnergy(s.world.world.agents) + Total(deeds, EnergyGain)
            && Me(end).hydration == Me(s.world).hydration + Total(deeds, WaterGain)
            && Sum(end.world.land.food) == Sum(s.world.world.land.food) - Total(deeds, FoodEaten)
            && |end.world.agents| == |s.world.world.agents| + Total(deeds, NewAgents)
  {
    hide DeedsOf, Leads, M.Run, Handle, EnergyGain, WaterGain, FoodEaten, NewAgents;
    RunLeads(bc, s, budget);
    DeedsLedger(DeedsOf(bc, s, budget), s.world, M.Run(bc, Some(Handle), s, budget).state.world);
  }
}
