/** The intrinsics of the VM as an agent of a world performs them. */
module AgentVm {
  import opened Words
  import opened Random
  import opened Biology
  import opened Torus
  import opened Life
  import opened LifeProperties
  import opened Lineage
  import opened Census
  import M = Machine
  import Semantics
  import Compiler
  import Ast
  import Linking

  const MAX_ENERGY := 100000
  const MAX_HYDRATION := 100000

  /** A world with the agent counts of its last rebuild, and the index of the acting agent. */
  datatype Scene = Scene(world: World, counts: seq<nat>, me: nat)

  type ValidScene = s: Scene |
    s.me < |s.world.agents| && |s.counts| == |s.world.land.terrain|
    ghost witness Scene(
      World(Config(1, 1, 0, 0, 0.0, 0, 0, 0.0, 0, 0), Land(1, 1, [Plain], [0], [0], [0]),
            [Agent(Position(0, 0), 0, 0, true, 0, seq(GENOME_LENGTH, _ => 0), None, 0, North)],
            1, 0, Rng(_ => 0, _ => 0.0, 0), []),
      [0], 0)

  function Me(s: ValidScene): Agent {
    s.world.agents[s.me]
  }

  function Become(s: ValidScene, a: Agent): ValidScene {
    s.(world := s.world.(agents := s.world.agents[s.me := a]))
  }

  /** Terrain, food, water and agents at a position, terrain pushed first. */
  function Sense(s: ValidScene, p: Position): (r: seq<int32>)
    ensures |r| == 4
  {
    var i := CellOf(p, s.world.land);
    [TerrainCode(s.world.land.terrain[i]), Wrap(s.world.land.food[i]), Wrap(s.world.land.water[i]), Wrap(s.counts[i])]
  }

  function Ahead(a: Agent, land: ValidLand): Position {
    Step(a.pos, a.facing, land)
  }

  function Min(a: int, b: int): int {
    if a < b then a else b
  }

  function TraitValue(t: Traits, id: byte): int {
    if id == 0 then t.vision
    else if id == 1 then t.speed
    else if id == 2 then t.metabolism
    else if id == 3 then t.reproductionThreshold
    else if id == 4 then t.swim
    else if id == 5 then t.forage
    else 0
  }

  function GoAhead(s: ValidScene): ValidScene {
    var a, land := Me(s), s.world.land;
    var target := Ahead(a, land);
    var cost := EntryCost(land.terrain[CellOf(target, land)], Decode(a.genome).swim);
    Become(s, a.(energy := a.energy - (cost - 1), pos := target))
  }

  /** Food becomes energy up to the cap; what is pushed is the gain before capping. */
  function EatHere(s: ValidScene): M.Reply<ValidScene> {
    var a, land := Me(s), s.world.land;
    var i := CellOf(a.pos, land);
    var gained := land.food[i] * Decode(a.genome).forage;
    if land.food[i] == 0 then M.Reply(s, [0])
    else
      var fed := Become(s, a.(energy := Min(a.energy + gained, MAX_ENERGY)));
      M.Reply(fed.(world := fed.world.(land := land.(food := land.food[i := 0]))), [Wrap(gained)])
  }

  function DrinkHere(s: ValidScene): M.Reply<ValidScene> {
    var a, land := Me(s), s.world.land;
    var i := CellOf(a.pos, land);
    var gained := land.water[i] * Decode(a.genome).forage;
    if land.water[i] == 0 then M.Reply(s, [0])
    else
      var fed := Become(s, a.(hydration := Min(a.hydration + gained, MAX_HYDRATION)));
      M.Reply(fed.(world := fed.world.(land := land.(water := land.water[i := 0]))), [Wrap(gained)])
  }

  /** A child joins the world at once, at the end of the agents; 1 for success. */
  function ReproduceHere(s: ValidScene): M.Reply<ValidScene> {
    var a, w := Me(s), s.world;
    if a.energy < Decode(a.genome).reproductionThreshold then M.Reply(s, [0])
    else
      var (parent, birth, rng) := GiveBirth(a, w.land, w.rng, w.cfg.mutationRate);
      var grown := Become(s, parent).world.agents + [Child(birth, w.nextId, w.cfg.startingHydration)];
      M.Reply(s.(world := w.(agents := grown, nextId := w.nextId + 1, rng := rng)), [1])
  }

  function Handle(i: M.Intrinsic, s: ValidScene): (r: M.Reply<ValidScene>)
    ensures |r.pushed| == M.PushCount(i)
  {
    match i
    case Perceive => M.Reply(s, Sense(s, Me(s).pos))
    case Look => M.Reply(s, Sense(s, Ahead(Me(s), s.world.land)))
    case Move => M.Reply(GoAhead(s), [])
    case TurnLeft => M.Reply(Become(s, Me(s).(facing := TurnLeft(Me(s).facing))), [])
    case TurnRight => M.Reply(Become(s, Me(s).(facing := TurnRight(Me(s).facing))), [])
    case Eat => EatHere(s)
    case Drink => DrinkHere(s)
    case Reproduce => ReproduceHere(s)
    case MyEnergy => M.Reply(s, [Wrap(Me(s).energy)])
    case MyHydration => M.Reply(s, [Wrap(Me(s).hydration)])
    case MyTrait(id) => M.Reply(s, [Wrap(TraitValue(Decode(Me(s).genome), id))])
  }

  // ---- What a program can do to the world ----

  ghost predicate Shrinks(before: seq<nat>, after: seq<nat>) {
    |before| == |after| && forall i :: 0 <= i < |before| ==> after[i] <= before[i]
  }

  /** Energy in agents, and in food at the best forage efficiency. */
  function Worth(w: World): int {
    TotalEnergy(w.agents) + 3 * Sum(w.land.food)
  }

  ghost predicate ChildOf(c: Agent, parent: Agent, id: nat) {
    c.alive && c.id == id && c.parent == Some(parent.id) && c.generation == parent.generation + 1
  }

  /** Nobody but the acting agent has changed, nor has its identity; new agents are its children with the next ids. */
  ghost predicate OnlyMe(s: ValidScene, s': ValidScene) {
    var was, now := s.world.agents, s'.world.agents;
    && |was| <= |now| && s'.world.nextId == s.world.nextId + (|now| - |was|)
    && (forall i :: 0 <= i < |was| && i != s.me ==> now[i] == was[i])
    && SameLineage(was[s.me], now[s.me]) && now[s.me].alive == was[s.me].alive
    && (forall i :: |was| <= i < |now| ==> ChildOf(now[i], Me(s), s.world.nextId + i - |was|))
  }

  ghost predicate SameGround(s: ValidScene, s': ValidScene) {
    && s'.me == s.me && s'.counts == s.counts
    && s'.world.cfg == s.world.cfg && s'.world.tick == s.world.tick && s'.world.log == s.world.log
    && s'.world.land.width == s.world.land.width && s'.world.land.height == s.world.land.height
    && s'.world.land.terrain == s.world.land.terrain && s'.world.land.mineral == s.world.land.mineral
    && Shrinks(s.world.land.food, s'.world.land.food) && Shrinks(s.world.land.water, s'.world.land.water)
  }

  ghost predicate Tame(s: ValidScene, s': ValidScene) {
    SameGround(s, s') && OnlyMe(s, s') && Worth(s'.world) <= Worth(s.world)
  }

  lemma TameTransitive(a: ValidScene, b: ValidScene, c: ValidScene)
    requires Tame(a, b) && Tame(b, c)
    ensures Tame(a, c)
  {
    hide Worth, M.Run;
    var first, last := a.world.agents, c.world.agents;
    forall i | |first| <= i < |last|
      ensures ChildOf(last[i], Me(a), a.world.nextId + i - |first|)
    {
      if i < |b.world.agents| {
        assert ChildOf(b.world.agents[i], Me(a), a.world.nextId + i - |first|);
        assert last[i] == b.world.agents[i];
      } else {
        assert ChildOf(last[i], Me(b), b.world.nextId + i - |b.world.agents|);
      }
    }
  }

  lemma {:induction false} TotalUpdate(agents: seq<Agent>, i: nat, a: Agent)
    requires i < |agents|
    ensures TotalEnergy(agents[i := a]) == TotalEnergy(agents) - agents[i].energy + a.energy
  {
    if i == 0 {
      assert agents[0 := a][1..] == agents[1..];
    } else {
      assert agents[i := a][1..] == agents[1..][i - 1 := a];
      TotalUpdate(agents[1..], i - 1, a);
    }
  }

  lemma BecomeTame(s: ValidScene, a: Agent)
    requires SameLineage(Me(s), a) && a.alive == Me(s).alive && a.energy <= Me(s).energy
    ensures Tame(s, Become(s, a))
  {
    hide TotalEnergy, Sum;
    TotalUpdate(s.world.agents, s.me, a);
  }

  lemma EatTame(s: ValidScene)
    ensures Tame(s, EatHere(s).world)
  {
    hide TotalEnergy, Sum, CellOf, Decode;
    var a, land := Me(s), s.world.land;
    var i := CellOf(a.pos, land);
    var forage := Decode(a.genome).forage;
    var fed := a.(energy := Min(a.energy + land.food[i] * forage, MAX_ENERGY));
    TotalUpdate(s.world.agents, s.me, fed);
    SumUpdate(land.food, i, 0);
    AtMostThree(land.food[i], forage);
  }

  lemma AtMostThree(n: nat, f: int)
    requires f <= 3
    ensures n * f <= 3 * n
  {
  }

  lemma DrinkTame(s: ValidScene)
    ensures Tame(s, DrinkHere(s).world)
  {
    hide TotalEnergy, Sum, CellOf, Decode;
    var a, land := Me(s), s.world.land;
    var gained := land.water[CellOf(a.pos, land)] * Decode(a.genome).forage;
    TotalUpdate(s.world.agents, s.me, a.(hydration := Min(a.hydration + gained, MAX_HYDRATION)));
  }

  lemma ReproduceTame(s: ValidScene)
    ensures Tame(s, ReproduceHere(s).world)
  {
    hide TotalEnergy, Sum, Mutate, Step, Decode;
    var a, w := Me(s), s.world;
    var (parent, birth, rng) := GiveBirth(a, w.land, w.rng, w.cfg.mutationRate);
    var child := Child(birth, w.nextId, w.cfg.startingHydration);
    TotalUpdate(w.agents, s.me, parent);
    TotalOfConcat(w.agents[s.me := parent], [child]);
    TotalOfOne(child);
  }

  lemma TotalOfOne(a: Agent)
    ensures TotalEnergy([a]) == a.energy
  {
    assert [a][1..] == [];
  }

  lemma HandleTame(i: M.Intrinsic, s: ValidScene)
    ensures Tame(s, Handle(i, s).world)
  {
    hide EatHere, DrinkHere, ReproduceHere, Tame, EntryCost, Ahead, Decode, Sense;
    BecomeTame(s, Me(s));
    assert Become(s, Me(s)) == s;
    match i
    case Move =>
      var a, land := Me(s), s.world.land;
      var target := Ahead(a, land);
      var cost := EntryCost(land.terrain[CellOf(target, land)], Decode(a.genome).swim);
      BecomeTame(s, a.(energy := a.energy - (cost - 1), pos := target));
    case TurnLeft => BecomeTame(s, Me(s).(facing := TurnLeft(Me(s).facing)));
    case TurnRight => BecomeTame(s, Me(s).(facing := TurnRight(Me(s).facing)));
    case Eat => EatTame(s);
    case Drink => DrinkTame(s);
    case Reproduce => ReproduceTame(s);
    case _ =>
  }

  /** An instruction changes the world only through an intrinsic. */
  lemma StepTouches<W>(bc: M.Bytecode, h: M.Handler<W>, s: M.State<W>)
    requires |s.locals| == M.MAX_LOCALS
    ensures var s' := M.Step(bc, Some(h), s).0;
            s'.world == s.world || exists i :: s'.world == h(i, s.world).world
  {
    if s.pc < |bc.code| && 0x80 <= bc.code[s.pc] <= 0x8A {
      hide M.Arith;
      var op := bc.code[s.pc];
      var operand := if op == 0x8A && s.pc + 1 < |bc.code| then bc.code[s.pc + 1] else 0;
      assert h(M.IntrinsicOf(op, operand), s.world).world == h(M.IntrinsicOf(op, operand), s.world).world;
    }
  }

  /**
   Whatever bytes are run and however the run ends, an agent's program changes nobody but its agent, adds only its
   children, eats and drinks but never sows, and does not make energy: what agents hold and what the food is worth
   never grows in total.
   */
  lemma {:induction false} RunTame(bc: M.Bytecode, s: M.State<ValidScene>, budget: int)
    requires |s.locals| == M.MAX_LOCALS
    ensures Tame(s.world, M.Run(bc, Some(Handle), s, budget).state.world)
    decreases if budget > 0 then budget else 0
  {
    hide M.Step, Tame, Handle;
    BecomeTame(s.world, Me(s.world));
    assert Become(s.world, Me(s.world)) == s.world;
    var cost := M.CostAt(bc.code, s.pc);
    if budget > 0 && budget >= cost {
      var (s', status) := M.Step(bc, Some(Handle), s);
      StepTouches(bc, Handle, s);
      if s'.world != s.world {
        var i :| s'.world == Handle(i, s.world).world;
        HandleTame(i, s.world);
      }
      if status == M.Running {
        RunTame(bc, s', budget - cost);
        TameTransitive(s.world, s'.world, M.Run(bc, Some(Handle), s', budget - cost).state.world);
      }
    }
  }

  /** So the invariants of worlds survive programs: ids in order, cells 0 or 1. */
  lemma TameKeepsInvariants(s: ValidScene, s': ValidScene)
    requires Tame(s, s')
    ensures InOrder(s.world.agents, s.world.nextId) ==> InOrder(s'.world.agents, s'.world.nextId)
    ensures BinaryLand(s.world.land) ==> BinaryLand(s'.world.land)
  {
    hide Worth;
    var was, now := s.world.agents, s'.world.agents;
    if InOrder(was, s.world.nextId) {
      forall i | 0 <= i < |now|
        ensures now[i].id < s'.world.nextId
        ensures i < |was| ==> now[i].id == was[i].id
        ensures i >= |was| ==> now[i].id == s.world.nextId + i - |was|
      {
      }
    }
  }

  /** Handlers push what the instruction set documents, so compiled programs run on them as their source means. */
  lemma AgentProgramCorrect(p: Ast.Program, s: ValidScene, locals: seq<int32>, b: nat)
    requires Compiler.Compiles(p) && Semantics.ProgramInFragment(Compiler.Meaning(p, Handle))
    requires |locals| == M.MAX_LOCALS
    ensures M.WellBehaved(Handle)
    ensures var st := Semantics.Store(locals, s);
            var r := Compiler.RunTick(p, Handle, st, b);
            && Tame(s, r.state.world)
            && match Semantics.Tick(Compiler.Meaning(p, Handle), st, b)
               case Wrong => false
               case Abort(status, st', left) =>
                 r.status == status && r.left == left && r.state.locals == st'.locals && r.state.world == st'.world
               case Done(result, st', left) =>
                 r.status == M.Halted && r.left == left && r.state.locals == st'.locals && r.state.world == st'.world
  {
    hide M.Run, Handle, Tame, Compiler.Compiles, Compiler.Binary, Semantics.Tick, Semantics.ProgramInFragment;
    Compiler.TickCorrect(p, Handle, Semantics.Store(locals, s), b);
    RunTame(Compiler.Binary(p), Linking.Start(Semantics.Store(locals, s)), b);
  }
}
