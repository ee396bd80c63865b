/** The intrinsic handler as the C++ class: it acts on its agent and its world in place. */
module AgentHandlers {
  import opened Words
  import opened Random
  import opened Biology
  import opened Torus
  import opened Engine
  import A = AgentVm
  import L = Life
  import M = Machine

  /** The world with its cached counts, as the agent at an index sees it. */
  ghost function SceneOf(world: World, me: nat): A.ValidScene
    requires world.Valid() && me < |world.agents|
    reads world, world.terrain.cells, world.food.cells, world.water.cells, world.mineral.cells, world.agentCounts.cells
  {
    A.Scene(world.Abs([]), world.agentCounts.cells[..], me)
  }

  /** The scene of the agent with an id, if the index map knows it. */
  ghost function SceneFor(world: World, id: nat): Option<A.ValidScene>
    reads world, world.terrain.cells, world.food.cells, world.water.cells, world.mineral.cells
    reads world.agentCounts.cells
  {
    if world.Valid() && id in world.agentIndexMap && world.agentIndexMap[id] < |world.agents| then
      Some(SceneOf(world, world.agentIndexMap[id]))
    else None
  }

  class AgentIntrinsicHandler {
    const world: World
    var agentIndex: nat

    ghost predicate Ready()
      reads this, world
    {
      world.Valid() && agentIndex < |world.agents|
    }

    /** The scene that the handler acts in. */
    ghost function View(): A.ValidScene
      requires Ready()
      reads this, world, world.terrain.cells, world.food.cells, world.water.cells, world.mineral.cells
      reads world.agentCounts.cells
    {
      SceneOf(world, agentIndex)
    }

    constructor (agentIndex: nat, world: World)
      ensures this.agentIndex == agentIndex && this.world == world
    {
      this.agentIndex, this.world := agentIndex, world;
    }

    method SetAgentIndex(index: nat)
      modifies this
      ensures agentIndex == index
    {
      agentIndex := index;
    }

    method IsValid() returns (valid: bool)
      requires world.Valid()
      ensures valid <==> Ready()
    {
      valid := agentIndex < |world.agents|;
    }

    method Ahead(agent: L.Agent) returns (target: Position)
      requires world.Valid()
      ensures target == A.Ahead(agent, world.Ground())
    {
      target := WrapPosition(Position(agent.pos.x + OffsetX(agent.facing), agent.pos.y + OffsetY(agent.facing)),
                             world.config.width, world.config.height);
    }

    method Sense(p: Position) returns (pushed: seq<int32>)
      requires Ready()
      ensures pushed == A.Sense(View(), p)
    {
      var terrain := TerrainCode(world.terrain.At(p));
      var food, water := world.food.At(p), world.water.At(p);
      var agentsThere := world.AgentCountAt(p);
      pushed := [terrain, Wrap(food), Wrap(water), Wrap(agentsThere)];
    }

    method HandlePerceive() returns (pushed: seq<int32>)
      requires Ready()
      ensures M.Reply(View(), pushed) == A.Handle(M.Perceive, View())
    {
      pushed := Sense(world.agents[agentIndex].pos);
    }

    method HandleLook() returns (pushed: seq<int32>)
      requires Ready()
      ensures M.Reply(View(), pushed) == A.Handle(M.Look, View())
    {
      var target := Ahead(world.agents[agentIndex]);
      pushed := Sense(target);
    }

    method HandleMove() returns (pushed: seq<int32>)
      requires Ready()
      modifies world`agents
      ensures Ready() && M.Reply(View(), pushed) == A.Handle(M.Move, old(View()))
    {
      hide Index, WrapPosition, EntryCost;
      var a := world.agents[agentIndex];
      var target := Ahead(a);
      var t := world.terrain.At(target);
      var traits := Decode(a.genome);
      var cost := PriceOf(t, traits.swim);
      a := a.(energy := a.energy - (cost - 1));
      world.agents := world.agents[agentIndex := a.(pos := target)];
      pushed := [];
    }

    method HandleTurnLeft() returns (pushed: seq<int32>)
      requires Ready()
      modifies world`agents
      ensures Ready() && M.Reply(View(), pushed) == A.Handle(M.TurnLeft, old(View()))
    {
      var a := world.agents[agentIndex];
      world.agents := world.agents[agentIndex := a.(facing := TurnLeft(a.facing))];
      pushed := [];
    }

    method HandleTurnRight() returns (pushed: seq<int32>)
      requires Ready()
      modifies world`agents
      ensures Ready() && M.Reply(View(), pushed) == A.Handle(M.TurnRight, old(View()))
    {
      var a := world.agents[agentIndex];
      world.agents := world.agents[agentIndex := a.(facing := TurnRight(a.facing))];
      pushed := [];
    }

    method HandleEat() returns (pushed: seq<int32>)
      requires Ready()
      modifies world`agents, world.food.cells
      ensures Ready() && M.Reply(View(), pushed) == A.Handle(M.Eat, old(View()))
    {
      hide Index, Decode;
      var a := world.agents[agentIndex];
      var food := world.food.At(a.pos);
      var gained := 0;
      if food > 0 {
        gained := food * Decode(a.genome).forage;
        world.agents := world.agents[agentIndex := a.(energy := A.Min(a.energy + gained, A.MAX_ENERGY))];
        world.food.Set(a.pos, 0);
      }
      pushed := [Wrap(gained)];
    }

    method HandleDrink() returns (pushed: seq<int32>)
      requires Ready()
      modifies world`agents, world.water.cells
      ensures Ready() && M.Reply(View(), pushed) == A.Handle(M.Drink, old(View()))
    {
      hide Index, Decode;
      var a := world.agents[agentIndex];
      var water := world.water.At(a.pos);
      var gained := 0;
      if water > 0 {
        gained := water * Decode(a.genome).forage;
        world.agents := world.agents[agentIndex := a.(hydration := A.Min(a.hydration + gained, A.MAX_HYDRATION))];
        world.water.Set(a.pos, 0);
      }
      pushed := [Wrap(gained)];
    }

    method HandleReproduce() returns (pushed: seq<int32>)
      requires Ready()
      modifies world`agents, world`rng, world`nextId
      ensures Ready() && M.Reply(View(), pushed) == A.Handle(M.Reproduce, old(View()))
    {
      hide Mutate, WrapTo, Index;
      var a := world.agents[agentIndex];
      if a.energy < Decode(a.genome).reproductionThreshold {
        return [0];
      }
      var (dirIndex, rng) := UniformInt(world.rng, 0, 3);
      world.rng := rng;
      var d := DirectionOf(dirIndex);
      var childPos := WrapPosition(Position(a.pos.x + OffsetX(d), a.pos.y + OffsetY(d)),
                                   world.config.width, world.config.height);
      var childEnergy := a.energy / 2;
      world.agents := world.agents[agentIndex := a.(energy := a.energy - childEnergy)];
      var childGenome := world.MutateGenome(a.genome);
      var id := world.SpawnChild(childPos, childEnergy, childGenome, a.id, a.generation + 1);
      pushed := [1];
    }

    method HandleMyEnergy() returns (pushed: seq<int32>)
      requires Ready()
      ensures M.Reply(View(), pushed) == A.Handle(M.MyEnergy, View())
    {
      pushed := [Wrap(world.agents[agentIndex].energy)];
    }

    method HandleMyHydration() returns (pushed: seq<int32>)
      requires Ready()
      ensures M.Reply(View(), pushed) == A.Handle(M.MyHydration, View())
    {
      pushed := [Wrap(world.agents[agentIndex].hydration)];
    }

    method HandleMyTrait(id: byte) returns (pushed: seq<int32>)
      requires Ready()
      ensures M.Reply(View(), pushed) == A.Handle(M.MyTrait(id), View())
    {
      pushed := [Wrap(A.TraitValue(Decode(world.agents[agentIndex].genome), id))];
    }
  }
}
