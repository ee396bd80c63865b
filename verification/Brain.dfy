/**
 The bytecode brain of an agent: one VM that is loaded once, reset before every later tick, and acts on the world in
 place.
 */
module Brain {
  import opened Words
  import opened Opcodes
  import opened Machine
  import opened VirtualMachine
  import opened AgentVm
  import opened AgentHandlers
  import Engine
  import Refusal

  /** A machine and the scene that its intrinsics act in. */
  ghost function Joint(s: State<()>, scene: ValidScene): State<ValidScene> {
    State(s.pc, s.stack, s.locals, s.frames, s.halted, scene)
  }

  /** The state in which the VM starts a tick. */
  ghost function Ready(bc: Bytecode, loaded: bool, s: State<()>): (r: State<()>)
    requires |s.locals| == MAX_LOCALS
    ensures |r.locals| == MAX_LOCALS
  {
    if loaded then ResetForTick(s)
    else Refusal.JustLoaded(bc, ())
  }

  predicate IsIntrinsic(op: byte) {
    PERCEIVE <= op <= MY_TRAIT
  }

  /** Other instructions neither see nor touch the world. */
  lemma StepIgnoresWorld(bc: Bytecode, s: State<()>, scene: ValidScene)
    requires |s.locals| == MAX_LOCALS && (s.halted || s.pc >= |bc.code| || !IsIntrinsic(bc.code[s.pc]))
    ensures var (s', status) := Machine.Step(bc, None, s);
            Machine.Step(bc, Some(Handle), Joint(s, scene)) == (Joint(s', scene), status)
  {
    hide Arith, I16At, I32At, U16At, Handle;
  }

  lemma StepIsIntrinsic(bc: Bytecode, s: State<ValidScene>)
    requires |s.locals| == MAX_LOCALS && !s.halted && s.pc < |bc.code| && IsIntrinsic(bc.code[s.pc])
    ensures Machine.Step(bc, Some(Handle), s)
         == Machine.StepIntrinsic(bc, Some(Handle), bc.code[s.pc], s.(pc := s.pc + 1))
  {
    hide Machine.StepIntrinsic;
  }

  ghost function Arrays(vm: Vm<()>): set<object> {
    {vm.stack as object, vm.locals, vm.callStack}
  }

  ghost function Cells(world: Engine.World): set<object> {
    {world.terrain.cells as object, world.food.cells, world.water.cells, world.mineral.cells, world.agentCounts.cells}
  }

  class BytecodeBrain {
    const bc: Bytecode
    const budget: int
    const vm: Vm<()>
    var loaded: bool

    ghost predicate Valid()
      reads this, vm, vm.stack, vm.callStack
    {
      vm.Valid() && vm.handler == None && (loaded ==> vm.bc == Some(bc))
    }

    constructor (bc: Bytecode, budget: int, vm: Vm<()>)
      requires vm.Valid() && vm.handler == None
      ensures Valid() && !loaded && this.bc == bc && this.budget == budget && this.vm == vm
    {
      this.bc, this.budget, this.vm, loaded := bc, budget, vm, false;
    }

    method Dispatch(handler: AgentIntrinsicHandler, i: Intrinsic) returns (pushed: seq<int32>)
      requires handler.Ready()
      modifies handler.world`agents, handler.world`rng, handler.world`nextId, handler.world.food.cells
      modifies handler.world.water.cells
      ensures handler.Ready() && Reply(handler.View(), pushed) == Handle(i, old(handler.View()))
    {
      hide Handle;
      match i
      case Perceive => pushed := handler.HandlePerceive();
      case Look => pushed := handler.HandleLook();
      case Move => pushed := handler.HandleMove();
      case TurnLeft => pushed := handler.HandleTurnLeft();
      case TurnRight => pushed := handler.HandleTurnRight();
      case Eat => pushed := handler.HandleEat();
      case Drink => pushed := handler.HandleDrink();
      case Reproduce => pushed := handler.HandleReproduce();
      case MyEnergy => pushed := handler.HandleMyEnergy();
      case MyHydration => pushed := handler.HandleMyHydration();
      case MyTrait(id) => pushed := handler.HandleMyTrait(id);
    }

    /** Pushes a handler's replies, which must have room. */
    method PushAll(vs: seq<int32>)
      requires vm.Valid() && vm.sp + |vs| <= MAX_STACK
      modifies vm`sp, vm.stack
      ensures vm.Valid() && vm.Abs() == old(vm.Abs()).(stack := old(vm.Abs()).stack + vs)
    {
      ghost var s := vm.Abs();
      assert s.stack + vs[..0] == s.stack;
      for i := 0 to |vs|
        invariant vm.Valid() && vm.sp == |s.stack| + i
        invariant vm.Abs() == s.(stack := s.stack + vs[..i])
      {
        vm.Push(vs[i]);
        assert s.stack + vs[..i + 1] == s.stack + vs[..i] + [vs[i]];
      }
      assert vs[..|vs|] == vs;
    }

    /** An intrinsic in place: the handler acts on the world and its replies go on the stack. */
    method Act(handler: AgentIntrinsicHandler, i: Intrinsic) returns (status: Status)
      requires vm.Valid() && handler.Ready() && Arrays(vm) !! Cells(handler.world)
      modifies vm`sp, vm.stack
      modifies handler.world`agents, handler.world`rng, handler.world`nextId, handler.world.food.cells
      modifies handler.world.water.cells
      ensures vm.Valid() && handler.Ready()
      ensures var reply, s := Handle(i, old(handler.View())), old(vm.Abs());
              && handler.View() == reply.world
              && if |s.stack| + |reply.pushed| > MAX_STACK then status == StackOverrun && vm.Abs() == s
                 else status == Running && vm.Abs() == s.(stack := s.stack + reply.pushed)
    {
      hide Handle, AgentIntrinsicHandler.View, SceneOf, Engine.World.Valid, Engine.World.Abs, IntrinsicOf;
      var pushed := Dispatch(handler, i);
      ghost var s := vm.Abs();
      ghost var scene := handler.View();
      if vm.sp + |pushed| > MAX_STACK {
        return StackOverrun;
      }
      PushAll(pushed);
      assert handler.View() == scene;
      return Running;
    }

    method StepIntrinsic(handler: AgentIntrinsicHandler, op: byte) returns (status: Status)
      requires vm.Valid() && handler.Ready() && Arrays(vm) !! Cells(handler.world) && IsIntrinsic(op)
      modifies vm`sp, vm`pc, vm.stack
      modifies handler.world`agents, handler.world`rng, handler.world`nextId, handler.world.food.cells
      modifies handler.world.water.cells
      ensures vm.Valid() && handler.Ready()
      ensures (Joint(vm.Abs(), handler.View()), status)
           == Machine.StepIntrinsic(vm.Program(), Some(Handle), op, old(Joint(vm.Abs(), handler.View())))
    {
      hide Handle, AgentIntrinsicHandler.View, SceneOf, Engine.World.Valid, Engine.World.Abs, IntrinsicOf;
      ghost var scene := handler.View();
      var operand: byte := 0;
      if op == MY_TRAIT {
        if vm.pc >= |vm.Program().code| {
          return InvalidOpcode;
        }
        operand := vm.Program().code[vm.pc];
        vm.pc := vm.pc + 1;
      }
      assert handler.View() == scene;
      status := Act(handler, IntrinsicOf(op, operand));
    }

    /** Any other instruction in place. */
    method StepPlain(handler: AgentIntrinsicHandler) returns (status: Status)
      requires vm.Valid() && vm.handler == None && handler.Ready() && Arrays(vm) !! Cells(handler.world)
      requires vm.halted || vm.pc >= |vm.Program().code| || !IsIntrinsic(vm.Program().code[vm.pc])
      modifies vm`sp, vm`pc, vm`callDepth, vm`halted, vm`world, vm.stack, vm.locals, vm.callStack
      ensures vm.Valid() && handler.Ready()
      ensures (Joint(vm.Abs(), handler.View()), status)
           == Machine.Step(vm.Program(), Some(Handle), old(Joint(vm.Abs(), handler.View())))
    {
      hide Handle, AgentIntrinsicHandler.View, SceneOf, Engine.World.Valid, Engine.World.Abs, Machine.Step;
      ghost var scene := handler.View();
      StepIgnoresWorld(vm.Program(), vm.Abs(), scene);
      status := vm.Step();
      assert handler.View() == scene;
    }

    method Step(handler: AgentIntrinsicHandler) returns (status: Status)
      requires vm.Valid() && vm.handler == None && handler.Ready() && Arrays(vm) !! Cells(handler.world)
      modifies vm`sp, vm`pc, vm`callDepth, vm`halted, vm`world, vm.stack, vm.locals, vm.callStack
      modifies handler.world`agents, handler.world`rng, handler.world`nextId, handler.world.food.cells
      modifies handler.world.water.cells
      ensures vm.Valid() && handler.Ready()
      ensures (Joint(vm.Abs(), handler.View()), status)
           == Machine.Step(vm.Program(), Some(Handle), old(Joint(vm.Abs(), handler.View())))
    {
      hide Handle, AgentIntrinsicHandler.View, SceneOf, Engine.World.Valid, Engine.World.Abs;
      hide Machine.Step, Machine.StepIntrinsic;
      if !vm.halted && vm.pc < |vm.Program().code| && IsIntrinsic(vm.Program().code[vm.pc]) {
        ghost var scene := handler.View();
        var op := vm.Program().code[vm.pc];
        StepIsIntrinsic(vm.Program(), Joint(vm.Abs(), scene));
        vm.pc := vm.pc + 1;
        assert handler.View() == scene;
        status := StepIntrinsic(handler, op);
      } else {
        status := StepPlain(handler);
      }
    }

    /** The loop of the VM, with the world in place. */
    method RunIn(handler: AgentIntrinsicHandler, budget: int)
      requires vm.Valid() && vm.handler == None && handler.Ready() && Arrays(vm) !! Cells(handler.world)
      modifies vm`sp, vm`pc, vm`callDepth, vm`halted, vm`world, vm.stack, vm.locals, vm.callStack
      modifies handler.world`agents, handler.world`rng, handler.world`nextId, handler.world.food.cells
      modifies handler.world.water.cells
      ensures vm.Valid() && handler.Ready()
      ensures Joint(vm.Abs(), handler.View())
           == Run(vm.Program(), Some(Handle), old(Joint(vm.Abs(), handler.View())), budget).state
    {
      hide Machine.Step, Handle;
      var remaining := budget;
      while remaining > 0
        invariant vm.Valid() && handler.Ready()
        invariant Run(vm.Program(), Some(Handle), old(Joint(vm.Abs(), handler.View())), budget)
               == Run(vm.Program(), Some(Handle), Joint(vm.Abs(), handler.View()), remaining)
      {
        var cost := CostAt(vm.Program().code, vm.pc);
        if remaining < cost {
          return;
        }
        var status := Step(handler);
        remaining := remaining - cost;
        if status != Running {
          return;
        }
      }
    }

    /** The first tick loads the code, later ones only reset the machine. */
    method Prepare()
      requires Valid()
      modifies this`loaded, vm, vm.stack, vm.locals
      ensures Valid() && loaded && vm.bc == Some(bc) && vm.Abs() == Ready(bc, old(loaded), old(vm.Abs()))
    {
      assert vm.world == () by { var u: () := vm.world; match u case () => }
      if !loaded {
        vm.Load(bc);
        loaded := true;
      } else {
        vm.ResetForTick();
      }
    }

    /** A tick for the agent with this id; when it is no longer to be found, nothing runs. */
    method Tick(agentId: nat, world: Engine.World)
      requires Valid() && world.Valid() && Arrays(vm) !! Cells(world)
      requires agentId in world.agentIndexMap ==> world.agentIndexMap[agentId] < |world.agents|
      modifies this, vm, vm.stack, vm.locals, vm.callStack
      modifies world`agents, world`rng, world`nextId, world.food.cells, world.water.cells
      ensures Valid() && loaded && world.Valid()
      ensures var start := Ready(bc, old(loaded), old(vm.Abs()));
              match old(SceneFor(world, agentId))
              case None => vm.Abs() == start && world.Abs([]) == old(world.Abs([]))
              case Some(scene) =>
                var after := SceneFor(world, agentId);
                after.Some? && Joint(vm.Abs(), after.value) == Run(bc, Some(Handle), Joint(start, scene), budget).state
    {
      hide Run, Handle, SceneOf, Engine.World.Abs, Ready;
      Prepare();
      var index := world.AgentIndexById(agentId);
      match index
      case None =>
      case Some(me) =>
        ghost var scene := SceneOf(world, me);
        var handler := new AgentIntrinsicHandler(me, world);
        assert handler.View() == scene;
        hide AgentIntrinsicHandler.View;
        RunIn(handler, budget);
    }
  }
}
