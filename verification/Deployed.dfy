/** Compiled programs on the classes: what the machine in place and the brain of an agent do in a tick. */
module Deployed {
  import opened Words
  import opened Ast
  import opened Semantics
  import opened VirtualMachine
  import opened AgentVm
  import opened AgentHandlers
  import Brain
  import Engine
  import Compiler
  import Linking
  import M = Machine

  /** Locals, world, operands and frames after a tick that meant o, and the status it ended with. */
  ghost predicate Shows<W>(s: M.State<W>, status: M.Status, o: Out<W, Option<int32>>) {
    match o
    case Wrong => false
    case Abort(fault, st, _) => status == fault && s.locals == st.locals && s.world == st.world
    case Done(result, st, _) =>
      && status == M.Halted && s.locals == st.locals && s.world == st.world
      && s.frames == [] && s.stack == if result.Some? then [result.value] else []
  }

  /** A tick of the machine in place is a tick of the source, for every budget. */
  method RunTick<W(!new)>(ghost p: Program, vm: Vm<W>, budget: nat) returns (status: M.Status)
    requires vm.Valid() && vm.handler.Some? && Compiler.InScope(p, vm.handler.value)
    requires vm.bc == Some(Compiler.Binary(p))
    modifies vm, vm.stack, vm.locals, vm.callStack
    ensures vm.Valid() && vm.bc == old(vm.bc) && vm.handler == old(vm.handler)
    ensures Shows(vm.Abs(), status,
                  Tick(Compiler.Meaning(p, vm.handler.value), Store(old(vm.Abs()).locals, old(vm.world)), budget))
  {
    hide M.Run, Compiler.InScope, Compiler.Binary, Tick;
    Compiler.TickCorrect(p, vm.handler.value, Store(vm.Abs().locals, vm.world), budget);
    vm.ResetForTick();
    status := vm.Run(budget);
  }

  /** The locals with which a brain starts its next tick. */
  ghost function Remembered(brain: Brain.BytecodeBrain): (r: seq<int32>)
    requires brain.Valid()
    reads brain, brain.vm, brain.vm.stack, brain.vm.locals, brain.vm.callStack
    ensures |r| == M.MAX_LOCALS
  {
    if brain.loaded then brain.vm.Abs().locals else seq(M.MAX_LOCALS, _ => 0)
  }

  /** From memory and scene to the new memory and scene, as a tick of the source program goes, and tamely. */
  ghost predicate Lived(p: Program, budget: nat, memory: seq<int32>, scene: ValidScene,
                        memory': seq<int32>, scene': ValidScene)
    requires |memory| == M.MAX_LOCALS
  {
    && Compiler.Compiles(p)
    && var o := Tick(Compiler.Meaning(p, Handle), Store(memory, scene), budget);
       !o.Wrong? && memory' == o.st.locals && scene' == o.st.world && Tame(scene, scene')
  }

  /**
   A tick of an agent's brain in its world, its first one or a later one: memory and world become what the source
   program says, and whatever the outcome, the program has touched only its own agent and made no energy. When the agent
   is not to be found, nothing changes.
   */
  method TickBrain(ghost p: Program, brain: Brain.BytecodeBrain, agentId: nat, world: Engine.World)
    requires Compiler.InScope(p, Handle) && brain.bc == Compiler.Binary(p) && brain.budget >= 0
    requires brain.Valid() && world.Valid() && Brain.Arrays(brain.vm) !! Brain.Cells(world)
    requires agentId in world.agentIndexMap ==> world.agentIndexMap[agentId] < |world.agents|
    modifies brain, brain.vm, brain.vm.stack, brain.vm.locals, brain.vm.callStack
    modifies world`agents, world`rng, world`nextId, world.food.cells, world.water.cells
    ensures brain.Valid() && brain.loaded && world.Valid()
    ensures var before, after := old(SceneFor(world, agentId)), SceneFor(world, agentId);
            if before.None? then Remembered(brain) == old(Remembered(brain)) && world.Abs([]) == old(world.Abs([]))
            else
              after.Some?
              && Lived(p, brain.budget, old(Remembered(brain)), before.value, Remembered(brain), after.value)
  {
    hide M.Run, Handle, Compiler.InScope, Compiler.Compiles, Compiler.Binary, Lived, SceneOf;
    NotRefused(p);
    if agentId in world.agentIndexMap {
      RunLives(p, Remembered(brain), SceneFor(world, agentId).value, brain.budget);
    }
    brain.Tick(agentId, world);
  }

  lemma RunLives(p: Program, memory: seq<int32>, scene: ValidScene, budget: nat)
    requires Compiler.InScope(p, Handle) && |memory| == M.MAX_LOCALS
    ensures var s := M.Run(Compiler.Binary(p), Some(Handle), Linking.Start(Store(memory, scene)), budget).state;
            Lived(p, budget, memory, scene, s.locals, s.world)
  {
    hide M.Run, Handle, Compiler.Binary, Tick, Tame, ProgramInFragment, Compiler.Compiles;
    Compiler.TickCorrect(p, Handle, Store(memory, scene), budget);
    RunTame(Compiler.Binary(p), Linking.Start(Store(memory, scene)), budget);
  }

  lemma NotRefused(p: Program)
    requires Compiler.InScope(p, Handle)
    ensures Compiler.Compiles(p) && Compiler.Binary(p).localCount <= M.MAX_LOCALS
  {
    hide Handle;
    Compiler.ShippedBytecode(p);
  }
}
