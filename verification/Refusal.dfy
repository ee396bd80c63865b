/** Code that asks for more than 256 locals: load refuses it, and the reset before the next tick forgets that. */
module Refusal {
  import opened Words
  import opened Opcodes
  import opened Machine
  import MachineLaws

  /** The state in which loading leaves a machine. */
  ghost function JustLoaded<W>(bc: Bytecode, world: W): (s: State<W>)
    ensures |s.locals| == MAX_LOCALS
  {
    State(0, [], seq(MAX_LOCALS, _ => 0), [], bc.localCount > MAX_LOCALS, world)
  }

  /** Local indices are bytes, so more locals than 256 make no difference to an instruction. */
  lemma StepIgnoresExcess<W>(bc: Bytecode, h: Option<Handler<W>>, s: State<W>)
    requires bc.localCount > MAX_LOCALS && |s.locals| == MAX_LOCALS
    ensures Step(bc, h, s) == Step(bc.(localCount := MAX_LOCALS), h, s)
  {
    hide Arith, I16At, I32At, U16At;
  }

  lemma {:induction false} RunIgnoresExcess<W>(bc: Bytecode, h: Option<Handler<W>>, s: State<W>, b: nat)
    requires bc.localCount > MAX_LOCALS && |s.locals| == MAX_LOCALS
    ensures Run(bc, h, s, b) == Run(bc.(localCount := MAX_LOCALS), h, s, b)
    decreases b
  {
    hide Step;
    StepIgnoresExcess(bc, h, s);
    var cost := CostAt(bc.code, s.pc);
    if cost <= b && Step(bc, h, s).1 == Running {
      RunIgnoresExcess(bc, h, Step(bc, h, s).0, b - cost);
    }
  }

  /** A tick of refused code changes nothing: not the locals, not the world. */
  lemma RefusedTick<W>(bc: Bytecode, h: Option<Handler<W>>, world: W, b: nat)
    requires bc.localCount > MAX_LOCALS
    ensures Run(bc, h, JustLoaded(bc, world), b).state == JustLoaded(bc, world)
  {
  }

  /**
   The refusal lasts for one tick. The second tick of refused code is, step for step and in whatever world it finds, the
   first tick of the same code asking for 256 locals.
   */
  lemma RefusalIsForgotten<W>(bc: Bytecode, h: Option<Handler<W>>, first: W, second: W, b: nat)
    requires bc.localCount > MAX_LOCALS
    ensures var after := Run(bc, h, JustLoaded(bc, first), b).state;
            var fitting := bc.(localCount := MAX_LOCALS);
            Run(bc, h, ResetForTick(after.(world := second)), b) == Run(fitting, h, JustLoaded(fitting, second), b)
  {
    hide Run;
    RefusedTick(bc, h, first, b);
    RunIgnoresExcess(bc, h, ResetForTick(JustLoaded(bc, second)), b);
  }

  /**
   MOVE, HALT with 257 locals: nothing in the first tick; in the second one a move, exactly when the budget is at
   least 10.
   */
  lemma RefusedMover<W>(h: Handler<W>, world: W, b: nat)
    requires |h(Move, world).pushed| == 0
    ensures var bc := Bytecode([MOVE, HALT], 257, []);
            var after := Run(bc, Some(h), JustLoaded(bc, world), b).state;
            && after.world == world
            && Run(bc, Some(h), ResetForTick(after), b).state.world == if b >= 10 then h(Move, world).world else world
  {
    var bc := Bytecode([MOVE, HALT], 257, []);
    RefusedTick(bc, Some(h), world, b);
    if b >= 10 {
      var s := ResetForTick(JustLoaded(bc, world));
      var moved := s.(pc := 1, world := h(Move, world).world);
      assert s.stack + h(Move, world).pushed == s.stack;
      assert Step(bc, Some(h), s) == (moved, Running);
      assert Step(bc, Some(h), moved) == (moved.(pc := 2, halted := true), Halted);
      assert Run(bc, Some(h), s, b) == Run(bc, Some(h), moved, b - 10);
      assert Run(bc, Some(h), moved, b - 10).state.world == moved.world;
    }
  }
}
