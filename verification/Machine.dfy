/** The machine as a function from states to states. */
module Machine {
  import opened Words
  import opened Opcodes

  const MAX_STACK := 256
  const MAX_LOCALS := 256
  const MAX_CALL_DEPTH := 32
  const INTRINSIC_COST := 10

  /**
   The last two are no statuses of the engine: they mark the places where its code has no defined behaviour, a handler
   that pushes past the end of the stack array, and the quotient or remainder of the least integer by -1.
   */
  datatype Status =
    | Running | Halted | BudgetExhausted | StackOverflow | StackUnderflow | DivisionByZero
    | InvalidOpcode | CallDepthExceeded | OutOfBoundsLocal | OutOfBoundsJump | UnimplementedIntrinsic
    | StackOverrun | QuotientOverflow

  datatype Constant = IntConst(n: int32) | StrConst(s: seq<byte>)

  datatype Bytecode = Bytecode(code: seq<byte>, localCount: nat, constants: seq<Constant>)

  /** The agent intrinsics, each with its inline operand. */
  datatype Intrinsic =
    | Perceive | Look | Move | TurnLeft | TurnRight | Eat | Drink | Reproduce
    | MyEnergy | MyHydration | MyTrait(id: byte)

  /** What an intrinsic does: the world it leaves and the values it pushes, bottom first. */
  datatype Reply<+W> = Reply(world: W, pushed: seq<int32>)

  type Handler<!W> = (Intrinsic, W) -> Reply<W>

  function PushCount(i: Intrinsic): nat {
    match i
    case Perceive => 4
    case Look => 4
    case Move => 0
    case TurnLeft => 0
    case TurnRight => 0
    case _ => 1
  }

  /** The handler pushes exactly as many values as each intrinsic is documented to push. */
  ghost predicate WellBehaved<W(!new)>(h: Handler<W>) {
    forall i, w :: |h(i, w).pushed| == PushCount(i)
  }

  datatype State<+W> = State(
    pc: nat, stack: seq<int32>, locals: seq<int32>, frames: seq<nat>, halted: bool, world: W)

  function Truth(b: bool): int32 {
    if b then 1 else 0
  }

  const LEAST := -0x8000_0000

  /** The result of a binary opcode, or the status that it stops with. */
  function Arith(op: byte, a: int32, b: int32): (r: Result<int32, Status>)
    requires IsBinary(op)
    ensures r.Err? ==> r.error in {DivisionByZero, QuotientOverflow}
  {
    if op == ADD then Ok(Wrap(a + b))
    else if op == SUB then Ok(Wrap(a - b))
    else if op == MUL then Ok(Wrap(a * b))
    else if op == DIV || op == MOD then
      if b == 0 then Err(DivisionByZero)
      else if a == LEAST && b == -1 then Err(QuotientOverflow)
      else Ok(if op == DIV then Wrap(TruncDiv(a, b)) else Wrap(TruncMod(a, b)))
    else if op == EQ then Ok(Truth(a == b))
    else if op == LT then Ok(Truth(a < b))
    else if op == GT then Ok(Truth(a > b))
    else if op == AND then Ok(Truth(a != 0 && b != 0))
    else Ok(Truth(a != 0 || b != 0))
  }

  // ---- One instruction, by group; s.pc is already past the opcode ----

  function PushTo<W>(s: State<W>, v: int32): State<W> {
    s.(stack := s.stack + [v])
  }

  function StepStack<W>(op: byte, s: State<W>): (State<W>, Status)
    requires op in {POP, DUP, SWAP}
  {
    var n := |s.stack|;
    if op == POP then
      if n == 0 then (s, StackUnderflow) else (s.(stack := s.stack[..n - 1]), Running)
    else if op == DUP then
      if n == 0 then (s, StackUnderflow)
      else if n >= MAX_STACK then (s, StackOverflow)
      else (PushTo(s, s.stack[n - 1]), Running)
    else
      if n < 2 then (s, StackUnderflow)
      else (s.(stack := s.stack[..n - 2] + [s.stack[n - 1], s.stack[n - 2]]), Running)
  }

  function StepBinary<W>(op: byte, s: State<W>): (State<W>, Status)
    requires IsBinary(op)
  {
    var n := |s.stack|;
    if n < 2 then (s, StackUnderflow)
    else
      var below := s.(stack := s.stack[..n - 2]);
      match Arith(op, s.stack[n - 2], s.stack[n - 1])
      case Err(status) => (below, status)
      case Ok(v) => (PushTo(below, v), Running)
  }

  function StepUnary<W>(op: byte, s: State<W>): (State<W>, Status)
    requires op in {NEG, NOT}
  {
    var n := |s.stack|;
    if n < 1 then (s, StackUnderflow)
    else
      var a := s.stack[n - 1];
      (PushTo(s.(stack := s.stack[..n - 1]), if op == NEG then Wrap(-(a as int)) else Truth(a == 0)), Running)
  }

  function StepPush<W>(bc: Bytecode, op: byte, s: State<W>): (State<W>, Status)
    requires op in {PUSH_INT, PUSH_BOOL}
  {
    if |s.stack| >= MAX_STACK then (s, StackOverflow)
    else if op == PUSH_INT then
      if s.pc + 4 > |bc.code| then (s, InvalidOpcode)
      else (PushTo(s.(pc := s.pc + 4), I32At(bc.code, s.pc)), Running)
    else
      if s.pc >= |bc.code| then (s, InvalidOpcode)
      else (PushTo(s.(pc := s.pc + 1), Truth(bc.code[s.pc] != 0)), Running)
  }

  /** Jumps are relative to the position of their operand. */
  function JumpTo<W>(bc: Bytecode, s: State<W>, operandPos: nat): (State<W>, Status)
    requires operandPos + 2 <= |bc.code|
  {
    var target := operandPos + I16At(bc.code, operandPos);
    if target < 0 || target > |bc.code| then (s, OutOfBoundsJump) else (s.(pc := target), Running)
  }

  function StepControl<W>(bc: Bytecode, op: byte, s: State<W>): (State<W>, Status)
    requires op in {JMP, JMP_IF_FALSE, CALL, RETURN}
  {
    var n := |s.stack|;
    if op == JMP then
      if s.pc + 2 > |bc.code| then (s, OutOfBoundsJump)
      else JumpTo(bc, s.(pc := s.pc + 2), s.pc)
    else if op == JMP_IF_FALSE then
      if n < 1 then (s, StackUnderflow)
      else if s.pc + 2 > |bc.code| then (s, OutOfBoundsJump)
      else
        var s' := s.(pc := s.pc + 2, stack := s.stack[..n - 1]);
        if s.stack[n - 1] == 0 then JumpTo(bc, s', s.pc) else (s', Running)
    else if op == CALL then
      if |s.frames| >= MAX_CALL_DEPTH then (s, CallDepthExceeded)
      else if s.pc + 2 > |bc.code| then (s, OutOfBoundsJump)
      else
        var addr := U16At(bc.code, s.pc);
        var s' := s.(pc := s.pc + 2);
        if addr > |bc.code| then (s', OutOfBoundsJump)
        else (s'.(pc := addr, frames := s.frames + [s.pc + 2]), Running)
    else
      if |s.frames| == 0 then (s.(halted := true), Halted)
      else (s.(pc := s.frames[|s.frames| - 1], frames := s.frames[..|s.frames| - 1]), Running)
  }

  function StepLocal<W>(bc: Bytecode, op: byte, s: State<W>): (State<W>, Status)
    requires op in {LOAD_LOCAL, STORE_LOCAL}
    requires |s.locals| == MAX_LOCALS
  {
    var n := |s.stack|;
    if s.pc >= |bc.code| then (s, InvalidOpcode)
    else
      var idx := bc.code[s.pc];
      var s' := s.(pc := s.pc + 1);
      if op == LOAD_LOCAL then
        if n >= MAX_STACK then (s, StackOverflow)
        else if idx >= bc.localCount then (s', OutOfBoundsLocal)
        else (PushTo(s', s.locals[idx]), Running)
      else
        if n < 1 then (s, StackUnderflow)
        else if idx >= bc.localCount then (s', OutOfBoundsLocal)
        else (s'.(stack := s.stack[..n - 1], locals := s.locals[idx := s.stack[n - 1]]), Running)
  }

  function StepConst<W>(bc: Bytecode, s: State<W>): (State<W>, Status) {
    if s.pc + 2 > |bc.code| then (s, InvalidOpcode)
    else if |s.stack| >= MAX_STACK then (s, StackOverflow)
    else
      var idx := U16At(bc.code, s.pc);
      var s' := s.(pc := s.pc + 2);
      if idx >= |bc.constants| then (s', InvalidOpcode)
      else
        match bc.constants[idx]
        case IntConst(n) => (PushTo(s', n), Running)
        case StrConst(_) => (s', InvalidOpcode)
  }

  /** The intrinsic that an opcode names; MY_TRAIT takes the byte after it. */
  function IntrinsicOf(op: byte, operand: byte): Intrinsic
    requires PERCEIVE <= op <= MY_TRAIT
  {
    if op == PERCEIVE then Perceive
    else if op == LOOK then Look
    else if op == MOVE then Move
    else if op == TURN_LEFT then TurnLeft
    else if op == TURN_RIGHT then TurnRight
    else if op == EAT then Eat
    else if op == DRINK then Drink
    else if op == REPRODUCE then Reproduce
    else if op == MY_ENERGY then MyEnergy
    else if op == MY_HYDRATION then MyHydration
    else MyTrait(operand)
  }

  /** Handlers act first and then push without a bounds check, so what they push may have no room. */
  function StepIntrinsic<W>(bc: Bytecode, h: Option<Handler<W>>, op: byte, s: State<W>): (State<W>, Status)
    requires PERCEIVE <= op <= MY_TRAIT
  {
    if h.None? then (s, UnimplementedIntrinsic)
    else if op == MY_TRAIT && s.pc >= |bc.code| then (s, InvalidOpcode)
    else
      var operand := if op == MY_TRAIT then bc.code[s.pc] else 0;
      var reply := h.value(IntrinsicOf(op, operand), s.world);
      var s' := s.(pc := if op == MY_TRAIT then s.pc + 1 else s.pc, world := reply.world);
      if |s.stack| + |reply.pushed| > MAX_STACK then (s', StackOverrun)
      else (s'.(stack := s.stack + reply.pushed), Running)
  }

  /** Executes one instruction. */
  function Step<W>(bc: Bytecode, h: Option<Handler<W>>, s: State<W>): (r: (State<W>, Status))
    requires |s.locals| == MAX_LOCALS
    ensures |r.0.locals| == MAX_LOCALS
  {
    if s.halted then (s, Halted)
    else if s.pc >= |bc.code| then (s.(halted := true), Halted)
    else
      var op := bc.code[s.pc];
      var s' := s.(pc := s.pc + 1);
      if op == HALT then (s'.(halted := true), Halted)
      else if op == NOP then (s', Running)
      else if op in {PUSH_INT, PUSH_BOOL} then StepPush(bc, op, s')
      else if op in {POP, DUP, SWAP} then StepStack(op, s')
      else if IsBinary(op) then StepBinary(op, s')
      else if op in {NEG, NOT} then StepUnary(op, s')
      else if op in {JMP, JMP_IF_FALSE, CALL, RETURN} then StepControl(bc, op, s')
      else if op in {LOAD_LOCAL, STORE_LOCAL} then StepLocal(bc, op, s')
      else if op == LOAD_CONST then StepConst(bc, s')
      else if PERCEIVE <= op <= MY_TRAIT then StepIntrinsic(bc, h, op, s')
      else (s', InvalidOpcode)
  }

  /** What the next instruction is charged; past the end of the code it counts as HALT. */
  function CostAt(code: seq<byte>, pc: nat): (c: int)
    ensures c == 1 || c == INTRINSIC_COST
  {
    if pc < |code| && 0x80 <= code[pc] <= 0x8F then INTRINSIC_COST else 1
  }

  datatype Outcome<+W> = Outcome(state: State<W>, status: Status, left: int)

  /** Executes instructions until one does not continue, or the budget cannot pay for the next. */
  function Run<W>(bc: Bytecode, h: Option<Handler<W>>, s: State<W>, budget: int): (r: Outcome<W>)
    requires |s.locals| == MAX_LOCALS
    ensures |r.state.locals| == MAX_LOCALS
    decreases if budget > 0 then budget else 0
  {
    var cost := CostAt(bc.code, s.pc);
    if budget <= 0 || budget < cost then Outcome(s, BudgetExhausted, budget)
    else
      var (s', status) := Step(bc, h, s);
      if status != Running then Outcome(s', status, budget - cost)
      else Run(bc, h, s', budget - cost)
  }

  /** The state in which a tick starts: locals and world persist. */
  function ResetForTick<W>(s: State<W>): State<W> {
    State(0, [], s.locals, [], false, s.world)
  }
}
