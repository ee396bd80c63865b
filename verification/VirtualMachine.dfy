/** The VM as the C++ class: a fixed stack, fixed locals and a fixed call stack, updated in place. */
module VirtualMachine {
  import opened Words
  import opened Opcodes
  import opened Machine

  const NO_CODE := Bytecode([], 0, [])

  class Vm<W> {
    var bc: Option<Bytecode>
    var handler: Option<Handler<W>>
    var world: W
    var pc: nat
    const stack: array<int32>
    var sp: nat
    const locals: array<int32>
    const callStack: array<nat>
    var callDepth: nat
    var halted: bool
    var lastError: Status

    ghost predicate Valid()
      reads this, stack, callStack
    {
      && stack.Length == MAX_STACK && locals.Length == MAX_LOCALS && callStack.Length == MAX_CALL_DEPTH
      && stack != locals
      && sp <= MAX_STACK && callDepth <= MAX_CALL_DEPTH
    }

    /** The bytecode in force; a machine with nothing loaded behaves as with empty code. */
    function Program(): Bytecode
      reads this
    {
      if bc.Some? then bc.value else NO_CODE
    }

    ghost function Abs(): (s: State<W>)
      requires Valid()
      reads this, stack, locals, callStack
      ensures |s.locals| == MAX_LOCALS
    {
      State(pc, stack[..sp], locals[..], callStack[..callDepth], halted, world)
    }

    constructor (world: W)
      ensures Valid() && fresh(stack) && fresh(locals) && fresh(callStack)
      ensures bc == None && handler == None
      ensures Abs() == State(0, [], seq(MAX_LOCALS, _ => 0), [], false, world)
    {
      bc, handler, this.world := None, None, world;
      pc, sp, callDepth, halted, lastError := 0, 0, 0, false, Running;
      stack := new int32[MAX_STACK](_ => 0);
      locals := new int32[MAX_LOCALS](_ => 0);
      callStack := new nat[MAX_CALL_DEPTH](_ => 0);
      new;
      assert locals[..] == seq(MAX_LOCALS, _ => 0);
    }

    /** Loading clears everything; code that wants too many locals is refused by starting halted. */
    method Load(code: Bytecode)
      requires Valid()
      modifies this, stack, locals
      ensures Valid() && bc == Some(code) && handler == old(handler)
      ensures Abs() == State(0, [], seq(MAX_LOCALS, _ => 0), [], code.localCount > MAX_LOCALS, old(world))
      ensures lastError == if code.localCount > MAX_LOCALS then OutOfBoundsLocal else Running
    {
      bc := Some(code);
      pc, sp, callDepth, halted := 0, 0, 0, false;
      if code.localCount > MAX_LOCALS {
        lastError, halted := OutOfBoundsLocal, true;
      } else {
        lastError := Running;
      }
      forall i | 0 <= i < stack.Length { stack[i] := 0; }
      forall i | 0 <= i < locals.Length { locals[i] := 0; }
      assert locals[..] == seq(MAX_LOCALS, _ => 0);
    }

    method SetIntrinsicHandler(h: Option<Handler<W>>)
      requires Valid()
      modifies this`handler
      ensures Valid() && handler == h && Abs() == old(Abs())
    {
      handler := h;
    }

    method ResetForTick()
      requires Valid()
      modifies this
      ensures Valid() && bc == old(bc) && handler == old(handler)
      ensures Abs() == Machine.ResetForTick(old(Abs()))
    {
      pc, sp, callDepth, halted, lastError := 0, 0, 0, false, Running;
    }

    method Push(v: int32)
      requires Valid() && sp < MAX_STACK
      modifies this`sp, stack
      ensures Valid() && sp == old(sp) + 1
      ensures Abs() == PushTo(old(Abs()), v)
    {
      stack[sp] := v;
      sp := sp + 1;
    }

    method Pop() returns (v: int32)
      requires Valid() && sp > 0
      modifies this`sp
      ensures Valid() && sp == old(sp) - 1
      ensures v == old(Abs()).stack[sp]
      ensures Abs() == old(Abs()).(stack := old(Abs()).stack[..sp])
    {
      sp := sp - 1;
      v := stack[sp];
    }

    method StepBinary(op: byte) returns (status: Status)
      requires Valid() && IsBinary(op)
      modifies this`sp, stack
      ensures Valid()
      ensures (Abs(), status) == Machine.StepBinary(op, old(Abs()))
    {
      if sp < 2 {
        return StackUnderflow;
      }
      ghost var s := Abs();
      var b := Pop();
      var a := Pop();
      assert Abs().stack == s.stack[..|s.stack| - 2];
      match Arith(op, a, b)
      case Err(fault) =>
        return fault;
      case Ok(v) =>
        Push(v);
        return Running;
    }

    method StepStack(op: byte) returns (status: Status)
      requires Valid() && op in {POP, DUP, SWAP}
      modifies this`sp, stack
      ensures Valid()
      ensures (Abs(), status) == Machine.StepStack(op, old(Abs()))
    {
      if op == POP {
        if sp == 0 {
          return StackUnderflow;
        }
        var _ := Pop();
      } else if op == DUP {
        if sp == 0 {
          return StackUnderflow;
        }
        if sp >= MAX_STACK {
          return StackOverflow;
        }
        Push(stack[sp - 1]);
      } else {
        if sp < 2 {
          return StackUnderflow;
        }
        ghost var s := Abs();
        stack[sp - 1], stack[sp - 2] := stack[sp - 2], stack[sp - 1];
        assert stack[..sp] == s.stack[..sp - 2] + [s.stack[sp - 1], s.stack[sp - 2]];
      }
      return Running;
    }

    method StepUnary(op: byte) returns (status: Status)
      requires Valid() && op in {NEG, NOT}
      modifies this`sp, stack
      ensures Valid()
      ensures (Abs(), status) == Machine.StepUnary(op, old(Abs()))
    {
      if sp < 1 {
        return StackUnderflow;
      }
      ghost var s := Abs();
      if op == NEG {
        stack[sp - 1] := Wrap(-(stack[sp - 1] as int));
        assert stack[..sp] == s.stack[..sp - 1] + [stack[sp - 1]];
      } else {
        var a := Pop();
        Push(Truth(a == 0));
      }
      return Running;
    }

    method StepPush(op: byte) returns (status: Status)
      requires Valid() && op in {PUSH_INT, PUSH_BOOL}
      modifies this`sp, this`pc, stack
      ensures Valid()
      ensures (Abs(), status) == Machine.StepPush(Program(), op, old(Abs()))
    {
      if sp >= MAX_STACK {
        return StackOverflow;
      }
      if op == PUSH_INT {
        if pc + 4 > |Program().code| {
          return InvalidOpcode;
        }
        var val := I32At(Program().code, pc);
        pc := pc + 4;
        Push(val);
      } else {
        if pc >= |Program().code| {
          return InvalidOpcode;
        }
        var val := Program().code[pc];
        pc := pc + 1;
        Push(Truth(val != 0));
      }
      return Running;
    }

    method StepControl(op: byte) returns (status: Status)
      requires Valid() && op in {JMP, JMP_IF_FALSE, CALL, RETURN}
      modifies this`sp, this`pc, this`callDepth, this`halted, callStack
      ensures Valid()
      ensures (Abs(), status) == Machine.StepControl(Program(), op, old(Abs()))
    {
      var size := |Program().code|;
      if op == RETURN {
        if callDepth == 0 {
          halted := true;
          return Halted;
        }
        callDepth := callDepth - 1;
        pc := callStack[callDepth];
        assert callStack[..callDepth] == old(callStack[..callDepth])[..callDepth];
        return Running;
      }
      if op == JMP_IF_FALSE && sp < 1 {
        return StackUnderflow;
      }
      if op == CALL && callDepth >= MAX_CALL_DEPTH {
        return CallDepthExceeded;
      }
      if pc + 2 > size {
        return OutOfBoundsJump;
      }
      var operandPos := pc;
      pc := pc + 2;
      if op == CALL {
        var addr := U16At(Program().code, operandPos);
        if addr > size {
          return OutOfBoundsJump;
        }
        callStack[callDepth] := pc;
        callDepth := callDepth + 1;
        assert callStack[..callDepth] == old(callStack[..callDepth]) + [pc];
        pc := addr;
        return Running;
      }
      var offset := I16At(Program().code, operandPos);
      if op == JMP_IF_FALSE {
        var cond := Pop();
        if cond != 0 {
          return Running;
        }
      }
      var target := operandPos + offset;
      if target < 0 || target > size {
        return OutOfBoundsJump;
      }
      pc := target;
      return Running;
    }

    method StepLocal(op: byte) returns (status: Status)
      requires Valid() && op in {LOAD_LOCAL, STORE_LOCAL}
      modifies this`sp, this`pc, stack, locals
      ensures Valid()
      ensures (Abs(), status) == Machine.StepLocal(Program(), op, old(Abs()))
    {
      if pc >= |Program().code| {
        return InvalidOpcode;
      }
      if op == LOAD_LOCAL && sp >= MAX_STACK {
        return StackOverflow;
      }
      if op == STORE_LOCAL && sp < 1 {
        return StackUnderflow;
      }
      var idx := Program().code[pc];
      pc := pc + 1;
      if idx >= Program().localCount {
        return OutOfBoundsLocal;
      }
      if op == LOAD_LOCAL {
        Push(locals[idx]);
      } else {
        var v := Pop();
        locals[idx] := v;
      }
      return Running;
    }

    method StepConst() returns (status: Status)
      requires Valid()
      modifies this`sp, this`pc, stack
      ensures Valid()
      ensures (Abs(), status) == Machine.StepConst(Program(), old(Abs()))
    {
      if pc + 2 > |Program().code| {
        return InvalidOpcode;
      }
      if sp >= MAX_STACK {
        return StackOverflow;
      }
      var idx := U16At(Program().code, pc);
      pc := pc + 2;
      if idx >= |Program().constants| {
        return InvalidOpcode;
      }
      match Program().constants[idx]
      case IntConst(n) =>
        Push(n);
        return Running;
      case StrConst(_) =>
        return InvalidOpcode;
    }

    /**
     The handler's pushes are unchecked writes; where they would leave the stack, the method stops with
     StackOverrun.
     */
    method StepIntrinsic(op: byte) returns (status: Status)
      requires Valid() && PERCEIVE <= op <= MY_TRAIT
      modifies this`sp, this`pc, this`world, stack
      ensures Valid()
      ensures (Abs(), status) == Machine.StepIntrinsic(Program(), handler, op, old(Abs()))
    {
      if handler.None? {
        return UnimplementedIntrinsic;
      }
      var operand: byte := 0;
      if op == MY_TRAIT {
        if pc >= |Program().code| {
          return InvalidOpcode;
        }
        operand := Program().code[pc];
        pc := pc + 1;
      }
      var reply := handler.value(IntrinsicOf(op, operand), world);
      world := reply.world;
      if sp + |reply.pushed| > MAX_STACK {
        return StackOverrun;
      }
      ghost var s := Abs();
      assert s.stack + reply.pushed[..0] == s.stack;
      for i := 0 to |reply.pushed|
        invariant Valid() && sp == |s.stack| + i
        invariant Abs() == s.(stack := s.stack + reply.pushed[..i])
      {
        Push(reply.pushed[i]);
        assert s.stack + reply.pushed[..i + 1] == s.stack + reply.pushed[..i] + [reply.pushed[i]];
      }
      assert reply.pushed[..|reply.pushed|] == reply.pushed;
      return Running;
    }

    method Step() returns (status: Status)
      requires Valid()
      modifies this`sp, this`pc, this`callDepth, this`halted, this`world, stack, locals, callStack
      ensures Valid()
      ensures (Abs(), status) == Machine.Step(Program(), handler, old(Abs()))
    {
      if halted {
        return Halted;
      }
      if bc.None? || pc >= |bc.value.code| {
        halted := true;
        return Halted;
      }
      var op := bc.value.code[pc];
      pc := pc + 1;
      if op == HALT {
        halted := true;
        status := Halted;
      } else if op == NOP {
        status := Running;
      } else if op in {PUSH_INT, PUSH_BOOL} {
        status := StepPush(op);
      } else if op in {POP, DUP, SWAP} {
        status := StepStack(op);
      } else if IsBinary(op) {
        status := StepBinary(op);
      } else if op in {NEG, NOT} {
        status := StepUnary(op);
      } else if op in {JMP, JMP_IF_FALSE, CALL, RETURN} {
        status := StepControl(op);
      } else if op in {LOAD_LOCAL, STORE_LOCAL} {
        status := StepLocal(op);
      } else if op == LOAD_CONST {
        status := StepConst();
      } else if PERCEIVE <= op <= MY_TRAIT {
        status := StepIntrinsic(op);
      } else {
        status := InvalidOpcode;
      }
    }

    /** Refines Machine.Run for every code, handler and budget. */
    method Run(budget: int) returns (status: Status)
      requires Valid()
      modifies this`sp, this`pc, this`callDepth, this`halted, this`world, stack, locals, callStack
      ensures Valid()
      ensures var r := Machine.Run(Program(), handler, old(Abs()), budget);
              Abs() == r.state && status == r.status
    {
      hide Machine.Step;
      var remaining := budget;
      while remaining > 0
        invariant Valid()
        invariant Machine.Run(Program(), handler, old(Abs()), budget)
               == Machine.Run(Program(), handler, Abs(), remaining)
      {
        var nextOp := if bc.Some? && pc < |bc.value.code| then bc.value.code[pc] else 0;
        var isIntrinsic := 0x80 <= nextOp <= 0x8F;
        var cost := if isIntrinsic then INTRINSIC_COST else 1;
        if remaining < cost {
          return BudgetExhausted;
        }
        status := Step();
        remaining := remaining - cost;
        if status != Running {
          return;
        }
      }
      return BudgetExhausted;
    }
  }
}
