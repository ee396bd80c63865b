/** What a run does when a known instruction is at the program counter. */
module Instructions {
  import opened Words
  import opened Opcodes
  import opened Machine

  /** The bytes s stand in the code at position pc. */
  predicate At(code: seq<byte>, pc: nat, s: seq<byte>)
    ensures At(code, pc, s) ==> pc + |s| <= |code|
  {
    pc + |s| <= |code| && code[pc..pc + |s|] == s
  }

  lemma AtSplit(code: seq<byte>, pc: nat, a: seq<byte>, b: seq<byte>)
    requires At(code, pc, a + b)
    ensures At(code, pc, a) && At(code, pc + |a|, b)
  {
    assert (a + b)[..|a|] == a && (a + b)[|a|..] == b;
    assert code[pc..pc + |a|] == code[pc..pc + |a + b|][..|a|];
    assert code[pc + |a|..pc + |a + b|] == code[pc..pc + |a + b|][|a|..];
  }

  lemma AtOpcode(code: seq<byte>, pc: nat, op: byte, rest: seq<byte>)
    requires At(code, pc, [op] + rest)
    ensures code[pc] == op && At(code, pc + 1, rest)
  {
    AtSplit(code, pc, [op], rest);
    assert code[pc..pc + 1][0] == op;
  }

  ghost predicate Ready<W>(s: State<W>) {
    !s.halted && |s.locals| == MAX_LOCALS
  }

  /** The run stops here for lack of budget. */
  function Broke<W>(s: State<W>, b: int): Outcome<W> {
    Outcome(s, BudgetExhausted, b)
  }

  function Moved<W>(s: State<W>, n: nat): State<W> {
    s.(pc := s.pc + n)
  }

  function Top(stack: seq<int32>): int32
    requires |stack| > 0
  {
    stack[|stack| - 1]
  }

  function Below(stack: seq<int32>): seq<int32>
    requires |stack| > 0
  {
    stack[..|stack| - 1]
  }

  /** One turn of the loop in Run. */
  lemma RunOnce<W>(bc: Bytecode, h: Option<Handler<W>>, s: State<W>, b: nat)
    requires |s.locals| == MAX_LOCALS
    ensures Run(bc, h, s, b) ==
            var cost := CostAt(bc.code, s.pc);
            if b < cost then Broke(s, b)
            else
              var (s', status) := Step(bc, h, s);
              if status == Running then Run(bc, h, s', b - cost) else Outcome(s', status, b - cost)
  {
    hide Step;
  }

  lemma RunPushInt<W>(bc: Bytecode, h: Option<Handler<W>>, s: State<W>, b: nat, v: int32)
    requires Ready(s) && At(bc.code, s.pc, [PUSH_INT] + I32Bytes(v))
    ensures Run(bc, h, s, b) ==
            if b < 1 then Broke(s, b)
            else if |s.stack| >= MAX_STACK then Outcome(Moved(s, 1), StackOverflow, b - 1)
            else Run(bc, h, PushTo(Moved(s, 5), v), b - 1)
  {
    hide Run;
    RunOnce(bc, h, s, b);
    AtOpcode(bc.code, s.pc, PUSH_INT, I32Bytes(v));
    I32RoundTrip(bc.code, s.pc + 1, v);
  }

  lemma RunPushBool<W>(bc: Bytecode, h: Option<Handler<W>>, s: State<W>, b: nat, v: bool)
    requires Ready(s) && At(bc.code, s.pc, [PUSH_BOOL, if v then 1 else 0])
    ensures Run(bc, h, s, b) ==
            if b < 1 then Broke(s, b)
            else if |s.stack| >= MAX_STACK then Outcome(Moved(s, 1), StackOverflow, b - 1)
            else Run(bc, h, PushTo(Moved(s, 2), Truth(v)), b - 1)
  {
    hide Run;
    RunOnce(bc, h, s, b);
    AtOpcode(bc.code, s.pc, PUSH_BOOL, [if v then 1 else 0]);
    assert bc.code[s.pc + 1..s.pc + 2][0] == bc.code[s.pc + 1];
  }

  lemma RunLoad<W>(bc: Bytecode, h: Option<Handler<W>>, s: State<W>, b: nat, slot: byte)
    requires Ready(s) && At(bc.code, s.pc, [LOAD_LOCAL, slot]) && slot < bc.localCount
    ensures Run(bc, h, s, b) ==
            if b < 1 then Broke(s, b)
            else if |s.stack| >= MAX_STACK then Outcome(Moved(s, 1), StackOverflow, b - 1)
            else Run(bc, h, PushTo(Moved(s, 2), s.locals[slot]), b - 1)
  {
    hide Run;
    RunOnce(bc, h, s, b);
    AtOpcode(bc.code, s.pc, LOAD_LOCAL, [slot]);
    assert bc.code[s.pc + 1..s.pc + 2][0] == bc.code[s.pc + 1];
  }

  lemma RunStore<W>(bc: Bytecode, h: Option<Handler<W>>, s: State<W>, b: nat, slot: byte)
    requires Ready(s) && At(bc.code, s.pc, [STORE_LOCAL, slot]) && slot < bc.localCount && |s.stack| > 0
    ensures Run(bc, h, s, b) ==
            if b < 1 then Broke(s, b)
            else Run(bc, h, Moved(s, 2).(stack := Below(s.stack), locals := s.locals[slot := Top(s.stack)]), b - 1)
  {
    hide Run;
    RunOnce(bc, h, s, b);
    AtOpcode(bc.code, s.pc, STORE_LOCAL, [slot]);
    assert bc.code[s.pc + 1..s.pc + 2][0] == bc.code[s.pc + 1];
  }

  lemma RunBinary<W>(bc: Bytecode, h: Option<Handler<W>>, s: State<W>, b: nat, op: byte, below: seq<int32>, x: int32,
                     y: int32)
    requires Ready(s) && IsBinary(op) && At(bc.code, s.pc, [op]) && s.stack == below + [x, y]
    ensures Run(bc, h, s, b) ==
            if b < 1 then Broke(s, b)
            else
              match Arith(op, x, y)
              case Err(status) => Outcome(Moved(s, 1).(stack := below), status, b - 1)
              case Ok(v) => Run(bc, h, Moved(s, 1).(stack := below + [v]), b - 1)
  {
    hide Run;
    RunOnce(bc, h, s, b);
    hide Arith;
    AtOpcode(bc.code, s.pc, op, []);
    assert s.stack[..|s.stack| - 2] == below;
    assert Step(bc, h, s) == StepBinary(op, Moved(s, 1));
  }

  lemma RunUnary<W>(bc: Bytecode, h: Option<Handler<W>>, s: State<W>, b: nat, op: byte, below: seq<int32>, x: int32)
    requires Ready(s) && op in {NEG, NOT} && At(bc.code, s.pc, [op]) && s.stack == below + [x]
    ensures Run(bc, h, s, b) ==
            if b < 1 then Broke(s, b)
            else
              var v := if op == NEG then Wrap(-(x as int)) else Truth(x == 0);
              Run(bc, h, Moved(s, 1).(stack := below + [v]), b - 1)
  {
    hide Run;
    RunOnce(bc, h, s, b);
    AtOpcode(bc.code, s.pc, op, []);
    assert s.stack[..|s.stack| - 1] == below;
  }

  lemma RunPop<W>(bc: Bytecode, h: Option<Handler<W>>, s: State<W>, b: nat)
    requires Ready(s) && At(bc.code, s.pc, [POP]) && |s.stack| > 0
    ensures Run(bc, h, s, b) ==
            if b < 1 then Broke(s, b) else Run(bc, h, Moved(s, 1).(stack := Below(s.stack)), b - 1)
  {
    hide Run;
    RunOnce(bc, h, s, b);
    AtOpcode(bc.code, s.pc, POP, []);
  }

  /** The state after n POPs. */
  function Popped<W>(s: State<W>, n: nat): State<W>
    requires n <= |s.stack|
  {
    Moved(s, n).(stack := s.stack[..|s.stack| - n])
  }

  lemma {:induction false} RunPops<W>(bc: Bytecode, h: Option<Handler<W>>, s: State<W>, b: nat, n: nat)
    requires Ready(s) && n <= |s.stack| && At(bc.code, s.pc, seq(n, _ => POP))
    ensures Run(bc, h, s, b) == if b < n then Broke(Popped(s, b), 0) else Run(bc, h, Popped(s, n), b - n)
    decreases n
  {
    hide Run, At;
    if n == 0 {
      assert Popped(s, 0) == s;
    } else {
      assert seq(n, _ => POP) == [POP] + seq(n - 1, _ => POP);
      AtSplit(bc.code, s.pc, [POP], seq(n - 1, _ => POP));
      RunPop(bc, h, s, b);
      if b == 0 {
        assert Popped(s, 0) == s;
      } else {
        RunPops(bc, h, Popped(s, 1), b - 1, n - 1);
        var m := if b < n then b - 1 else n - 1;
        assert Popped(Popped(s, 1), m) == Popped(s, m + 1);
      }
    }
  }

  lemma RunSwap<W>(bc: Bytecode, h: Option<Handler<W>>, s: State<W>, b: nat, below: seq<int32>, x: int32, y: int32)
    requires Ready(s) && At(bc.code, s.pc, [SWAP]) && s.stack == below + [x, y]
    ensures Run(bc, h, s, b) ==
            if b < 1 then Broke(s, b) else Run(bc, h, Moved(s, 1).(stack := below + [y, x]), b - 1)
  {
    hide Run;
    RunOnce(bc, h, s, b);
    AtOpcode(bc.code, s.pc, SWAP, []);
    assert s.stack[..|s.stack| - 2] == below;
  }

  lemma RunJump<W>(bc: Bytecode, h: Option<Handler<W>>, s: State<W>, b: nat, offset: int)
    requires Ready(s) && -0x8000 <= offset < 0x8000 && At(bc.code, s.pc, [JMP] + I16Bytes(offset))
    requires 0 <= s.pc + 1 + offset <= |bc.code|
    ensures Run(bc, h, s, b) ==
            if b < 1 then Broke(s, b) else Run(bc, h, s.(pc := s.pc + 1 + offset), b - 1)
  {
    hide Run;
    RunOnce(bc, h, s, b);
    AtOpcode(bc.code, s.pc, JMP, I16Bytes(offset));
    I16RoundTrip(bc.code, s.pc + 1, offset);
  }

  lemma RunJumpIfFalse<W>(bc: Bytecode, h: Option<Handler<W>>, s: State<W>, b: nat, offset: int)
    requires Ready(s) && -0x8000 <= offset < 0x8000 && At(bc.code, s.pc, [JMP_IF_FALSE] + I16Bytes(offset))
    requires 0 <= s.pc + 1 + offset <= |bc.code| && |s.stack| > 0
    ensures Run(bc, h, s, b) ==
            if b < 1 then Broke(s, b)
            else
              var next := if Top(s.stack) == 0 then s.pc + 1 + offset else s.pc + 3;
              Run(bc, h, s.(pc := next, stack := Below(s.stack)), b - 1)
  {
    hide Run;
    RunOnce(bc, h, s, b);
    AtOpcode(bc.code, s.pc, JMP_IF_FALSE, I16Bytes(offset));
    I16RoundTrip(bc.code, s.pc + 1, offset);
  }

  lemma RunCall<W>(bc: Bytecode, h: Option<Handler<W>>, s: State<W>, b: nat, addr: int)
    requires Ready(s) && 0 <= addr < 0x1_0000 && At(bc.code, s.pc, [CALL] + U16Bytes(addr)) && addr <= |bc.code|
    ensures Run(bc, h, s, b) ==
            if b < 1 then Broke(s, b)
            else if |s.frames| >= MAX_CALL_DEPTH then Outcome(Moved(s, 1), CallDepthExceeded, b - 1)
            else Run(bc, h, s.(pc := addr, frames := s.frames + [s.pc + 3]), b - 1)
  {
    hide Run;
    RunOnce(bc, h, s, b);
    AtOpcode(bc.code, s.pc, CALL, U16Bytes(addr));
    U16RoundTrip(bc.code, s.pc + 1, addr);
  }

  lemma RunReturn<W>(bc: Bytecode, h: Option<Handler<W>>, s: State<W>, b: nat)
    requires Ready(s) && At(bc.code, s.pc, [RETURN]) && |s.frames| > 0
    ensures Run(bc, h, s, b) ==
            if b < 1 then Broke(s, b)
            else Run(bc, h, s.(pc := s.frames[|s.frames| - 1], frames := s.frames[..|s.frames| - 1]), b - 1)
  {
    hide Run;
    RunOnce(bc, h, s, b);
    AtOpcode(bc.code, s.pc, RETURN, []);
  }

  lemma RunHalt<W>(bc: Bytecode, h: Option<Handler<W>>, s: State<W>, b: nat)
    requires Ready(s) && At(bc.code, s.pc, [HALT])
    ensures Run(bc, h, s, b) ==
            if b < 1 then Broke(s, b) else Outcome(Moved(s, 1).(halted := true), Halted, b - 1)
  {
    hide Run;
    RunOnce(bc, h, s, b);
    AtOpcode(bc.code, s.pc, HALT, []);
  }

  /** The encoding of an intrinsic. */
  function IntrinsicBytes(i: Intrinsic): seq<byte> {
    match i
    case Perceive => [PERCEIVE]
    case Look => [LOOK]
    case Move => [MOVE]
    case TurnLeft => [TURN_LEFT]
    case TurnRight => [TURN_RIGHT]
    case Eat => [EAT]
    case Drink => [DRINK]
    case Reproduce => [REPRODUCE]
    case MyEnergy => [MY_ENERGY]
    case MyHydration => [MY_HYDRATION]
    case MyTrait(id) => [MY_TRAIT, id]
  }

  lemma RunIntrinsic<W>(bc: Bytecode, h: Handler<W>, s: State<W>, b: nat, i: Intrinsic)
    requires Ready(s) && At(bc.code, s.pc, IntrinsicBytes(i))
    ensures Run(bc, Some(h), s, b) ==
            if b < INTRINSIC_COST then Broke(s, b)
            else
              var reply := h(i, s.world);
              var s' := Moved(s, |IntrinsicBytes(i)|).(world := reply.world);
              if |s.stack| + |reply.pushed| > MAX_STACK then Outcome(s', StackOverrun, b - INTRINSIC_COST)
              else Run(bc, Some(h), s'.(stack := s.stack + reply.pushed), b - INTRINSIC_COST)
  {
    hide Run, At, IntrinsicOf;
    RunOnce(bc, Some(h), s, b);
    var bytes := IntrinsicBytes(i);
    IntrinsicDecoded(bc.code, s.pc, i);
    var op := bc.code[s.pc];
    assert Step(bc, Some(h), s) == StepIntrinsic(bc, Some(h), op, Moved(s, 1)) by {
      assert PERCEIVE <= op <= MY_TRAIT;
    }
  }

  lemma IntrinsicDecoded(code: seq<byte>, pc: nat, i: Intrinsic)
    requires At(code, pc, IntrinsicBytes(i))
    ensures pc < |code| && PERCEIVE <= code[pc] <= MY_TRAIT
    ensures code[pc] == MY_TRAIT <==> i.MyTrait?
    ensures |IntrinsicBytes(i)| == if i.MyTrait? then 2 else 1
    ensures i.MyTrait? ==> pc + 1 < |code| && code[pc + 1] == i.id
    ensures IntrinsicOf(code[pc], if i.MyTrait? then i.id else 0) == i
  {
    assert code[pc..pc + |IntrinsicBytes(i)|][0] == code[pc];
    if i.MyTrait? {
      assert code[pc..pc + 2][1] == code[pc + 1];
    }
  }
}
