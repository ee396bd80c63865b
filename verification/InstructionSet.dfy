/** The instruction set as its documentation lists it: what each opcode does to the operands, and when it faults. */
module InstructionSet {
  import opened Words
  import opened Opcodes
  import opened Machine
  import Safety

  // ---- Arithmetic and logic ----

  predicate Modulo32(a: int, b: int) {
    (a - b) % 0x1_0000_0000 == 0
  }

  /** Quotient toward zero and remainder with the sign of the dividend. */
  predicate Divides(x: int, y: int, q: int, r: int) {
    x == q * y + r && (if y > 0 then -y < r < y else y < r < -y) && (x >= 0 ==> r >= 0) && (x <= 0 ==> r <= 0)
  }

  /** What a binary opcode makes of its operands, x having been pushed before y. */
  ghost predicate Makes(op: byte, x: int32, y: int32, v: int32) {
    && (op == ADD ==> Modulo32(v, x + y)) && (op == SUB ==> Modulo32(v, x - y)) && (op == MUL ==> Modulo32(v, x * y))
    && (op == DIV ==> exists r :: Divides(x, y, v, r))
    && (op == MOD ==> exists q :: Divides(x, y, q, v))
    && (op in {EQ, LT, GT, AND, OR} ==> v in {0, 1})
    && (op == EQ ==> (v == 1 <==> x == y)) && (op == LT ==> (v == 1 <==> x < y)) && (op == GT ==> (v == 1 <==> x > y))
    && (op == AND ==> (v == 1 <==> x != 0 && y != 0)) && (op == OR ==> (v == 1 <==> x != 0 || y != 0))
  }

  /** For non-negative numbers it is Euclid's division. */
  lemma EuclidDivides(a: nat, b: nat)
    requires b > 0
    ensures a == a / b * b + a % b && 0 <= a % b < b
    ensures 0 <= a / b <= a && (b > 1 && a > 0 ==> a / b < a)
  {
    var q := a / b;
    assert a == b * q + a % b && b * q == q * b;
    TimesAtLeast(b, q);
  }

  lemma TimesAtLeast(b: nat, q: nat)
    requires b > 0
    ensures b * q >= q && (b > 1 && q > 0 ==> b * q > q)
  {
    assert b * q == q + (b - 1) * q;
    if b > 1 && q > 0 {
      assert (b - 1) * q >= 1 * q;
    }
  }

  lemma TruncDivides(x: int, y: int)
    requires y != 0 && -0x8000_0000 <= x < 0x8000_0000
    ensures Divides(x, y, TruncDiv(x, y), TruncMod(x, y))
    ensures !(x == LEAST && y == -1) ==> -0x8000_0000 <= TruncDiv(x, y) < 0x8000_0000
    ensures -0x8000_0000 <= TruncMod(x, y) < 0x8000_0000
  {
    var a: nat, b: nat := if x >= 0 then x else -x, if y > 0 then y else -y;
    EuclidDivides(a, b);
    var q, r := a / b, a % b;
    SignedProducts(q, b);
    assert TruncDiv(x, y) == if (x >= 0) == (y > 0) then q else -q;
    assert TruncMod(x, y) == if x >= 0 then r else -r;
    RemainderAtMost(a, b);
  }

  lemma SignedProducts(q: int, b: int)
    ensures (-q) * b == -(q * b) && q * (-b) == -(q * b) && (-q) * (-b) == q * b
    ensures b * q == q * b && b * (-q) == -(q * b) && (-b) * q == -(q * b) && (-b) * (-q) == q * b
  {
  }

  lemma RemainderAtMost(a: nat, b: nat)
    requires b > 0
    ensures a % b <= a && (a > 0 && b <= a ==> a % b < a)
  {
    var q := a / b;
    assert a == b * q + a % b;
    if q > 0 {
      TimesAtLeast(q, b);
      assert b * q == q * b;
    }
  }

  /** A binary opcode fails exactly for a zero divisor, or for the quotient or remainder of the least integer by -1. */
  lemma ArithExactly(op: byte, x: int32, y: int32)
    requires IsBinary(op)
    ensures match Arith(op, x, y)
            case Ok(v) => Makes(op, x, y, v) && !(op in {DIV, MOD} && (y == 0 || (x == LEAST && y == -1)))
            case Err(status) =>
              op in {DIV, MOD} && if y == 0 then status == DivisionByZero
                                  else x == LEAST && y == -1 && status == QuotientOverflow
  {
    hide TruncDiv, TruncMod, Divides;
    if op in {DIV, MOD} && y != 0 {
      TruncDivides(x, y);
      if !(x == LEAST && y == -1) {
        assert Wrap(TruncDiv(x, y)) == TruncDiv(x, y) && Wrap(TruncMod(x, y)) == TruncMod(x, y);
        assert Divides(x, y, TruncDiv(x, y), TruncMod(x, y));
      }
    }
  }

  // ---- What each opcode does ----

  /** The machine can execute the whole instruction at its program counter. */
  ghost predicate At<W>(bc: Bytecode, s: State<W>, op: byte) {
    && !s.halted && |s.locals| == MAX_LOCALS && s.pc < |bc.code| && bc.code[s.pc] == op
    && 0 < Safety.InstrLen(op) && s.pc + Safety.InstrLen(op) <= |bc.code|
  }

  ghost predicate Goes<W>(bc: Bytecode, h: Option<Handler<W>>, s: State<W>, pc: nat, stack: seq<int32>) {
    |s.locals| == MAX_LOCALS && Step(bc, h, s) == (s.(pc := pc, stack := stack), Running)
  }

  /** Shuffling: POP drops the top, DUP copies it, SWAP exchanges the two on top. */
  lemma ShufflesExactly<W>(bc: Bytecode, h: Option<Handler<W>>, s: State<W>, below: seq<int32>, x: int32, y: int32)
    requires |below| + 2 <= MAX_STACK
    ensures At(bc, s, POP) && s.stack == below + [x] ==> Goes(bc, h, s, s.pc + 1, below)
    ensures At(bc, s, DUP) && s.stack == below + [x] ==> Goes(bc, h, s, s.pc + 1, below + [x, x])
    ensures At(bc, s, SWAP) && s.stack == below + [x, y] ==> Goes(bc, h, s, s.pc + 1, below + [y, x])
    ensures At(bc, s, NOP) ==> Goes(bc, h, s, s.pc + 1, s.stack)
  {
    assert below + [x] + [x] == below + [x, x];
    assert (below + [x, y])[..|below|] == below;
  }

  /** A binary opcode takes the two operands on top and leaves its result. */
  lemma ComputesExactly<W>(bc: Bytecode, h: Option<Handler<W>>, s: State<W>, op: byte, below: seq<int32>, x: int32,
                           y: int32)
    requires IsBinary(op) && At(bc, s, op) && s.stack == below + [x, y] && Arith(op, x, y).Ok?
    ensures Makes(op, x, y, Arith(op, x, y).value) && Goes(bc, h, s, s.pc + 1, below + [Arith(op, x, y).value])
  {
    hide Arith, Makes;
    ArithExactly(op, x, y);
    assert (below + [x, y])[..|below|] == below;
  }

  /** NEG negates modulo 2^32, NOT gives 1 for 0 and 0 for anything else. */
  lemma NegatesExactly<W>(bc: Bytecode, h: Option<Handler<W>>, s: State<W>, below: seq<int32>, x: int32)
    requires s.stack == below + [x]
    ensures At(bc, s, NEG) ==> exists v :: Modulo32(v, -(x as int)) && Goes(bc, h, s, s.pc + 1, below + [v])
    ensures At(bc, s, NOT) ==> Goes(bc, h, s, s.pc + 1, below + [if x == 0 then 1 else 0])
  {
    if At(bc, s, NEG) {
      assert Modulo32(Wrap(-(x as int)), -(x as int));
      assert Goes(bc, h, s, s.pc + 1, below + [Wrap(-(x as int))]);
    }
  }

  /** Four bytes as a little-endian signed number. */
  predicate Spells(code: seq<byte>, i: nat, v: int32)
    requires i + 4 <= |code|
  {
    var u := code[i] as int + 0x100 * code[i + 1] as int + 0x1_0000 * code[i + 2] as int
             + 0x100_0000 * code[i + 3] as int;
    v == if code[i + 3] < 0x80 then u else u - 0x1_0000_0000
  }

  lemma IntSpelt(code: seq<byte>, i: nat)
    requires i + 4 <= |code|
    ensures Spells(code, i, I32At(code, i))
  {
  }

  /** With room, literals, locals and integer constants are pushed; a store takes the top into its slot. */
  lemma MovesDataExactly<W>(bc: Bytecode, h: Option<Handler<W>>, s: State<W>)
    requires |s.stack| < MAX_STACK && bc.localCount <= MAX_LOCALS
    ensures At(bc, s, PUSH_INT) ==> exists v :: Spells(bc.code, s.pc + 1, v) && Goes(bc, h, s, s.pc + 5, s.stack + [v])
    ensures At(bc, s, PUSH_BOOL) ==> Goes(bc, h, s, s.pc + 2, s.stack + [if bc.code[s.pc + 1] == 0 then 0 else 1])
    ensures At(bc, s, LOAD_LOCAL) && bc.code[s.pc + 1] < bc.localCount ==>
              Goes(bc, h, s, s.pc + 2, s.stack + [s.locals[bc.code[s.pc + 1]]])
    ensures At(bc, s, LOAD_CONST) ==>
              var i := bc.code[s.pc + 1] as int + 0x100 * bc.code[s.pc + 2] as int;
              i < |bc.constants| && bc.constants[i].IntConst? ==>
                Goes(bc, h, s, s.pc + 3, s.stack + [bc.constants[i].n])
    ensures At(bc, s, STORE_LOCAL) && bc.code[s.pc + 1] < bc.localCount && s.stack != [] ==>
              var n, slot := |s.stack| - 1, bc.code[s.pc + 1];
              Step(bc, h, s) ==
              (s.(pc := s.pc + 2, stack := s.stack[..n], locals := s.locals[slot := s.stack[n]]), Running)
  {
    hide I32At;
    if At(bc, s, PUSH_INT) {
      IntSpelt(bc.code, s.pc + 1);
      assert Goes(bc, h, s, s.pc + 5, s.stack + [I32At(bc.code, s.pc + 1)]);
    }
  }

  /** The 16-bit operand behind an opcode, unsigned and signed. */
  function Operand(code: seq<byte>, i: nat): int
    requires i + 3 <= |code|
  {
    code[i + 1] as int + 0x100 * code[i + 2] as int
  }

  function Distance(code: seq<byte>, i: nat): int
    requires i + 3 <= |code|
  {
    if code[i + 2] < 0x80 then Operand(code, i) else Operand(code, i) - 0x1_0000
  }

  lemma DistanceIs(code: seq<byte>, i: nat)
    requires i + 3 <= |code|
    ensures I16At(code, i + 1) == Distance(code, i) && U16At(code, i + 1) == Operand(code, i)
  {
  }

  /**
   A jump goes by its signed distance from its operand, JMP_IF_FALSE exactly when the popped condition is 0; CALL goes
   to its operand and leaves the address behind it; RETURN goes back to the last such address.
   */
  lemma TransfersExactly<W>(bc: Bytecode, h: Option<Handler<W>>, s: State<W>, below: seq<int32>, x: int32)
    ensures At(bc, s, JMP) ==>
              var t := s.pc + 1 + Distance(bc.code, s.pc); 0 <= t <= |bc.code| ==> Goes(bc, h, s, t, s.stack)
    ensures At(bc, s, JMP_IF_FALSE) && s.stack == below + [x] ==>
              var t := s.pc + 1 + Distance(bc.code, s.pc);
              && (x != 0 ==> Goes(bc, h, s, s.pc + 3, below))
              && (x == 0 && 0 <= t <= |bc.code| ==> Goes(bc, h, s, t, below))
    ensures At(bc, s, CALL) && |s.frames| < 32 && Operand(bc.code, s.pc) <= |bc.code| ==>
              Step(bc, h, s) == (s.(pc := Operand(bc.code, s.pc), frames := s.frames + [s.pc + 3]), Running)
    ensures At(bc, s, RETURN) && s.frames != [] ==>
              var n := |s.frames| - 1; Step(bc, h, s) == (s.(pc := s.frames[n], frames := s.frames[..n]), Running)
    ensures At(bc, s, RETURN) && s.frames == [] ==> Step(bc, h, s).1 == Halted
    ensures At(bc, s, HALT) ==> Step(bc, h, s) == (s.(pc := s.pc + 1, halted := true), Halted)
  {
    if s.pc + 3 <= |bc.code| {
      DistanceIs(bc.code, s.pc);
    }
    hide I16At, U16At, Distance, Operand;
  }

  // ---- Faults ----

  /** How many operands an opcode needs. */
  function Needs(op: byte): nat {
    if op in {SWAP, ADD, SUB, MUL, DIV, MOD, EQ, LT, GT, AND, OR} then 2
    else if op in {POP, DUP, NEG, NOT, JMP_IF_FALSE, STORE_LOCAL} then 1
    else 0
  }

  const PUSHING := {PUSH_INT, PUSH_BOOL, DUP, LOAD_LOCAL, LOAD_CONST}

  /** The stack faults of whole instructions: too few operands, no free slot, and nothing else. */
  lemma StackFaultsExactly<W>(bc: Bytecode, h: Option<Handler<W>>, s: State<W>, op: byte)
    requires At(bc, s, op) && |s.stack| <= MAX_STACK
    ensures Step(bc, h, s).1 == StackUnderflow <==> |s.stack| < Needs(op)
    ensures Step(bc, h, s).1 == StackOverflow <==> op in PUSHING && |s.stack| == 256
  {
    hide Arith, I16At, I32At, U16At;
    if IsBinary(op) && |s.stack| >= 2 {
      var n := |s.stack|;
      assert Arith(op, s.stack[n - 2], s.stack[n - 1]).Err? ==>
          Arith(op, s.stack[n - 2], s.stack[n - 1]).error in {DivisionByZero, QuotientOverflow};
    }
  }

  /** The faults of operands: a divisor, a slot, a target, a constant, the 33rd call. */
  lemma OperandFaultsExactly<W>(bc: Bytecode, h: Option<Handler<W>>, s: State<W>, op: byte)
    requires At(bc, s, op) && |s.stack| < MAX_STACK && Needs(op) <= |s.stack|
    ensures Step(bc, h, s).1 == DivisionByZero <==> op in {DIV, MOD} && s.stack[|s.stack| - 1] == 0
    ensures Step(bc, h, s).1 == OutOfBoundsLocal <==>
            op in {LOAD_LOCAL, STORE_LOCAL} && bc.code[s.pc + 1] >= bc.localCount
    ensures Step(bc, h, s).1 == CallDepthExceeded <==> op == CALL && |s.frames| >= 32
    ensures Step(bc, h, s).1 == OutOfBoundsJump <==>
              if op == CALL then |s.frames| < 32 && Operand(bc.code, s.pc) > |bc.code|
              else op in {JMP, JMP_IF_FALSE} && (op == JMP_IF_FALSE ==> s.stack[|s.stack| - 1] == 0)
                   && !(0 <= s.pc + 1 + Distance(bc.code, s.pc) <= |bc.code|)
    ensures Step(bc, h, s).1 == InvalidOpcode <==>
              op == LOAD_CONST && (Operand(bc.code, s.pc) >= |bc.constants|
                                   || bc.constants[Operand(bc.code, s.pc)].StrConst?)
    ensures Step(bc, h, s).1 == UnimplementedIntrinsic <==> PERCEIVE <= op <= MY_TRAIT && h.None?
  {
    if s.pc + 3 <= |bc.code| {
      DistanceIs(bc.code, s.pc);
    }
    if IsBinary(op) {
      ArithExactly(op, s.stack[|s.stack| - 2], s.stack[|s.stack| - 1]);
    }
    hide Arith, Makes, I16At, I32At, U16At, Distance, Operand;
  }

  /** Bytes that are no whole instruction fault as such, and past the end of the code the machine halts. */
  lemma BrokenCodeFaults<W>(bc: Bytecode, h: Option<Handler<W>>, s: State<W>)
    requires !s.halted && |s.locals| == MAX_LOCALS && Needs(OpcodeAt(bc, s)) <= |s.stack| < MAX_STACK
    ensures s.pc >= |bc.code| ==> Step(bc, h, s).1 == Halted
    ensures s.pc < |bc.code| && Safety.InstrLen(bc.code[s.pc]) == 0 ==> Step(bc, h, s).1 == InvalidOpcode
    ensures s.pc < |bc.code| && s.pc + Safety.InstrLen(bc.code[s.pc]) > |bc.code| ==>
              var op := bc.code[s.pc];
              Step(bc, h, s).1 == if op in {JMP, JMP_IF_FALSE} || (op == CALL && |s.frames| < 32) then OutOfBoundsJump
                                  else if op == CALL then CallDepthExceeded
                                  else if op == MY_TRAIT && h.None? then UnimplementedIntrinsic
                                  else InvalidOpcode
  {
    hide Arith, I16At, I32At, U16At;
  }

  function OpcodeAt<W>(bc: Bytecode, s: State<W>): byte {
    if s.pc < |bc.code| then bc.code[s.pc] else HALT
  }

  /** The intrinsics without operand, numbered from 0x80. */
  const NUMBERED: seq<Intrinsic> := [
    Perceive, Look, Move, TurnLeft, TurnRight, Eat, Drink, Reproduce, MyEnergy, MyHydration]

  /** The handler acts as this intrinsic before its values find room or do not, and control goes on behind. */
  ghost predicate Asks<W>(bc: Bytecode, h: Handler<W>, s: State<W>, i: Intrinsic, length: nat) {
    var reply := h(i, s.world);
    && |s.locals| == MAX_LOCALS
    && var after := s.(pc := s.pc + length, world := reply.world);
       Step(bc, Some(h), s) == if |s.stack| + |reply.pushed| > MAX_STACK then (after, StackOverrun)
                               else (after.(stack := s.stack + reply.pushed), Running)
  }

  /** Byte 0x80 + k asks the handler for intrinsic k, and 0x8A for the trait that the next byte names. */
  lemma IntrinsicsExactly<W>(bc: Bytecode, h: Handler<W>, s: State<W>, k: nat)
    requires k <= 10 && At(bc, s, (0x80 + k) as byte)
    ensures k < 10 ==> Asks(bc, h, s, NUMBERED[k], 1)
    ensures k == 10 ==> Asks(bc, h, s, MyTrait(bc.code[s.pc + 1]), 2)
  {
    var op := bc.code[s.pc];
    assert PERCEIVE <= op <= MY_TRAIT && !(op == HALT);
    if k < 10 {
      assert IntrinsicOf(op, 0) == NUMBERED[k];
    }
  }

  /** A function that calls itself without end fills all 32 frames; the 33rd call is refused. */
  lemma {:induction false} EndlessRecursion<W>(h: Option<Handler<W>>, s: State<W>, b: nat)
    requires !s.halted && |s.locals| == MAX_LOCALS && s.pc == 0 && |s.frames| <= 32 && b >= 33 - |s.frames|
    ensures var r := Run(Bytecode([CALL, 0, 0], 0, []), h, s, b);
            r.status == CallDepthExceeded && |r.state.frames| == 32 && r.left == b - (33 - |s.frames|)
    decreases b
  {
    var bc := Bytecode([CALL, 0, 0], 0, []);
    assert Operand(bc.code, 0) == 0 && U16At(bc.code, 1) == 0;
    if |s.frames| < 32 {
      var s' := s.(frames := s.frames + [3]);
      assert Step(bc, h, s) == (s', Running);
      EndlessRecursion(h, s', b - 1);
    } else {
      assert Step(bc, h, s).1 == CallDepthExceeded;
    }
  }
}
