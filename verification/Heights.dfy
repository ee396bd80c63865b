/**
 Operand heights: a map from code positions to heights, checked one instruction at a time, that tells the size of the
 operand stack in every run. Nothing here depends on where the bytes come from.
 */
module Heights {
  import opened Words
  import opened Opcodes
  import M = Machine
  import Safety
  import MachineLaws

  /**
   What is on the stack before the instruction at a position, counted from the entry of its function, and whether
   that function always returns a value. Dead positions are never reached.
   */
  datatype Slot = Dead | Live(height: nat, valued: bool)

  ghost predicate Is(hs: seq<Slot>, i: int, height: int, valued: bool) {
    0 <= i < |hs| && hs[i].Live? && hs[i].height == height && hs[i].valued == valued
  }

  function Pops(op: byte): nat {
    if op in {SWAP} || IsBinary(op) then 2
    else if op in {POP, DUP, NEG, NOT, STORE_LOCAL, JMP_IF_FALSE} then 1
    else 0
  }

  function Pushes(op: byte): nat {
    if op in {PERCEIVE, LOOK} then 4
    else if op in {DUP, SWAP} then 2
    else if op in {PUSH_INT, PUSH_BOOL, NEG, NOT, LOAD_LOCAL, LOAD_CONST} then 1
    else if IsBinary(op) || EAT <= op <= MY_TRAIT then 1
    else 0
  }

  /**
   The instruction at i finds its operands, and leaves the height that its successors expect. A call leaves one value
   more, its callee starts at height 0; a value function returns at height 1, another function at 0 or 1.
   */
  ghost predicate Fits(c: seq<byte>, hs: seq<Slot>, i: nat)
    requires i < |hs| == |c| && hs[i].Live?
  {
    var op, n, v := c[i], hs[i].height, hs[i].valued;
    var next := i + Safety.InstrLen(op);
    if op == HALT then true
    else if op == RETURN then n == 1 || (n == 0 && !v)
    else
      && i < next <= |c| && Pops(op) <= n
      && (if op == JMP then Is(hs, Safety.JumpTarget(c, i), n, v)
          else if op == JMP_IF_FALSE then Is(hs, Safety.JumpTarget(c, i), n - 1, v) && Is(hs, next, n - 1, v)
          else if op == CALL then Is(hs, U16At(c, i + 1), 0, true) && Is(hs, next, n + 1, v)
          else Is(hs, next, n - Pops(op) + Pushes(op), v))
  }

  /** CALL main, HALT, and then only instructions that fit. */
  ghost predicate Checked(c: seq<byte>, hs: seq<Slot>) {
    && |c| == |hs| && |c| >= 4
    && c[0] == CALL && c[3] == HALT
    && (forall i :: 0 <= i < |c| && hs[i].Live? ==> Fits(c, hs, i))
    && exists v :: Is(hs, U16At(c, 1), 0, v)
  }

  function HeightAt(hs: seq<Slot>, i: nat): nat {
    if i < |hs| && hs[i].Live? then hs[i].height else 0
  }

  /** The operands of the callers: what each frame's return address expects, less the value that the call returns. */
  function Callers(hs: seq<Slot>, frames: seq<nat>): int {
    if |frames| <= 1 then 0
    else Callers(hs, frames[..|frames| - 1]) + HeightAt(hs, frames[|frames| - 1]) - 1
  }

  /** The operand stack holds what the callers left there and what the program counter tells, to the slot. */
  ghost predicate OnHeight<W>(hs: seq<Slot>, s: M.State<W>) {
    && 1 <= |s.frames| <= M.MAX_CALL_DEPTH && s.frames[0] == 3
    && s.pc < |hs| && hs[s.pc].Live? && (|s.frames| >= 2 ==> hs[s.pc].valued)
    && (forall j :: 1 <= j < |s.frames| ==> ReturnsTo(hs, s.frames[j], j >= 2))
    && |s.stack| == Callers(hs, s.frames) + HeightAt(hs, s.pc)
  }

  ghost predicate ReturnsTo(hs: seq<Slot>, r: nat, valued: bool) {
    r < |hs| && hs[r].Live? && hs[r].height >= 1 && (valued ==> hs[r].valued)
  }

  /** Before CALL main, and back from it. */
  ghost predicate Outside<W>(s: M.State<W>) {
    s.frames == [] && ((s.pc == 0 && s.stack == []) || (s.pc == 3 && |s.stack| <= 1))
  }

  lemma {:induction false} CallersNonNegative(hs: seq<Slot>, frames: seq<nat>)
    requires forall j :: 1 <= j < |frames| ==> ReturnsTo(hs, frames[j], j >= 2)
    ensures Callers(hs, frames) >= 0
  {
    if |frames| > 1 {
      CallersNonNegative(hs, frames[..|frames| - 1]);
    }
  }

  // ---- One step ----

  predicate IsControl(op: byte) {
    op in {HALT, JMP, JMP_IF_FALSE, CALL, RETURN}
  }

  /** What an instruction without control transfer does to the program counter and the size of the stack. */
  lemma StepSizes<W(!new)>(bc: M.Bytecode, h: Option<M.Handler<W>>, s: M.State<W>)
    requires |s.locals| == M.MAX_LOCALS && (h.Some? ==> M.WellBehaved(h.value)) && s.pc < |bc.code|
    requires var op := bc.code[s.pc]; !IsControl(op) && 0 < Safety.InstrLen(op) && Pops(op) <= |s.stack|
    ensures var (s', status) := M.Step(bc, h, s); var op := bc.code[s.pc];
            && status != M.StackUnderflow
            && (status in {M.StackOverflow, M.StackOverrun} ==> |s.stack| + Pushes(op) > M.MAX_STACK)
            && (status == M.Running ==>
                  s'.pc == s.pc + Safety.InstrLen(op) && s'.frames == s.frames
                  && |s'.stack| == |s.stack| - Pops(op) + Pushes(op))
  {
    hide M.Arith, I32At, U16At;
    var op := bc.code[s.pc];
    if h.Some? && PERCEIVE <= op <= MY_TRAIT && (op == MY_TRAIT ==> s.pc + 1 < |bc.code|) {
      var i := M.IntrinsicOf(op, if op == MY_TRAIT then bc.code[s.pc + 1] else 0);
      assert |h.value(i, s.world).pushed| == M.PushCount(i) == Pushes(op);
    }
  }

  lemma StepPlain<W(!new)>(bc: M.Bytecode, h: Option<M.Handler<W>>, hs: seq<Slot>, s: M.State<W>)
    requires Checked(bc.code, hs) && OnHeight(hs, s) && !IsControl(bc.code[s.pc])
    requires |s.locals| == M.MAX_LOCALS && (h.Some? ==> M.WellBehaved(h.value))
    ensures M.Step(bc, h, s).1 != M.StackUnderflow
    ensures M.Step(bc, h, s).1 in {M.StackOverflow, M.StackOverrun} ==> |s.stack| + Pushes(bc.code[s.pc]) > M.MAX_STACK
    ensures M.Step(bc, h, s).1 == M.Running ==> OnHeight(hs, M.Step(bc, h, s).0)
  {
    hide M.Step, U16At, Safety.JumpTarget, Callers;
    assert Fits(bc.code, hs, s.pc);
    CallersNonNegative(hs, s.frames);
    StepSizes(bc, h, s);
  }

  lemma StepOf<W>(bc: M.Bytecode, h: Option<M.Handler<W>>, s: M.State<W>)
    requires |s.locals| == M.MAX_LOCALS && s.pc < |bc.code| && IsControl(bc.code[s.pc])
    ensures var op := bc.code[s.pc];
            if s.halted || op == HALT then M.Step(bc, h, s).1 == M.Halted
            else M.Step(bc, h, s) == M.StepControl(bc, op, s.(pc := s.pc + 1))
  {
    hide M.StepControl;
  }

  lemma StepJump<W>(bc: M.Bytecode, hs: seq<Slot>, s: M.State<W>)
    requires Checked(bc.code, hs) && OnHeight(hs, s) && bc.code[s.pc] in {JMP, JMP_IF_FALSE}
    ensures var (s', status) := M.StepControl(bc, bc.code[s.pc], s.(pc := s.pc + 1));
            status == M.Running && OnHeight(hs, s')
  {
    hide I16At, Callers;
    assert Fits(bc.code, hs, s.pc);
    CallersNonNegative(hs, s.frames);
  }

  lemma StepCall<W>(bc: M.Bytecode, hs: seq<Slot>, s: M.State<W>)
    requires Checked(bc.code, hs) && OnHeight(hs, s) && bc.code[s.pc] == CALL
    ensures var (s', status) := M.StepControl(bc, CALL, s.(pc := s.pc + 1));
            if |s.frames| < M.MAX_CALL_DEPTH then status == M.Running && OnHeight(hs, s')
            else status == M.CallDepthExceeded
  {
    hide U16At;
    assert Fits(bc.code, hs, s.pc);
    hide Checked, Fits;
    if |s.frames| < M.MAX_CALL_DEPTH {
      InCallee(hs, s, U16At(bc.code, s.pc + 1), s.pc + 3);
    }
  }

  /** Entering a callee leaves the caller's operands to its return address. */
  lemma InCallee<W>(hs: seq<Slot>, s: M.State<W>, entry: int, next: nat)
    requires OnHeight(hs, s) && |s.frames| < M.MAX_CALL_DEPTH
    requires Is(hs, entry, 0, true) && Is(hs, next, hs[s.pc].height + 1, hs[s.pc].valued)
    ensures OnHeight(hs, s.(pc := entry, frames := s.frames + [next]))
  {
    var n := |s.frames|;
    var deeper := s.frames + [next];
    assert deeper[..n] == s.frames && deeper[n] == next;
  }

  lemma StepReturn<W>(bc: M.Bytecode, hs: seq<Slot>, s: M.State<W>)
    requires Checked(bc.code, hs) && OnHeight(hs, s) && bc.code[s.pc] == RETURN
    ensures var (s', status) := M.StepControl(bc, RETURN, s.(pc := s.pc + 1));
            status == M.Running && (OnHeight(hs, s') || Outside(s'))
  {
    assert Fits(bc.code, hs, s.pc);
    var n := |s.frames|;
    hide Checked, Fits, ReturnsTo;
    if n > 1 {
      BackInCaller(hs, s);
    }
  }

  /** Returning a value gives the caller the height that it expects. */
  lemma BackInCaller<W>(hs: seq<Slot>, s: M.State<W>)
    requires OnHeight(hs, s) && |s.frames| > 1 && HeightAt(hs, s.pc) == 1
    ensures OnHeight(hs, s.(pc := s.frames[|s.frames| - 1], frames := s.frames[..|s.frames| - 1]))
  {
    var n := |s.frames|;
    var caller := s.frames[..n - 1];
    assert ReturnsTo(hs, s.frames[n - 1], n - 1 >= 2);
    forall j | 1 <= j < |caller|
      ensures ReturnsTo(hs, caller[j], j >= 2)
    {
      assert caller[j] == s.frames[j];
    }
  }

  lemma StepControlled<W>(bc: M.Bytecode, h: Option<M.Handler<W>>, hs: seq<Slot>, s: M.State<W>)
    requires Checked(bc.code, hs) && OnHeight(hs, s) && IsControl(bc.code[s.pc]) && |s.locals| == M.MAX_LOCALS
    ensures M.Step(bc, h, s).1 !in {M.StackUnderflow, M.StackOverflow, M.StackOverrun}
    ensures M.Step(bc, h, s).1 == M.Running ==> OnHeight(hs, M.Step(bc, h, s).0) || Outside(M.Step(bc, h, s).0)
  {
    var op := bc.code[s.pc];
    var inside := s.pc < |bc.code|;
    hide M.Step, M.StepControl, Checked, OnHeight, Outside;
    StepOf(bc, h, s);
    if op == CALL {
      StepCall(bc, hs, s);
    } else if op == RETURN {
      StepReturn(bc, hs, s);
    } else if op in {JMP, JMP_IF_FALSE} {
      StepJump(bc, hs, s);
    }
  }

  /** The first instruction, and the last one. */
  lemma StepOutside<W>(bc: M.Bytecode, h: Option<M.Handler<W>>, hs: seq<Slot>, s: M.State<W>)
    requires Checked(bc.code, hs) && Outside(s) && |s.locals| == M.MAX_LOCALS
    ensures M.Step(bc, h, s).1 in {M.Running, M.Halted}
    ensures M.Step(bc, h, s).1 == M.Running ==> OnHeight(hs, M.Step(bc, h, s).0)
  {
    StepOf(bc, h, s);
    hide U16At, M.Step;
    var v :| Is(hs, U16At(bc.code, 1), 0, v);
  }

  // ---- Every run ----

  ghost predicate Accounted<W>(hs: seq<Slot>, s: M.State<W>) {
    OnHeight(hs, s) || Outside(s)
  }

  /** A step of checked code keeps the account, and never finds too few operands. */
  lemma StepAccounted<W(!new)>(bc: M.Bytecode, h: Option<M.Handler<W>>, hs: seq<Slot>, s: M.State<W>)
    requires Checked(bc.code, hs) && Accounted(hs, s) && |s.locals| == M.MAX_LOCALS
    requires h.Some? ==> M.WellBehaved(h.value)
    ensures M.Step(bc, h, s).1 != M.StackUnderflow
    ensures M.Step(bc, h, s).1 == M.Running ==> Accounted(hs, M.Step(bc, h, s).0)
  {
    hide M.Step, Checked, Outside;
    if Outside(s) {
      StepOutside(bc, h, hs, s);
    } else {
      CheckedLength(bc.code, hs);
      if IsControl(bc.code[s.pc]) {
        StepControlled(bc, h, hs, s);
      } else {
        StepPlain(bc, h, hs, s);
      }
    }
  }

  lemma CheckedLength(c: seq<byte>, hs: seq<Slot>)
    requires Checked(c, hs)
    ensures |c| == |hs|
  {
  }

  /**
   In every run of checked code, wherever the budget stops it, the operand stack has exactly the size that the program
   counter and the return addresses tell; and no instruction ever finds too few operands.
   */
  lemma {:induction false} RunAccounted<W(!new)>(bc: M.Bytecode, h: Option<M.Handler<W>>, hs: seq<Slot>,
                                                 s: M.State<W>, b: nat)
    requires Checked(bc.code, hs) && Accounted(hs, s) && |s.locals| == M.MAX_LOCALS
    requires h.Some? ==> M.WellBehaved(h.value)
    ensures var r := M.Run(bc, h, s, b);
            r.status != M.StackUnderflow && (r.status == M.BudgetExhausted ==> Accounted(hs, r.state))
    decreases b
  {
    hide M.Step, Checked, Accounted;
    StepAccounted(bc, h, hs, s);
    MachineLaws.StepNeverExhausts(bc, h, s);
    var cost := M.CostAt(bc.code, s.pc);
    if cost <= b && M.Step(bc, h, s).1 == M.Running {
      RunAccounted(bc, h, hs, M.Step(bc, h, s).0, b - cost);
    }
  }

  // ---- A bound ----

  ghost predicate AtMost(hs: seq<Slot>, m: nat) {
    forall i :: 0 <= i < |hs| && hs[i].Live? ==> hs[i].height <= m
  }

  lemma {:induction false} CallersAtMost(hs: seq<Slot>, frames: seq<nat>, m: nat)
    requires AtMost(hs, m) && m >= 1
    ensures Callers(hs, frames) <= if frames == [] then 0 else (|frames| - 1) * (m - 1)
  {
    hide AtMost;
    if |frames| > 1 {
      var n := |frames|;
      CallersAtMost(hs, frames[..n - 1], m);
      assert HeightAt(hs, frames[n - 1]) <= m by { HeightAtMost(hs, frames[n - 1], m); }
      assert (n - 1) * (m - 1) == (n - 2) * (m - 1) + (m - 1);
    }
  }

  lemma HeightAtMost(hs: seq<Slot>, i: nat, m: nat)
    requires AtMost(hs, m)
    ensures HeightAt(hs, i) <= m
  {
  }

  /** Heights of at most 8 in 32 frames leave room for every push, checked or not. */
  lemma StepInRoom<W(!new)>(bc: M.Bytecode, h: Option<M.Handler<W>>, hs: seq<Slot>, s: M.State<W>)
    requires Checked(bc.code, hs) && Accounted(hs, s) && |s.locals| == M.MAX_LOCALS
    requires h.Some? ==> M.WellBehaved(h.value)
    requires AtMost(hs, 8)
    ensures |s.stack| <= 225 && M.Step(bc, h, s).1 !in {M.StackOverflow, M.StackOverrun}
  {
    hide M.Step, Checked, AtMost, Callers;
    if Outside(s) {
      StepOutside(bc, h, hs, s);
    } else {
      CheckedLength(bc.code, hs);
      CallersAtMost(hs, s.frames, 8);
      HeightAtMost(hs, s.pc, 8);
      if IsControl(bc.code[s.pc]) {
        StepControlled(bc, h, hs, s);
      } else {
        StepPlain(bc, h, hs, s);
      }
    }
  }

  /** So a program whose heights are at most 8 never exceeds its operand stack, in any run. */
  lemma {:induction false} RunInRoom<W(!new)>(bc: M.Bytecode, h: Option<M.Handler<W>>, hs: seq<Slot>, s: M.State<W>,
                                              b: nat)
    requires Checked(bc.code, hs) && Accounted(hs, s) && |s.locals| == M.MAX_LOCALS
    requires h.Some? ==> M.WellBehaved(h.value)
    requires AtMost(hs, 8)
    ensures M.Run(bc, h, s, b).status !in {M.StackOverflow, M.StackOverrun}
    decreases b
  {
    hide M.Step, Checked, Accounted, AtMost;
    StepInRoom(bc, h, hs, s);
    StepAccounted(bc, h, hs, s);
    var cost := M.CostAt(bc.code, s.pc);
    if cost <= b && M.Step(bc, h, s).1 == M.Running {
      RunInRoom(bc, h, hs, M.Step(bc, h, s).0, b - cost);
    }
  }
}
