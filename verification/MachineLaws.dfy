/** Laws of the VM for arbitrary bytecode: budgets, and the bounds of its fixed-size storage. */
module MachineLaws {
  import opened Words
  import opened Opcodes
  import opened Machine
  import Instructions

  // ---- Budgets ----

  /** A run that ends for another reason than its budget ends the same way with any larger budget. */
  lemma {:induction false} LargerBudget<W>(bc: Bytecode, h: Option<Handler<W>>, s: State<W>, a: nat, extra: nat)
    requires |s.locals| == MAX_LOCALS && Run(bc, h, s, a).status != BudgetExhausted
    ensures var r := Run(bc, h, s, a);
            Run(bc, h, s, a + extra) == Outcome(r.state, r.status, r.left + extra)
    decreases a
  {
    hide Step;
    var cost := CostAt(bc.code, s.pc);
    var (s', status) := Step(bc, h, s);
    if status == Running {
      LargerBudget(bc, h, s', a - cost, extra);
    }
  }

  /** A run that exhausts its budget is continued by topping up what it left unspent. */
  lemma {:induction false} ExhaustedResumes<W>(bc: Bytecode, h: Option<Handler<W>>, s: State<W>, a: nat, b: nat)
    requires |s.locals| == MAX_LOCALS && Run(bc, h, s, a).status == BudgetExhausted
    ensures var r := Run(bc, h, s, a);
            0 <= r.left < INTRINSIC_COST && Run(bc, h, s, a + b) == Run(bc, h, r.state, r.left + b)
    decreases a
  {
    hide Step;
    StepNeverExhausts(bc, h, s);
    var cost := CostAt(bc.code, s.pc);
    if cost <= a {
      var (s', status) := Step(bc, h, s);
      ExhaustedResumes(bc, h, s', a - cost, b);
    }
  }

  lemma StepNeverExhausts<W>(bc: Bytecode, h: Option<Handler<W>>, s: State<W>)
    requires |s.locals| == MAX_LOCALS
    ensures Step(bc, h, s).1 != BudgetExhausted
  {
    hide Arith, JumpTo;
    if !s.halted && s.pc < |bc.code| {
      var op := bc.code[s.pc];
      if op in {JMP, JMP_IF_FALSE} && s.pc + 3 <= |bc.code| {
        JumpNeverExhausts(bc, s.(pc := s.pc + 3), s.pc + 1);
        if |s.stack| > 0 {
          JumpNeverExhausts(bc, s.(pc := s.pc + 3, stack := s.stack[..|s.stack| - 1]), s.pc + 1);
        }
      }
    }
  }

  lemma JumpNeverExhausts<W>(bc: Bytecode, s: State<W>, operandPos: nat)
    requires operandPos + 2 <= |bc.code|
    ensures JumpTo(bc, s, operandPos).1 in {Running, OutOfBoundsJump}
  {
  }

  lemma {:induction false} SmallerBudget<W>(bc: Bytecode, h: Option<Handler<W>>, s: State<W>, a: nat, less: nat)
    requires |s.locals| == MAX_LOCALS && Run(bc, h, s, a).status != BudgetExhausted && less <= Run(bc, h, s, a).left
    ensures var r := Run(bc, h, s, a);
            a >= less && Run(bc, h, s, a - less) == Outcome(r.state, r.status, r.left - less)
    decreases a
  {
    hide Step;
    var cost := CostAt(bc.code, s.pc);
    var (s', status) := Step(bc, h, s);
    if status == Running {
      SmallerBudget(bc, h, s', a - cost, less);
    }
  }

  lemma {:induction false} NotEarlier<W>(bc: Bytecode, h: Option<Handler<W>>, s: State<W>, cost: nat, b: nat)
    requires |s.locals| == MAX_LOCALS && b < cost
    requires Run(bc, h, s, cost).status != BudgetExhausted && Run(bc, h, s, cost).left == 0
    ensures Run(bc, h, s, b).status == BudgetExhausted
    decreases b
  {
    hide Step;
    var c := CostAt(bc.code, s.pc);
    var (s', status) := Step(bc, h, s);
    if c <= b && status == Running {
      NotEarlier(bc, h, s', cost - c, b - c);
    }
  }

  /**
   A run that ends by itself has an exact cost: with that budget or more it ends the same way, with less it does not
   end.
   */
  lemma ExactCost<W>(bc: Bytecode, h: Option<Handler<W>>, s: State<W>, a: nat, b: nat)
    requires |s.locals| == MAX_LOCALS && Run(bc, h, s, a).status != BudgetExhausted && Run(bc, h, s, a).left >= 0
    ensures var r := Run(bc, h, s, a);
            var cost := a - r.left;
            if b >= cost then Run(bc, h, s, b) == Outcome(r.state, r.status, b - cost)
            else Run(bc, h, s, b).status == BudgetExhausted
  {
    hide Run;
    var r := Run(bc, h, s, a);
    var cost := a - r.left;
    SmallerBudget(bc, h, s, a, r.left);
    if b >= cost {
      LargerBudget(bc, h, s, cost, b - cost);
    } else {
      NotEarlier(bc, h, s, cost, b);
    }
  }

  /** The intrinsic and the other instructions that a run executes, the last one included. */
  ghost function Executed<W>(bc: Bytecode, h: Option<Handler<W>>, s: State<W>, budget: int): (nat, nat)
    requires |s.locals| == MAX_LOCALS
    decreases if budget > 0 then budget else 0
  {
    var cost := CostAt(bc.code, s.pc);
    if budget <= 0 || budget < cost then (0, 0)
    else
      var (s', status) := Step(bc, h, s);
      var (k, m) := if status == Running then Executed(bc, h, s', budget - cost) else (0, 0);
      if cost == INTRINSIC_COST then (k + 1, m) else (k, m + 1)
  }

  /** The budget is conserved: every intrinsic took 10, every other instruction 1, the rest is left. */
  lemma {:induction false} BudgetConserved<W>(bc: Bytecode, h: Option<Handler<W>>, s: State<W>, b: nat)
    requires |s.locals| == MAX_LOCALS
    ensures var (k, m) := Executed(bc, h, s, b);
            10 * k + m + Run(bc, h, s, b).left == b && Run(bc, h, s, b).left >= 0
    decreases b
  {
    hide Step;
    var cost := CostAt(bc.code, s.pc);
    if cost <= b {
      var (s', status) := Step(bc, h, s);
      if status == Running {
        BudgetConserved(bc, h, s', b - cost);
      }
    }
  }

  // ---- Bounds ----

  /** Program counter and return addresses inside the code or at its end; at most 32 frames. */
  ghost predicate ControlInBounds<W>(bc: Bytecode, s: State<W>) {
    && s.pc <= |bc.code| && |s.frames| <= MAX_CALL_DEPTH
    && forall i :: 0 <= i < |s.frames| ==> s.frames[i] <= |bc.code|
  }

  /** No intrinsic can be executed: there is no handler, or no byte of the code names one. */
  ghost predicate Quiet<W>(bc: Bytecode, h: Option<Handler<W>>) {
    h.None? || forall i :: 0 <= i < |bc.code| ==> !(PERCEIVE <= bc.code[i] <= MY_TRAIT)
  }

  lemma StepKeepsControl<W>(bc: Bytecode, h: Option<Handler<W>>, s: State<W>)
    requires |s.locals| == MAX_LOCALS && ControlInBounds(bc, s)
    ensures ControlInBounds(bc, Step(bc, h, s).0)
  {
    hide Arith, I16At, I32At, U16At;
  }

  /** What one instruction can add to the operand stack, which never leaves its 256 slots. */
  lemma StepGrowth<W(!new)>(bc: Bytecode, h: Option<Handler<W>>, s: State<W>)
    requires |s.locals| == MAX_LOCALS && (h.Some? ==> WellBehaved(h.value))
    ensures |Step(bc, h, s).0.stack| <= |s.stack| + if CostAt(bc.code, s.pc) == INTRINSIC_COST then 4 else 1
    ensures |s.stack| <= MAX_STACK ==> |Step(bc, h, s).0.stack| <= MAX_STACK
  {
    hide Arith, I16At, I32At, U16At;
  }

  /** Every run of any bytecode keeps control in bounds, from wherever it starts. */
  lemma {:induction false} RunKeepsControl<W>(bc: Bytecode, h: Option<Handler<W>>, s: State<W>, b: nat)
    requires |s.locals| == MAX_LOCALS && ControlInBounds(bc, s)
    ensures ControlInBounds(bc, Run(bc, h, s, b).state)
    decreases b
  {
    hide Step;
    StepKeepsControl(bc, h, s);
    var cost := CostAt(bc.code, s.pc);
    if cost <= b && Step(bc, h, s).1 == Running {
      RunKeepsControl(bc, h, Step(bc, h, s).0, b - cost);
    }
  }

  /** The operand stack never grows by more than the budget spent. */
  lemma {:induction false} StackWithinSpent<W(!new)>(bc: Bytecode, h: Option<Handler<W>>, s: State<W>, b: nat)
    requires |s.locals| == MAX_LOCALS && (h.Some? ==> WellBehaved(h.value))
    ensures var r := Run(bc, h, s, b); |r.state.stack| <= |s.stack| + (b - r.left)
    decreases b
  {
    hide Step, WellBehaved;
    StepGrowth(bc, h, s);
    var cost := CostAt(bc.code, s.pc);
    if cost <= b && Step(bc, h, s).1 == Running {
      StackWithinSpent(bc, h, Step(bc, h, s).0, b - cost);
    }
  }

  // ---- Where handlers leave the stack array ----

  /** The next instruction is an intrinsic that reaches its handler, and the handler pushes beyond the last slot. */
  ghost predicate PushesTooMuch<W>(bc: Bytecode, h: Option<Handler<W>>, s: State<W>) {
    && !s.halted && s.pc < |bc.code| && PERCEIVE <= bc.code[s.pc] <= MY_TRAIT && h.Some?
    && (bc.code[s.pc] == MY_TRAIT ==> s.pc + 1 < |bc.code|)
    && |s.stack| + PushCount(IntrinsicOf(bc.code[s.pc], 0)) > MAX_STACK
  }

  /**
   The unchecked writes of a run all stay in the stack array: it never gets to such an instruction and can pay for
   it.
   */
  ghost predicate RunFits<W>(bc: Bytecode, h: Option<Handler<W>>, s: State<W>, budget: int)
    requires |s.locals| == MAX_LOCALS
    decreases if budget > 0 then budget else 0
  {
    var cost := CostAt(bc.code, s.pc);
    0 < budget && cost <= budget ==> (
      && !PushesTooMuch(bc, h, s)
      && var (s', status) := Step(bc, h, s);
         (status == Running ==> RunFits(bc, h, s', budget - cost)))
  }

  /** A step stops with StackOverrun exactly where the handler of the engine would write past the array. */
  lemma StepOverrunsExactly<W(!new)>(bc: Bytecode, h: Option<Handler<W>>, s: State<W>)
    requires |s.locals| == MAX_LOCALS && (h.Some? ==> WellBehaved(h.value))
    ensures Step(bc, h, s).1 == StackOverrun <==> PushesTooMuch(bc, h, s)
  {
    hide Arith, I16At, I32At, U16At;
    if !s.halted && s.pc < |bc.code| && PERCEIVE <= bc.code[s.pc] <= MY_TRAIT {
      var op := bc.code[s.pc];
      assert Step(bc, h, s) == StepIntrinsic(bc, h, op, s.(pc := s.pc + 1));
      if h.Some? && (op == MY_TRAIT ==> s.pc + 1 < |bc.code|) {
        var i := IntrinsicOf(op, if op == MY_TRAIT then bc.code[s.pc + 1] else 0);
        assert |h.value(i, s.world).pushed| == PushCount(i) == PushCount(IntrinsicOf(op, 0));
      }
    }
  }

  /** So a run fits the array if and only if it does not stop with StackOverrun. */
  lemma {:induction false} RunFitsExactly<W(!new)>(bc: Bytecode, h: Option<Handler<W>>, s: State<W>, b: nat)
    requires |s.locals| == MAX_LOCALS && (h.Some? ==> WellBehaved(h.value))
    ensures RunFits(bc, h, s, b) <==> Run(bc, h, s, b).status != StackOverrun
    decreases b
  {
    hide Step, WellBehaved, PushesTooMuch;
    StepOverrunsExactly(bc, h, s);
    var cost := CostAt(bc.code, s.pc);
    if cost <= b && Step(bc, h, s).1 == Running {
      RunFitsExactly(bc, h, Step(bc, h, s).0, b - cost);
    }
  }

  /** It does fit when no intrinsic can run, and for any code when the budget is at most the free slots. */
  lemma {:induction false} RunFitsWhen<W(!new)>(bc: Bytecode, h: Option<Handler<W>>, s: State<W>, b: nat)
    requires |s.locals| == MAX_LOCALS && (h.Some? ==> WellBehaved(h.value))
    requires Quiet(bc, h) || |s.stack| + b <= MAX_STACK
    ensures RunFits(bc, h, s, b)
    decreases b
  {
    hide Step, WellBehaved;
    StepGrowth(bc, h, s);
    var cost := CostAt(bc.code, s.pc);
    if cost <= b && Step(bc, h, s).1 == Running {
      RunFitsWhen(bc, h, Step(bc, h, s).0, b - cost);
    }
  }

  /** Code of n PERCEIVEs: 64 of them fill the stack array, and the next one leaves it. */
  lemma {:induction false} Perceives<W(!new)>(bc: Bytecode, h: Handler<W>, s: State<W>, n: nat)
    requires bc.code == seq(n, _ => PERCEIVE) && s.pc <= n && !s.halted && |s.locals| == MAX_LOCALS && WellBehaved(h)
    requires |s.stack| == 4 * s.pc <= MAX_STACK
    ensures var r := Run(bc, Some(h), s, 10 * (n - s.pc) + 1);
            if n <= 64 then r.status == Halted && |r.state.stack| == 4 * n
            else r.status == StackOverrun && |r.state.stack| == MAX_STACK
    decreases n - s.pc
  {
    hide Arith, I16At, I32At, U16At;
    if s.pc < n {
      var op := bc.code[s.pc];
      assert op == PERCEIVE;
      assert Step(bc, Some(h), s) == StepIntrinsic(bc, Some(h), op, s.(pc := s.pc + 1));
      var reply := h(Perceive, s.world);
      assert |reply.pushed| == 4;
      if 4 * s.pc + 4 <= MAX_STACK {
        Perceives(bc, h, Step(bc, Some(h), s).0, n);
      }
    }
  }
}
