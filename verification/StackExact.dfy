/** Where the peak of StackNeed is not only enough but needed: code that neither branches nor calls functions. */
module StackExact {
  import opened Words
  import opened Ast
  import opened Tables
  import opened Semantics
  import opened StackNeed
  import M = Machine

  /** Without user calls, an evaluation that ends has had its peak on the stack. */
  lemma {:induction false} PeakIsReached<W(!new)>(c: Ctx<W>, names: seq<string>, e: Expr, st: Store<W>, h: nat, d: nat,
                                                  b: nat, calls: nat)
    requires |st.locals| == M.MAX_LOCALS && M.WellBehaved(c.handler) && NoUserCall(e)
    requires Eval(c, names, e, st, h, d, b).Done?
    ensures h + Peak(c.defs, e, calls) <= M.MAX_STACK
    decreases e
  {
    hide BuiltinOf, SlotOf, ValueIntrinsic, BinaryMeaning;
    match e
    case Binary(op, left, right) =>
      var o := Eval(c, names, left, st, h, d, b);
      PeakIsReached(c, names, left, st, h, d, b, calls);
      PeakIsReached(c, names, right, o.st, h + 1, d, o.left, calls);
    case Unary(_, operand) => PeakIsReached(c, names, operand, st, h, d, b, calls);
    case _ =>
  }

  predicate HasSlot(names: seq<string>, name: string) {
    SlotOf(names, name).Some? && SlotOf(names, name).value < M.MAX_LOCALS
  }

  /** Literals, variables with slots, operators other than the divisions, and value builtins. */
  predicate Plain(names: seq<string>, e: Expr) {
    match e
    case IntLit(n) => -0x8000_0000 <= n < 0x8000_0000
    case BoolLit(_) => true
    case Var(name) => HasSlot(names, name)
    case Binary(op, left, right) => op !in {Div, Mod} && Plain(names, left) && Plain(names, right)
    case Unary(_, operand) => Plain(names, operand)
    case Call(name, args) => BuiltinOf(name).Some? && ValueIntrinsic(BuiltinOf(name).value, args).Some?
  }

  function Cost(e: Expr): nat {
    match e
    case Binary(op, left, right) => Cost(left) + Cost(right) + BinaryCost(op)
    case Unary(_, operand) => Cost(operand) + 1
    case Call(name, args) =>
      if BuiltinOf(name).Some? && ValueIntrinsic(BuiltinOf(name).value, args).Some? then
        M.INTRINSIC_COST + ValueIntrinsic(BuiltinOf(name).value, args).value.1
      else 0
    case _ => 1
  }

  /** It costs exactly that, or the stack is too small. */
  ghost predicate EndsFor<W, T>(o: Out<W, T>, b: int, cost: int) {
    (o.Done? && o.left == b - cost) || !InRoom(o)
  }

  lemma CombineEnds<W>(op: BinOp, x: int32, right: Out<W, int32>, b: int, cost: nat)
    requires op !in {Div, Mod} && EndsFor(right, b, cost) && b >= cost + BinaryCost(op)
    ensures EndsFor(Combine(op, x, right), b, cost + BinaryCost(op))
  {
  }

  lemma BuiltinEnds<W(!new)>(c: Ctx<W>, names: seq<string>, e: Expr, st: Store<W>, h: nat, d: nat, b: nat)
    requires |st.locals| == M.MAX_LOCALS && M.WellBehaved(c.handler) && e.Call? && Plain(names, e) && b >= Cost(e)
    ensures EndsFor(Eval(c, names, e, st, h, d, b), b, Cost(e))
  {
    hide BuiltinOf, SlotOf;
    var (i, n) := ValueIntrinsic(BuiltinOf(e.callee).value, e.args).value;
    assert |c.handler(i, st.world).pushed| == M.PushCount(i) >= 1;
    hide ValueIntrinsic, M.WellBehaved;
  }

  lemma {:induction false} PlainEnds<W(!new)>(c: Ctx<W>, names: seq<string>, e: Expr, st: Store<W>, h: nat, d: nat,
                                              b: nat)
    requires |st.locals| == M.MAX_LOCALS && M.WellBehaved(c.handler) && Plain(names, e) && b >= Cost(e)
    ensures EndsFor(Eval(c, names, e, st, h, d, b), b, Cost(e))
    decreases e
  {
    hide BuiltinOf, SlotOf, ValueIntrinsic, M.WellBehaved, Combine, BinaryCost;
    match e
    case Binary(op, left, right) =>
      PlainEnds(c, names, left, st, h, d, b);
      var o := Eval(c, names, left, st, h, d, b);
      if o.Done? {
        PlainEnds(c, names, right, o.st, h + 1, d, o.left);
        CombineEnds(op, o.value, Eval(c, names, right, o.st, h + 1, d, o.left), o.left, Cost(right));
      }
    case Unary(_, operand) => PlainEnds(c, names, operand, st, h, d, b);
    case Call(_, _) => BuiltinEnds(c, names, e, st, h, d, b);
    case _ =>
  }

  lemma {:induction false} PlainCallsNothing(names: seq<string>, e: Expr)
    requires Plain(names, e)
    ensures NoUserCall(e)
  {
    match e
    case Binary(_, left, right) =>
      PlainCallsNothing(names, left);
      PlainCallsNothing(names, right);
    case Unary(_, operand) => PlainCallsNothing(names, operand);
    case _ =>
  }

  /** With budget enough, whether a plain expression has a value is whether its peak fits: no more, no less. */
  lemma PlainEvaluatesExactly<W(!new)>(c: Ctx<W>, names: seq<string>, e: Expr, st: Store<W>, h: nat, d: nat, b: nat)
    requires |st.locals| == M.MAX_LOCALS && M.WellBehaved(c.handler) && d <= M.MAX_CALL_DEPTH
    requires Plain(names, e) && b >= Cost(e)
    ensures Eval(c, names, e, st, h, d, b).Done? <==> h + Peak(c.defs, e, CallsLeft(d)) <= M.MAX_STACK
  {
    hide Eval, Peak, Plain, NoUserCall, Cost;
    PlainEnds(c, names, e, st, h, d, b);
    PlainCallsNothing(names, e);
    if Eval(c, names, e, st, h, d, b).Done? {
      PeakIsReached(c, names, e, st, h, d, b, CallsLeft(d));
    }
    if h + Peak(c.defs, e, CallsLeft(d)) <= M.MAX_STACK {
      EvalInRoom(c, names, e, st, h, d, b);
    }
  }

  predicate StraightStmt(names: seq<string>, s: Stmt) {
    match s
    case VarDecl(name, init) => HasSlot(names, name) && Plain(names, init)
    case Assign(name, val) => HasSlot(names, name) && Plain(names, val)
    case ExprStmt(e) => ActionOf(e).Some? || Plain(names, e)
    case _ => false
  }

  /** Declarations, assignments, actions and expressions in a row. */
  predicate Straight(names: seq<string>, ss: seq<Stmt>) {
    ss == [] || (StraightStmt(names, ss[0]) && Straight(names, ss[1..]))
  }

  function CostOf(s: Stmt): nat {
    match s
    case VarDecl(_, init) => Cost(init) + 1
    case Assign(_, val) => Cost(val) + 1
    case ExprStmt(e) => if ActionOf(e).Some? then M.INTRINSIC_COST else Cost(e) + 1
    case _ => 0
  }

  function StraightCost(ss: seq<Stmt>): nat {
    if ss == [] then 0 else CostOf(ss[0]) + StraightCost(ss[1..])
  }

  lemma StraightStmtExactly<W(!new)>(c: Ctx<W>, names: seq<string>, s: Stmt, st: Store<W>, d: nat, b: nat)
    requires |st.locals| == M.MAX_LOCALS && M.WellBehaved(c.handler) && d <= M.MAX_CALL_DEPTH
    requires StraightStmt(names, s) && b >= CostOf(s)
    ensures var o := ExecStmt(c, names, s, st, 0, d, b);
            && EndsFor(o, b, CostOf(s)) && (o.Done? ==> o.value == Next)
            && (o.Done? <==> PeakStmt(c.defs, s, CallsLeft(d)) <= M.MAX_STACK)
  {
    hide Eval, Peak, Plain, Cost, SlotOf, ActionOf;
    match s
    case VarDecl(_, init) =>
      PlainEnds(c, names, init, st, 0, d, b);
      PlainEvaluatesExactly(c, names, init, st, 0, d, b);
    case Assign(_, val) =>
      PlainEnds(c, names, val, st, 0, d, b);
      PlainEvaluatesExactly(c, names, val, st, 0, d, b);
    case ExprStmt(e) =>
      if ActionOf(e).Some? {
        ActionPushesNothing(e);
      } else {
        PlainEnds(c, names, e, st, 0, d, b);
        PlainEvaluatesExactly(c, names, e, st, 0, d, b);
      }
  }

  /** With budget enough, a straight body runs to its end if its peak fits, and exceeds the stack if not. */
  lemma {:induction false} StraightRunsExactly<W(!new)>(c: Ctx<W>, names: seq<string>, ss: seq<Stmt>, st: Store<W>,
                                                        d: nat, b: nat)
    requires |st.locals| == M.MAX_LOCALS && M.WellBehaved(c.handler) && d <= M.MAX_CALL_DEPTH
    requires Straight(names, ss) && b >= StraightCost(ss)
    ensures var o := Exec(c, names, ss, st, 0, d, b);
            && EndsFor(o, b, StraightCost(ss)) && (o.Done? ==> o.value == Next)
            && (o.Done? <==> PeakBody(c.defs, ss, CallsLeft(d)) <= M.MAX_STACK)
    decreases ss
  {
    hide ExecStmt, PeakStmt, CostOf, M.WellBehaved, StraightStmt;
    if ss != [] {
      StraightStmtExactly(c, names, ss[0], st, d, b);
      var o := ExecStmt(c, names, ss[0], st, 0, d, b);
      if o.Done? {
        StraightRunsExactly(c, names, ss[1..], o.st, d, o.left);
      }
    }
  }
}
