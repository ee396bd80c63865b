/**
 Big-step semantics of GoL Script over variable slots. An evaluation is given the operand height
 and call depth it starts at and the budget it may spend, so every way a tick can end is an outcome
 of the source program: a value, a division by zero, an overflow of one of the fixed stacks,
 or the end of the budget. The budget also makes the definition well-founded.
 */
module Semantics {
  import opened Words
  import opened Ast
  import opened Tables
  import Machine

  /** The variables, shared by all functions, and the world that intrinsics act on. */
  datatype Store<+W> = Store(locals: seq<int32>, world: W)

  datatype Out<+W, +T> =
    | Done(value: T, st: Store<W>, left: nat)
    | Abort(status: Machine.Status, st: Store<W>, left: nat)
    | Wrong
  {
    predicate IsFailure() { !Done? }

    function PropagateFailure<U>(): Out<W, U>
      requires !Done?
    {
      match this
      case Abort(status, st, left) => Abort(status, st, left)
      case Wrong => Wrong
    }

    function Extract(): (T, Store<W>, nat)
      requires Done?
    {
      (value, st, left)
    }

    /** All that an outcome with budget b can be. */
    ghost predicate Within(b: nat) {
      && (!Wrong? ==> |st.locals| == Machine.MAX_LOCALS && left <= b)
      && (Abort? ==> status in FAULTS)
    }
  }

  /** How a source program of the fragment can be stopped. */
  const FAULTS := {Machine.BudgetExhausted, Machine.StackOverflow, Machine.DivisionByZero, Machine.CallDepthExceeded,
                   Machine.StackOverrun, Machine.QuotientOverflow}

  datatype Flow = Next | Leave(result: Option<int32>)

  datatype Ctx<!W> = Ctx(defs: map<string, FunctionDef>, funs: map<string, FunInfo>, handler: Machine.Handler<W>)

  // ---- Meaning of the operators ----

  /** The value, or the fault of a division. */
  function BinaryMeaning(op: BinOp, x: int32, y: int32): (r: Result<int32, Machine.Status>)
    ensures r.Err? ==> r.error in FAULTS
  {
    match op
    case Add => Ok(Wrap(x + y))
    case Sub => Ok(Wrap(x - y))
    case Mul => Ok(Wrap(x * y))
    case Div => Divide(x, y, Wrap(if y == 0 then 0 else TruncDiv(x, y)))
    case Mod => Divide(x, y, Wrap(if y == 0 then 0 else TruncMod(x, y)))
    case Eq => Ok(Machine.Truth(x == y))
    case Ne => Ok(Machine.Truth(x != y))
    case Lt => Ok(Machine.Truth(x < y))
    case Gt => Ok(Machine.Truth(x > y))
    case Le => Ok(Machine.Truth(x <= y))
    case Ge => Ok(Machine.Truth(x >= y))
    case And => Ok(Machine.Truth(x != 0 && y != 0))
    case Or => Ok(Machine.Truth(x != 0 || y != 0))
  }

  /** The result of a division, if its operands have one. */
  function Divide(x: int32, y: int32, result: int32): (r: Result<int32, Machine.Status>)
    ensures r.Err? ==> r.error in FAULTS
  {
    if y == 0 then Err(Machine.DivisionByZero)
    else if x == -0x8000_0000 && y == -1 then Err(Machine.QuotientOverflow)
    else Ok(result)
  }

  function UnaryMeaning(op: UnOp, x: int32): int32 {
    match op
    case Neg => Wrap(-(x as int))
    case Not => Machine.Truth(x == 0)
  }

  /** != , <= and >= compile to two instructions. */
  function BinaryCost(op: BinOp): nat {
    if op in {Ne, Le, Ge} then 2 else 1
  }

  /** The intrinsic behind a builtin that yields one value, with the number of results it drops. */
  function ValueIntrinsic(b: Builtin, args: seq<Expr>): Option<(Machine.Intrinsic, nat)> {
    match b
    case Eat => Some((Machine.Eat, 0))
    case Drink => Some((Machine.Drink, 0))
    case Reproduce => Some((Machine.Reproduce, 0))
    case MyEnergy => Some((Machine.MyEnergy, 0))
    case MyHydration => Some((Machine.MyHydration, 0))
    case MyTrait =>
      if |args| == 1 && args[0].IntLit? then Some((Machine.MyTrait(args[0].n % 0x100), 0)) else None
    case PerceiveTerrain => Some((Machine.Perceive, 3))
    case LookTerrain => Some((Machine.Look, 3))
    case _ => None
  }

  /** The intrinsic behind an action, which yields no value. */
  function ActionOf(e: Expr): Option<Machine.Intrinsic> {
    if !e.Call? then None
    else
      match BuiltinOf(e.callee)
      case Some(Move) => Some(Machine.Move)
      case Some(TurnLeft) => Some(Machine.TurnLeft)
      case Some(TurnRight) => Some(Machine.TurnRight)
      case _ => None
  }

  // ---- Charging ----

  /** Pays for n cheap instructions that leave the store alone. */
  function Pay<W>(st: Store<W>, b: nat, n: nat): Out<W, ()> {
    if b < n then Abort(Machine.BudgetExhausted, st, 0) else Done((), st, b - n)
  }

  /** Pushes a literal or a variable, which needs a free stack slot. */
  function Load<W>(v: int32, st: Store<W>, h: nat, b: nat): Out<W, int32> {
    if b < 1 then Abort(Machine.BudgetExhausted, st, b)
    else if h >= Machine.MAX_STACK then Abort(Machine.StackOverflow, st, b - 1)
    else Done(v, st, b - 1)
  }

  /** Acts on the world through the handler, whose replies go on the stack unchecked. */
  function Act<W>(c: Ctx<W>, i: Machine.Intrinsic, st: Store<W>, h: nat, b: nat): Out<W, seq<int32>> {
    if b < Machine.INTRINSIC_COST then Abort(Machine.BudgetExhausted, st, b)
    else
      var reply := c.handler(i, st.world);
      var st', left := st.(world := reply.world), b - Machine.INTRINSIC_COST;
      if h + |reply.pushed| > Machine.MAX_STACK then Abort(Machine.StackOverrun, st', left)
      else Done(reply.pushed, st', left)
  }

  /** Passes arguments: value i goes to slot i, the last one first. */
  function Pass<W>(vs: seq<int32>, st: Store<W>, b: nat): (r: Out<W, ()>)
    requires |vs| <= |st.locals|
    ensures !r.Wrong? && |r.st.locals| == |st.locals| && r.left <= b
    ensures r.Abort? ==> r.status == Machine.BudgetExhausted
  {
    if vs == [] then Done((), st, b)
    else if b < 1 then Abort(Machine.BudgetExhausted, st, b)
    else
      var last := |vs| - 1;
      Pass(vs[..last], st.(locals := st.locals[last := vs[last]]), b - 1)
  }

  /** Applies a binary operator to x and the outcome of its right operand. */
  function Combine<W>(op: BinOp, x: int32, right: Out<W, int32>): (r: Out<W, int32>)
    ensures !right.Done? ==> r == right
    ensures right.Done? && !r.Wrong? ==> r.st == right.st
    ensures right.Done? ==> !r.Wrong? && r.left <= right.left && (r.Done? ==> r.left < right.left)
  {
    var (y, st, b) :- right;
    match BinaryMeaning(op, x, y)
    case Err(status) => if b < 1 then Abort(Machine.BudgetExhausted, st, b) else Abort(status, st, b - 1)
    case Ok(v) =>
      var (_, st', b') :- Pay(st, b, BinaryCost(op));
      Done(v, st', b')
  }

  // ---- Expressions and statements ----

  function Eval<W>(c: Ctx<W>, names: seq<string>, e: Expr, st: Store<W>, h: nat, d: nat, b: nat): (r: Out<W, int32>)
    requires |st.locals| == Machine.MAX_LOCALS
    ensures r.Within(b) && (r.Done? ==> r.left < b)
    decreases b, e, 1
  {
    hide BuiltinOf, SlotOf, ValueIntrinsic;
    match e
    case IntLit(n) =>
      if -0x8000_0000 <= n < 0x8000_0000 then Load(n, st, h, b) else Wrong
    case BoolLit(v) => Load(Machine.Truth(v), st, h, b)
    case Var(name) =>
      (match SlotOf(names, name)
       case Some(slot) => if slot < Machine.MAX_LOCALS then Load(st.locals[slot], st, h, b) else Wrong
       case None => Wrong)
    case Binary(op, left, right) =>
      var (x, st1, b1) :- Eval(c, names, left, st, h, d, b);
      Combine(op, x, Eval(c, names, right, st1, h + 1, d, b1))
    case Unary(op, operand) =>
      var (x, st1, b1) :- Eval(c, names, operand, st, h, d, b);
      var (_, st2, b2) :- Pay(st1, b1, 1);
      Done(UnaryMeaning(op, x), st2, b2)
    case Call(name, args) =>
      match BuiltinOf(name)
      case Some(builtin) =>
        (match ValueIntrinsic(builtin, args)
         case None => Wrong
         case Some((i, drop)) =>
           var (vs, st1, b1) :- Act(c, i, st, h, b);
           if |vs| == 0 then Wrong
           else
             var (_, st2, b2) :- Pay(st1, b1, drop);
             Done(vs[0], st2, b2))
      case None =>
        if name !in c.defs || name !in c.funs then Wrong
        else
          var (vs, st1, b1) :- EvalArgs(c, names, args, st, h, d, b);
          if |vs| > Machine.MAX_LOCALS then Wrong
          else
            var (_, st2, b2) :- Pass(vs, st1, b1);
            Enter(c, e, st2, h, d, b2)
  }

  /** The call itself, once its arguments are in their slots: one frame deeper, and it must return a value. */
  function Enter<W>(c: Ctx<W>, e: Expr, st: Store<W>, h: nat, d: nat, b: nat): (r: Out<W, int32>)
    requires |st.locals| == Machine.MAX_LOCALS && e.Call? && e.callee in c.defs && e.callee in c.funs
    ensures r.Within(b) && (r.Done? ==> r.left < b)
    decreases b, e, 0
  {
    if b < 1 then Abort(Machine.BudgetExhausted, st, b)
    else if d >= Machine.MAX_CALL_DEPTH then Abort(Machine.CallDepthExceeded, st, b - 1)
    else
      var (flow, st1, b1) :- Exec(c, c.funs[e.callee].locals, c.defs[e.callee].body, st, h, d + 1, b - 1);
      if flow.Leave? && flow.result.Some? then Done(flow.result.value, st1, b1) else Wrong
  }

  /** Arguments are evaluated left to right, each with the earlier ones below it on the stack. */
  function EvalArgs<W>(c: Ctx<W>, names: seq<string>, es: seq<Expr>, st: Store<W>, h: nat, d: nat, b: nat)
    : (r: Out<W, seq<int32>>)
    requires |st.locals| == Machine.MAX_LOCALS
    ensures r.Within(b) && (r.Done? ==> |r.value| == |es|)
    decreases b, es, 0
  {
    if es == [] then Done([], st, b)
    else
      var (v, st1, b1) :- Eval(c, names, es[0], st, h, d, b);
      var (vs, st2, b2) :- EvalArgs(c, names, es[1..], st1, h + 1, d, b1);
      Done([v] + vs, st2, b2)
  }

  function ExecStmt<W>(c: Ctx<W>, names: seq<string>, s: Stmt, st: Store<W>, h: nat, d: nat, b: nat): (r: Out<W, Flow>)
    requires |st.locals| == Machine.MAX_LOCALS
    ensures r.Within(b)
    decreases b, s, 1
  {
    hide ActionOf;
    match s
    case VarDecl(name, init) => Define(c, names, name, Eval(c, names, init, st, h, d, b))
    case Assign(name, val) => Define(c, names, name, Eval(c, names, val, st, h, d, b))
    case ExprStmt(e) =>
      (match ActionOf(e)
       case Some(i) =>
         var (_, st1, b1) :- Act(c, i, st, h, b);
         Done(Next, st1, b1)
       case None =>
         var (_, st1, b1) :- Eval(c, names, e, st, h, d, b);
         var (_, st2, b2) :- Pay(st1, b1, 1);
         Done(Next, st2, b2))
    case IfThen(cond, thn) =>
      var (v, st1, b1) :- Eval(c, names, cond, st, h, d, b);
      var (_, st2, b2) :- Pay(st1, b1, 1);
      if v == 0 then Done(Next, st2, b2) else Exec(c, names, thn, st2, h, d, b2)
    case IfElse(cond, thn, els) =>
      var (v, st1, b1) :- Eval(c, names, cond, st, h, d, b);
      var (_, st2, b2) :- Pay(st1, b1, 1);
      if v == 0 then Exec(c, names, els, st2, h, d, b2)
      else
        var (flow, st3, b3) :- Exec(c, names, thn, st2, h, d, b2);
        if flow.Leave? then Done(flow, st3, b3)
        else
          var (_, st4, b4) :- Pay(st3, b3, 1);
          Done(Next, st4, b4)
    case While(cond, body) =>
      var (v, st1, b1) :- Eval(c, names, cond, st, h, d, b);
      var (_, st2, b2) :- Pay(st1, b1, 1);
      if v == 0 then Done(Next, st2, b2)
      else
        var (flow, st3, b3) :- Exec(c, names, body, st2, h, d, b2);
        if flow.Leave? then Done(flow, st3, b3)
        else
          var (_, st4, b4) :- Pay(st3, b3, 1);
          ExecStmt(c, names, s, st4, h, d, b4)
    case ReturnVoid =>
      var (_, st1, b1) :- Pay(st, b, 1);
      Done(Leave(None), st1, b1)
    case Return(res) =>
      var (v, st1, b1) :- Eval(c, names, res, st, h, d, b);
      var (_, st2, b2) :- Pay(st1, b1, 1);
      Done(Leave(Some(v)), st2, b2)
  }

  /** Stores the value of a declaration or an assignment. */
  function Define<W>(c: Ctx<W>, names: seq<string>, name: string, r: Out<W, int32>): Out<W, Flow>
    requires r.Done? ==> |r.st.locals| == Machine.MAX_LOCALS
  {
    var (v, st1, b1) :- r;
    match SlotOf(names, name)
    case None => Wrong
    case Some(slot) =>
      if slot >= Machine.MAX_LOCALS then Wrong
      else
        var (_, st2, b2) :- Pay(st1, b1, 1);
        Done(Next, st2.(locals := st2.locals[slot := v]), b2)
  }

  function Exec<W>(c: Ctx<W>, names: seq<string>, ss: seq<Stmt>, st: Store<W>, h: nat, d: nat,
                   b: nat): (r: Out<W, Flow>)
    requires |st.locals| == Machine.MAX_LOCALS
    ensures r.Within(b)
    decreases b, ss, 0
  {
    if ss == [] then Done(Next, st, b)
    else
      var (flow, st1, b1) :- ExecStmt(c, names, ss[0], st, h, d, b);
      if flow.Leave? then Done(flow, st1, b1) else Exec(c, names, ss[1..], st1, h, d, b1)
  }

  /** One tick: calls main on an empty stack, returns from it, and halts. */
  function Tick<W>(c: Ctx<W>, st: Store<W>, b: nat): (r: Out<W, Option<int32>>)
    requires |st.locals| == Machine.MAX_LOCALS
    ensures r.Within(b)
  {
    if "main" !in c.defs || "main" !in c.funs then Wrong
    else
      var (_, st1, b1) :- Pay(st, b, 1);
      var (flow, st2, b2) :- Exec(c, c.funs["main"].locals, c.defs["main"].body, st1, 0, 1, b1);
      var (_, st3, b3) :- Pay(st2, b2, if flow.Leave? then 1 else 2);
      Done(if flow.Leave? then flow.result else None, st3, b3)
  }

  // ---- The fragment whose calls leave exactly one value ----

  /** No return without a value. */
  predicate NoVoidReturn(s: Stmt)
    decreases s, 1
  {
    match s
    case IfThen(_, thn) => NoVoidReturns(thn)
    case IfElse(_, thn, els) => NoVoidReturns(thn) && NoVoidReturns(els)
    case While(_, body) => NoVoidReturns(body)
    case ReturnVoid => false
    case _ => true
  }

  predicate NoVoidReturns(ss: seq<Stmt>)
    decreases ss, 0
  {
    ss == [] || (NoVoidReturn(ss[0]) && NoVoidReturns(ss[1..]))
  }

  /** The body ends by returning a value and never returns without one. */
  predicate ReturnsValue(body: seq<Stmt>) {
    |body| > 0 && body[|body| - 1].Return? && NoVoidReturns(body)
  }

  predicate ValueExpr<W>(c: Ctx<W>, e: Expr)
    decreases e, 1
  {
    match e
    case Binary(_, left, right) => ValueExpr(c, left) && ValueExpr(c, right)
    case Unary(_, operand) => ValueExpr(c, operand)
    case Call(name, args) =>
      (match BuiltinOf(name)
       case Some(b) => ValueIntrinsic(b, args).Some? && (b != MyTrait ==> args == [])
       case None => name in c.defs && ReturnsValue(c.defs[name].body) && ValueExprs(c, args))
    case _ => true
  }

  predicate ValueExprs<W>(c: Ctx<W>, es: seq<Expr>)
    decreases es, 0
  {
    es == [] || (ValueExpr(c, es[0]) && ValueExprs(c, es[1..]))
  }

  predicate InFragment<W>(c: Ctx<W>, s: Stmt)
    decreases s, 1
  {
    match s
    case VarDecl(_, init) => ValueExpr(c, init)
    case Assign(_, val) => ValueExpr(c, val)
    case ExprStmt(e) => if ActionOf(e).Some? then e.args == [] else ValueExpr(c, e)
    case IfThen(cond, thn) => ValueExpr(c, cond) && AllInFragment(c, thn)
    case IfElse(cond, thn, els) => ValueExpr(c, cond) && AllInFragment(c, thn) && AllInFragment(c, els)
    case While(cond, body) => ValueExpr(c, cond) && AllInFragment(c, body)
    case ReturnVoid => true
    case Return(res) => ValueExpr(c, res)
  }

  predicate AllInFragment<W>(c: Ctx<W>, ss: seq<Stmt>)
    decreases ss, 0
  {
    ss == [] || (InFragment(c, ss[0]) && AllInFragment(c, ss[1..]))
  }

  predicate ProgramInFragment<W>(c: Ctx<W>) {
    forall f :: f in c.defs ==> AllInFragment(c, c.defs[f].body)
  }
}
