/** How many stack slots a source program can need at once, computed from its text. */
module StackNeed {
  import opened Words
  import opened Ast
  import opened Tables
  import opened Semantics
  import Grammar
  import M = Machine

  /**
   The most operands above those there at the start that an evaluation can have at once, when so many calls may still
   nest: 1 for literals and variables, as many as its intrinsic pushes for a builtin, and the callee's for a call.
   */
  function Peak(defs: map<string, FunctionDef>, e: Expr, calls: nat): nat
    decreases calls, e, 1
  {
    match e
    case Binary(_, left, right) => Max(Peak(defs, left, calls), 1 + Peak(defs, right, calls))
    case Unary(_, operand) => Peak(defs, operand, calls)
    case Call(name, args) =>
      (match BuiltinOf(name)
       case Some(b) =>
         (match ValueIntrinsic(b, args)
          case Some((i, _)) => M.PushCount(i)
          case None => 0)
       case None =>
         var body := if calls == 0 || name !in defs then 0 else PeakBody(defs, defs[name].body, calls - 1);
         Max(Max(1, PeakArgs(defs, args, calls)), body))
    case _ => 1
  }

  function PeakArgs(defs: map<string, FunctionDef>, es: seq<Expr>, calls: nat): nat
    decreases calls, es, 0
  {
    if es == [] then 0 else Max(Peak(defs, es[0], calls), 1 + PeakArgs(defs, es[1..], calls))
  }

  function PeakStmt(defs: map<string, FunctionDef>, s: Stmt, calls: nat): nat
    decreases calls, s, 1
  {
    match s
    case VarDecl(_, init) => Peak(defs, init, calls)
    case Assign(_, val) => Peak(defs, val, calls)
    case ExprStmt(e) => if ActionOf(e).Some? then 0 else Peak(defs, e, calls)
    case IfThen(cond, thn) => Max(Peak(defs, cond, calls), PeakBody(defs, thn, calls))
    case IfElse(cond, thn, els) =>
      Max(Peak(defs, cond, calls), Max(PeakBody(defs, thn, calls), PeakBody(defs, els, calls)))
    case While(cond, body) => Max(Peak(defs, cond, calls), PeakBody(defs, body, calls))
    case ReturnVoid => 0
    case Return(res) => Peak(defs, res, calls)
  }

  function PeakBody(defs: map<string, FunctionDef>, ss: seq<Stmt>, calls: nat): nat
    decreases calls, ss, 0
  {
    if ss == [] then 0 else Max(PeakStmt(defs, ss[0], calls), PeakBody(defs, ss[1..], calls))
  }

  /** The outcome is not an overflow of the operand stack, checked or unchecked. */
  predicate InRoom<W, T>(o: Out<W, T>) {
    o.Abort? ==> o.status !in {M.StackOverflow, M.StackOverrun}
  }

  /** Room for the peak above height h, with d frames in use. */
  predicate Room(peak: nat, h: nat, d: nat) {
    h + peak <= M.MAX_STACK && d <= M.MAX_CALL_DEPTH
  }

  function CallsLeft(d: nat): nat {
    if d <= M.MAX_CALL_DEPTH then M.MAX_CALL_DEPTH - d else 0
  }

  lemma {:induction false} EvalInRoom<W(!new)>(c: Ctx<W>, names: seq<string>, e: Expr, st: Store<W>, h: nat, d: nat,
                                               b: nat)
    requires |st.locals| == M.MAX_LOCALS && M.WellBehaved(c.handler) && Room(Peak(c.defs, e, CallsLeft(d)), h, d)
    ensures InRoom(Eval(c, names, e, st, h, d, b))
    decreases b, e, 1
  {
    hide BuiltinOf, SlotOf, ValueIntrinsic, M.WellBehaved, BinaryMeaning;
    match e
    case Binary(op, left, right) =>
      EvalInRoom(c, names, left, st, h, d, b);
      var o := Eval(c, names, left, st, h, d, b);
      if o.Done? {
        EvalInRoom(c, names, right, o.st, h + 1, d, o.left);
        CombineInRoom(op, o.value, Eval(c, names, right, o.st, h + 1, d, o.left));
      }
    case Unary(_, operand) => EvalInRoom(c, names, operand, st, h, d, b);
    case Call(name, args) => CallInRoom(c, names, e, st, h, d, b);
    case _ =>
  }

  lemma CombineInRoom<W>(op: BinOp, x: int32, right: Out<W, int32>)
    requires InRoom(right)
    ensures InRoom(Combine(op, x, right))
  {
    if right.Done? && BinaryMeaning(op, x, right.value).Err? {
      assert BinaryMeaning(op, x, right.value).error in {M.DivisionByZero, M.QuotientOverflow};
    }
  }

  lemma {:induction false} CallInRoom<W(!new)>(c: Ctx<W>, names: seq<string>, e: Expr, st: Store<W>, h: nat, d: nat,
                                               b: nat)
    requires |st.locals| == M.MAX_LOCALS && M.WellBehaved(c.handler) && Room(Peak(c.defs, e, CallsLeft(d)), h, d)
    requires e.Call?
    ensures InRoom(Eval(c, names, e, st, h, d, b))
    decreases b, e, 0
  {
    hide BuiltinOf, ValueIntrinsic;
    if BuiltinOf(e.callee).None? {
      if e.callee in c.defs && e.callee in c.funs {
        EvalArgsInRoom(c, names, e.args, st, h, d, b);
        var o := EvalArgs(c, names, e.args, st, h, d, b);
        if o.Done? && |o.value| <= M.MAX_LOCALS {
          var o2 := Pass(o.value, o.st, o.left);
          if o2.Done? && o2.left >= 1 && d < M.MAX_CALL_DEPTH {
            assert CallsLeft(d) - 1 == CallsLeft(d + 1);
            ExecInRoom(c, c.funs[e.callee].locals, c.defs[e.callee].body, o2.st, h, d + 1, o2.left - 1);
          }
        }
      }
    }
  }

  lemma {:induction false} EvalArgsInRoom<W(!new)>(c: Ctx<W>, names: seq<string>, es: seq<Expr>, st: Store<W>, h: nat,
                                                   d: nat, b: nat)
    requires |st.locals| == M.MAX_LOCALS && M.WellBehaved(c.handler) && Room(PeakArgs(c.defs, es, CallsLeft(d)), h, d)
    ensures InRoom(EvalArgs(c, names, es, st, h, d, b))
    decreases b, es, 0
  {
    hide M.WellBehaved, Peak, Eval;
    if es != [] {
      EvalInRoom(c, names, es[0], st, h, d, b);
      var o := Eval(c, names, es[0], st, h, d, b);
      if o.Done? {
        EvalArgsInRoom(c, names, es[1..], o.st, h + 1, d, o.left);
      }
    }
  }

  lemma {:induction false} ExecStmtInRoom<W(!new)>(c: Ctx<W>, names: seq<string>, s: Stmt, st: Store<W>, h: nat,
                                                   d: nat, b: nat)
    requires |st.locals| == M.MAX_LOCALS && M.WellBehaved(c.handler) && Room(PeakStmt(c.defs, s, CallsLeft(d)), h, d)
    ensures InRoom(ExecStmt(c, names, s, st, h, d, b))
    decreases b, s, 1
  {
    hide Eval, Exec, Peak, PeakBody, ActionOf, SlotOf;
    match s
    case VarDecl(_, init) => EvalInRoom(c, names, init, st, h, d, b);
    case Assign(_, val) => EvalInRoom(c, names, val, st, h, d, b);
    case ExprStmt(e) =>
      if ActionOf(e).Some? {
        ActionPushesNothing(e);
      } else {
        EvalInRoom(c, names, e, st, h, d, b);
      }
    case IfThen(cond, thn) =>
      EvalInRoom(c, names, cond, st, h, d, b);
      var o := Eval(c, names, cond, st, h, d, b);
      if o.Done? && o.left >= 1 {
        ExecInRoom(c, names, thn, o.st, h, d, o.left - 1);
      }
    case IfElse(cond, thn, els) =>
      EvalInRoom(c, names, cond, st, h, d, b);
      var o := Eval(c, names, cond, st, h, d, b);
      if o.Done? && o.left >= 1 {
        ExecInRoom(c, names, thn, o.st, h, d, o.left - 1);
        ExecInRoom(c, names, els, o.st, h, d, o.left - 1);
      }
    case While(cond, body) => WhileInRoom(c, names, s, st, h, d, b);
    case ReturnVoid =>
    case Return(res) => EvalInRoom(c, names, res, st, h, d, b);
  }

  lemma {:induction false} WhileInRoom<W(!new)>(c: Ctx<W>, names: seq<string>, s: Stmt, st: Store<W>, h: nat, d: nat,
                                                b: nat)
    requires |st.locals| == M.MAX_LOCALS && M.WellBehaved(c.handler) && Room(PeakStmt(c.defs, s, CallsLeft(d)), h, d)
    requires s.While?
    ensures InRoom(ExecStmt(c, names, s, st, h, d, b))
    decreases b, s, 0
  {
    hide Eval, Exec, Peak, PeakBody;
    EvalInRoom(c, names, s.cond, st, h, d, b);
    var o := Eval(c, names, s.cond, st, h, d, b);
    if o.Done? && o.left >= 1 && o.value != 0 {
      ExecInRoom(c, names, s.body, o.st, h, d, o.left - 1);
      var o2 := Exec(c, names, s.body, o.st, h, d, o.left - 1);
      if o2.Done? && o2.value == Next && o2.left >= 1 {
        ExecStmtInRoom(c, names, s, o2.st, h, d, o2.left - 1);
      }
    }
  }

  lemma ActionPushesNothing(e: Expr)
    requires ActionOf(e).Some?
    ensures M.PushCount(ActionOf(e).value) == 0
  {
    hide BuiltinOf;
  }

  lemma {:induction false} ExecInRoom<W(!new)>(c: Ctx<W>, names: seq<string>, ss: seq<Stmt>, st: Store<W>, h: nat,
                                               d: nat, b: nat)
    requires |st.locals| == M.MAX_LOCALS && M.WellBehaved(c.handler) && Room(PeakBody(c.defs, ss, CallsLeft(d)), h, d)
    ensures InRoom(Exec(c, names, ss, st, h, d, b))
    decreases b, ss, 0
  {
    hide M.WellBehaved, PeakStmt, ExecStmt;
    if ss != [] {
      ExecStmtInRoom(c, names, ss[0], st, h, d, b);
      var o := ExecStmt(c, names, ss[0], st, h, d, b);
      if o.Done? && o.value == Next {
        ExecInRoom(c, names, ss[1..], o.st, h, d, o.left);
      }
    }
  }

  // ---- Bounds on the peak ----

  /** No single frame of any function needs more. */
  ghost predicate FramesAtMost(defs: map<string, FunctionDef>, most: nat) {
    forall f :: f in defs ==> PeakBody(defs, defs[f].body, 0) <= most
  }

  lemma Times(n: nat, most: nat)
    requires n > 0
    ensures n * most == (n - 1) * most + most
  {
  }

  /** Each further frame adds at most what one frame needs. */
  lemma {:induction false} PeakByFrames(defs: map<string, FunctionDef>, e: Expr, calls: nat, most: nat)
    requires FramesAtMost(defs, most)
    ensures Peak(defs, e, calls) <= Peak(defs, e, 0) + calls * most
    decreases calls, e, 1
  {
    hide BuiltinOf, ValueIntrinsic, FramesAtMost;
    match e
    case Binary(_, left, right) =>
      PeakByFrames(defs, left, calls, most);
      PeakByFrames(defs, right, calls, most);
    case Unary(_, operand) => PeakByFrames(defs, operand, calls, most);
    case Call(name, args) =>
      if BuiltinOf(name).None? {
        PeakArgsByFrames(defs, args, calls, most);
        if calls > 0 && name in defs {
          PeakBodyByFrames(defs, defs[name].body, calls - 1, most);
          assert PeakBody(defs, defs[name].body, 0) <= most by { FrameAtMost(defs, most, name); }
          Times(calls, most);
        }
      }
    case _ =>
  }

  lemma FrameAtMost(defs: map<string, FunctionDef>, most: nat, f: string)
    requires FramesAtMost(defs, most) && f in defs
    ensures PeakBody(defs, defs[f].body, 0) <= most
  {
  }

  lemma {:induction false} PeakArgsByFrames(defs: map<string, FunctionDef>, es: seq<Expr>, calls: nat, most: nat)
    requires FramesAtMost(defs, most)
    ensures PeakArgs(defs, es, calls) <= PeakArgs(defs, es, 0) + calls * most
    decreases calls, es, 0
  {
    hide Peak, FramesAtMost;
    if es != [] {
      PeakByFrames(defs, es[0], calls, most);
      PeakArgsByFrames(defs, es[1..], calls, most);
    }
  }

  lemma {:induction false} PeakStmtByFrames(defs: map<string, FunctionDef>, s: Stmt, calls: nat, most: nat)
    requires FramesAtMost(defs, most)
    ensures PeakStmt(defs, s, calls) <= PeakStmt(defs, s, 0) + calls * most
    decreases calls, s, 1
  {
    hide Peak, PeakBody, ActionOf, FramesAtMost;
    match s
    case VarDecl(_, init) => PeakByFrames(defs, init, calls, most);
    case Assign(_, val) => PeakByFrames(defs, val, calls, most);
    case ExprStmt(e) => PeakByFrames(defs, e, calls, most);
    case IfThen(cond, thn) =>
      PeakByFrames(defs, cond, calls, most);
      PeakBodyByFrames(defs, thn, calls, most);
    case IfElse(cond, thn, els) =>
      PeakByFrames(defs, cond, calls, most);
      PeakBodyByFrames(defs, thn, calls, most);
      PeakBodyByFrames(defs, els, calls, most);
    case While(cond, body) =>
      PeakByFrames(defs, cond, calls, most);
      PeakBodyByFrames(defs, body, calls, most);
    case ReturnVoid =>
    case Return(res) => PeakByFrames(defs, res, calls, most);
  }

  lemma {:induction false} PeakBodyByFrames(defs: map<string, FunctionDef>, ss: seq<Stmt>, calls: nat, most: nat)
    requires FramesAtMost(defs, most)
    ensures PeakBody(defs, ss, calls) <= PeakBody(defs, ss, 0) + calls * most
    decreases calls, ss, 0
  {
    hide PeakStmt, FramesAtMost;
    if ss != [] {
      PeakStmtByFrames(defs, ss[0], calls, most);
      PeakBodyByFrames(defs, ss[1..], calls, most);
    }
  }

  // ---- Nesting bounds the peak of what calls no functions ----

  predicate NoUserCall(e: Expr) {
    match e
    case Binary(_, left, right) => NoUserCall(left) && NoUserCall(right)
    case Unary(_, operand) => NoUserCall(operand)
    case Call(name, _) => BuiltinOf(name).Some?
    case _ => true
  }

  /** No builtin pushes more than one value. */
  predicate NoSight(e: Expr) {
    match e
    case Binary(_, left, right) => NoSight(left) && NoSight(right)
    case Unary(_, operand) => NoSight(operand)
    case Call(name, _) => BuiltinOf(name).Some? && BuiltinOf(name).value !in {PerceiveTerrain, LookTerrain}
    case _ => true
  }

  /**
   Operator chains are free: only nesting and the six levels count, and three more for what an intrinsic pushes at
   once.
   */
  lemma {:induction false} PeakByNesting(defs: map<string, FunctionDef>, level: nat, e: Expr, calls: nat)
    requires level <= Grammar.UNARY && NoUserCall(e)
    ensures Peak(defs, e, calls) <= 6 * Grammar.Nesting(level, e) + 7 - level + if NoSight(e) then 0 else 3
    decreases e, if Grammar.LevelOf(e) < level then 2 else 1
  {
    hide Grammar.OpLevel, BuiltinOf;
    if Grammar.LevelOf(e) < level {
      PeakByNesting(defs, 0, e, calls);
    } else {
      match e
      case Binary(op, left, right) =>
        PeakByNesting(defs, Grammar.OpLevel(op), left, calls);
        PeakByNesting(defs, Grammar.OpLevel(op) + 1, right, calls);
      case Unary(_, operand) => PeakByNesting(defs, Grammar.UNARY, operand, calls);
      case _ =>
    }
  }

  /** Every expression of a statement calls no function and nests at most n deep. */
  predicate Shallow(s: Stmt, n: nat)
    decreases s, 1
  {
    match s
    case VarDecl(_, init) => ShallowExpr(init, n)
    case Assign(_, val) => ShallowExpr(val, n)
    case ExprStmt(e) => ShallowExpr(e, n)
    case IfThen(cond, thn) => ShallowExpr(cond, n) && AllShallow(thn, n)
    case IfElse(cond, thn, els) => ShallowExpr(cond, n) && AllShallow(thn, n) && AllShallow(els, n)
    case While(cond, body) => ShallowExpr(cond, n) && AllShallow(body, n)
    case ReturnVoid => true
    case Return(res) => ShallowExpr(res, n)
  }

  predicate AllShallow(ss: seq<Stmt>, n: nat)
    decreases ss, 0
  {
    ss == [] || (Shallow(ss[0], n) && AllShallow(ss[1..], n))
  }

  /** The parser enters its expression rule at most n times at once for the text of e. */
  predicate ShallowExpr(e: Expr, n: nat) {
    NoUserCall(e) && 1 + Grammar.Nesting(0, e) <= n
  }

  lemma ShallowExprPeak(defs: map<string, FunctionDef>, e: Expr, n: nat, calls: nat)
    requires ShallowExpr(e, n)
    ensures Peak(defs, e, calls) <= 6 * n + if NoSight(e) then 1 else 4
  {
    hide Peak, NoUserCall, Grammar.Nesting, NoSight;
    PeakByNesting(defs, 0, e, calls);
  }

  lemma {:induction false} ShallowPeak(defs: map<string, FunctionDef>, s: Stmt, n: nat, calls: nat)
    requires Shallow(s, n)
    ensures PeakStmt(defs, s, calls) <= 6 * n + 4
    decreases s, 1
  {
    hide Peak, PeakBody, ActionOf, ShallowExpr;
    match s
    case VarDecl(_, init) => ShallowExprPeak(defs, init, n, calls);
    case Assign(_, val) => ShallowExprPeak(defs, val, n, calls);
    case ExprStmt(e) => ShallowExprPeak(defs, e, n, calls);
    case IfThen(cond, thn) =>
      ShallowExprPeak(defs, cond, n, calls);
      AllShallowPeak(defs, thn, n, calls);
    case IfElse(cond, thn, els) =>
      ShallowExprPeak(defs, cond, n, calls);
      AllShallowPeak(defs, thn, n, calls);
      AllShallowPeak(defs, els, n, calls);
    case While(cond, body) =>
      ShallowExprPeak(defs, cond, n, calls);
      AllShallowPeak(defs, body, n, calls);
    case ReturnVoid =>
    case Return(res) => ShallowExprPeak(defs, res, n, calls);
  }

  lemma {:induction false} AllShallowPeak(defs: map<string, FunctionDef>, ss: seq<Stmt>, n: nat, calls: nat)
    requires AllShallow(ss, n)
    ensures PeakBody(defs, ss, calls) <= 6 * n + 4
    decreases ss, 0
  {
    hide PeakStmt, Shallow;
    if ss != [] {
      ShallowPeak(defs, ss[0], n, calls);
      AllShallowPeak(defs, ss[1..], n, calls);
    }
  }
}
