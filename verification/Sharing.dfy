/** Variables of different functions share slots: what a call can do to its caller's variables, and what it cannot. */
module Sharing {
  import opened Words
  import opened Ast
  import opened Tables
  import opened Codegen
  import opened Semantics
  import opened Sema
  import opened Calls
  import opened Opcodes
  import CallRules
  import Compiler
  import Linking
  import M = Machine

  // ---- Slots that calls leave alone ----

  /** Calls of functions in fs with at most k arguments. */
  function Within(fs: set<string>, k: nat): Judge {
    (f: string, n: nat) => f in fs && n <= k
  }

  /** A set of functions that call only each other, none with more than k locals. */
  ghost predicate Small<W>(c: Ctx<W>, fs: set<string>, k: nat) {
    forall f :: f in fs && f in c.defs && f in c.funs ==>
      |c.funs[f].locals| <= k && StmtsCalls(c.defs[f].body, Within(fs, k))
  }

  ghost predicate SameFrom(before: seq<int32>, after: seq<int32>, k: nat) {
    |before| == |after| && forall i :: k <= i < |before| ==> after[i] == before[i]
  }

  ghost predicate Leaves<W, T>(o: Out<W, T>, before: seq<int32>, k: nat) {
    !o.Wrong? ==> SameFrom(before, o.st.locals, k)
  }

  lemma {:induction false} PassLeaves<W>(vs: seq<int32>, st: Store<W>, b: nat, k: nat)
    requires |vs| <= k && |vs| <= |st.locals|
    ensures Leaves(Pass(vs, st, b), st.locals, k)
    decreases |vs|
  {
    if vs != [] && b >= 1 {
      var last := |vs| - 1;
      PassLeaves(vs[..last], st.(locals := st.locals[last := vs[last]]), b - 1, k);
    }
  }

  /** Evaluating an expression that calls only such functions changes no slot from k on. */
  lemma {:induction false} EvalLeaves<W>(c: Ctx<W>, names: seq<string>, e: Expr, st: Store<W>, h: nat, d: nat, b: nat,
                                         fs: set<string>, k: nat)
    requires |st.locals| == M.MAX_LOCALS && Small(c, fs, k) && ExprCalls(e, Within(fs, k))
    ensures Leaves(Eval(c, names, e, st, h, d, b), st.locals, k)
    decreases b, e, 1
  {
    hide BuiltinOf, SlotOf, ValueIntrinsic, Small, Within, BinaryMeaning;
    match e
    case Binary(op, left, right) =>
      EvalLeaves(c, names, left, st, h, d, b, fs, k);
      var o := Eval(c, names, left, st, h, d, b);
      if o.Done? {
        EvalLeaves(c, names, right, o.st, h + 1, d, o.left, fs, k);
      }
    case Unary(_, operand) => EvalLeaves(c, names, operand, st, h, d, b, fs, k);
    case Call(name, args) =>
      if BuiltinOf(name).None? && name in c.defs && name in c.funs {
        CallLeaves(c, names, e, st, h, d, b, fs, k);
      }
    case _ =>
  }

  lemma {:induction false} CallLeaves<W>(c: Ctx<W>, names: seq<string>, e: Expr, st: Store<W>, h: nat, d: nat, b: nat,
                                         fs: set<string>, k: nat)
    requires |st.locals| == M.MAX_LOCALS && Small(c, fs, k) && ExprCalls(e, Within(fs, k))
    requires e.Call? && BuiltinOf(e.callee).None? && e.callee in c.defs && e.callee in c.funs
    ensures Leaves(Eval(c, names, e, st, h, d, b), st.locals, k)
    decreases b, e, 0
  {
    hide BuiltinOf, StmtsCalls, Exec, EvalArgs, ExprsCalls;
    ArgsLeave(c, names, e.args, st, h, d, b, fs, k);
    var o := EvalArgs(c, names, e.args, st, h, d, b);
    if o.Done? && |o.value| <= M.MAX_LOCALS {
      PassLeaves(o.value, o.st, o.left, k);
      var o2 := Pass(o.value, o.st, o.left);
      if o2.Done? && o2.left >= 1 && d < M.MAX_CALL_DEPTH {
        ExecLeaves(c, c.funs[e.callee].locals, c.defs[e.callee].body, o2.st, h, d + 1, o2.left - 1, fs, k);
      }
    }
  }

  lemma {:induction false} ArgsLeave<W>(c: Ctx<W>, names: seq<string>, es: seq<Expr>, st: Store<W>, h: nat, d: nat,
                                        b: nat, fs: set<string>, k: nat)
    requires |st.locals| == M.MAX_LOCALS && Small(c, fs, k) && ExprsCalls(es, Within(fs, k))
    ensures Leaves(EvalArgs(c, names, es, st, h, d, b), st.locals, k)
    decreases b, es, 0
  {
    hide Eval, ExprCalls, Small, Within;
    if es != [] {
      EvalLeaves(c, names, es[0], st, h, d, b, fs, k);
      var o := Eval(c, names, es[0], st, h, d, b);
      if o.Done? {
        ArgsLeave(c, names, es[1..], o.st, h + 1, d, o.left, fs, k);
      }
    }
  }

  lemma {:induction false} StmtLeaves<W>(c: Ctx<W>, names: seq<string>, s: Stmt, st: Store<W>, h: nat, d: nat, b: nat,
                                         fs: set<string>, k: nat)
    requires |st.locals| == M.MAX_LOCALS && Small(c, fs, k) && StmtCalls(s, Within(fs, k)) && |names| <= k
    ensures Leaves(ExecStmt(c, names, s, st, h, d, b), st.locals, k)
    decreases b, s, 1
  {
    hide Eval, Exec, ExprCalls, StmtsCalls, Small, Within, ActionOf;
    match s
    case VarDecl(_, init) => EvalLeaves(c, names, init, st, h, d, b, fs, k);
    case Assign(_, val) => EvalLeaves(c, names, val, st, h, d, b, fs, k);
    case ExprStmt(e) => EvalLeaves(c, names, e, st, h, d, b, fs, k);
    case IfThen(cond, thn) =>
      EvalLeaves(c, names, cond, st, h, d, b, fs, k);
      var o := Eval(c, names, cond, st, h, d, b);
      if o.Done? && o.left >= 1 {
        ExecLeaves(c, names, thn, o.st, h, d, o.left - 1, fs, k);
      }
    case IfElse(cond, thn, els) =>
      EvalLeaves(c, names, cond, st, h, d, b, fs, k);
      var o := Eval(c, names, cond, st, h, d, b);
      if o.Done? && o.left >= 1 {
        ExecLeaves(c, names, thn, o.st, h, d, o.left - 1, fs, k);
        ExecLeaves(c, names, els, o.st, h, d, o.left - 1, fs, k);
      }
    case While(_, _) => WhileLeaves(c, names, s, st, h, d, b, fs, k);
    case ReturnVoid =>
    case Return(res) => EvalLeaves(c, names, res, st, h, d, b, fs, k);
  }

  lemma {:induction false} WhileLeaves<W>(c: Ctx<W>, names: seq<string>, s: Stmt, st: Store<W>, h: nat, d: nat, b: nat,
                                          fs: set<string>, k: nat)
    requires |st.locals| == M.MAX_LOCALS && Small(c, fs, k) && StmtCalls(s, Within(fs, k)) && |names| <= k && s.While?
    ensures Leaves(ExecStmt(c, names, s, st, h, d, b), st.locals, k)
    decreases b, s, 0
  {
    hide Eval, Exec, ExprCalls, StmtsCalls, Small, Within;
    EvalLeaves(c, names, s.cond, st, h, d, b, fs, k);
    var o := Eval(c, names, s.cond, st, h, d, b);
    if o.Done? && o.left >= 1 && o.value != 0 {
      ExecLeaves(c, names, s.body, o.st, h, d, o.left - 1, fs, k);
      var o2 := Exec(c, names, s.body, o.st, h, d, o.left - 1);
      if o2.Done? && o2.value == Next && o2.left >= 1 {
        StmtLeaves(c, names, s, o2.st, h, d, o2.left - 1, fs, k);
      }
    }
  }

  lemma {:induction false} ExecLeaves<W>(c: Ctx<W>, names: seq<string>, ss: seq<Stmt>, st: Store<W>, h: nat, d: nat,
                                         b: nat, fs: set<string>, k: nat)
    requires |st.locals| == M.MAX_LOCALS && Small(c, fs, k) && StmtsCalls(ss, Within(fs, k)) && |names| <= k
    ensures Leaves(Exec(c, names, ss, st, h, d, b), st.locals, k)
    decreases b, ss, 0
  {
    hide ExecStmt, StmtCalls, Small, Within;
    if ss != [] {
      StmtLeaves(c, names, ss[0], st, h, d, b, fs, k);
      var o := ExecStmt(c, names, ss[0], st, h, d, b);
      if o.Done? && o.value == Next {
        ExecLeaves(c, names, ss[1..], o.st, h, d, o.left, fs, k);
      }
    }
  }

  /** So a call leaves all variables alone when neither its callee nor any function that this reaches has a local. */
  lemma CallLeavesAll<W>(c: Ctx<W>, names: seq<string>, e: Expr, st: Store<W>, h: nat, d: nat, b: nat, fs: set<string>)
    requires |st.locals| == M.MAX_LOCALS && Small(c, fs, 0) && ExprCalls(e, Within(fs, 0))
    ensures var o := Eval(c, names, e, st, h, d, b); !o.Wrong? ==> o.st.locals == st.locals
  {
    hide Eval, ExprCalls, Small, Within;
    EvalLeaves(c, names, e, st, h, d, b, fs, 0);
  }

  // ---- A program whose call changes its caller's variable ----

  function Echo(): FunctionDef {
    FunctionDef("f", ["x"], [Return(Var("x"))])
  }

  function CallEcho(): Expr {
    Call("f", [IntLit(5)])
  }

  function Caller(): FunctionDef {
    FunctionDef("main", [], [VarDecl("a", IntLit(1)), VarDecl("b", CallEcho())])
  }

  /** fn f(x) { return x; } fn main() { let a = 1; let b = f(5); } */
  function Careless(): Program {
    Program([Echo(), Caller()])
  }

  function CarelessInfo(): map<string, FunInfo> {
    map["f" := FunInfo(1, ["x"])]["main" := FunInfo(0, ["a", "b"])]
  }

  lemma CarelessAnalyzes()
    ensures Analyze(Careless()) == Ok(CarelessInfo())
  {
    hide Analyze;
    CallRules.NotBuiltin();
    var arities: map<string, nat> := map["f" := 1]["main" := 0];
    assert |Echo().name| != |Caller().name|;
    assert ["x"][1..] == [] && Echo().body[1..] == [] && [] + ["x"] == ["x"];
    assert AllocLocals([], ["x"]) == ["x"];
    assert CheckExpr(Var("x"), ["x"], arities) == Ok(["x"]);
    assert CheckStmt(Echo().body[0], ["x"], arities) == Ok(["x"]);
    assert CheckStmts([], ["x"], arities) == Ok(["x"]);
    assert FunctionLocals(Echo(), arities) == Ok(["x"]);
    CallerAnalyzes(arities);
    CallRules.TwoFunctions(Echo(), Caller(), ["x"], ["a", "b"]);
  }

  lemma CallerAnalyzes(arities: map<string, nat>)
    requires arities == map["f" := 1]["main" := 0]
    ensures FunctionLocals(Caller(), arities) == Ok(["a", "b"])
  {
    CallRules.NotBuiltin();
    var body := Caller().body;
    assert body[1..] == [VarDecl("b", CallEcho())] && body[1..][1..] == [];
    assert [IntLit(5)][1..] == [];
    assert CheckExprs([], ["a"], arities) == Ok(["a"]);
    assert CheckExpr(CallEcho(), ["a"], arities) == Ok(["a"]);
    assert "b"[0] != "a"[0] && ["a"] + ["b"] == ["a", "b"];
    var none: seq<string> := [];
    assert CheckExpr(IntLit(1), none, arities) == Ok(none) && none + ["a"] == ["a"];
    assert CheckStmt(body[0], none, arities) == Ok(["a"]);
    assert CheckStmt(body[1], ["a"], arities) == Ok(["a", "b"]);
    assert CheckStmts([], ["a", "b"], arities) == Ok(["a", "b"]);
    assert CheckStmts(body[1..], ["a"], arities) == Ok(["a", "b"]);
    assert AllocLocals([], []) == [];
  }

  lemma CarelessRuns<W>(c: Ctx<W>, st: Store<W>, b: nat)
    requires |st.locals| == M.MAX_LOCALS && b >= 11
    requires c.defs == map["f" := Echo()]["main" := Caller()] && c.funs == CarelessInfo()
    ensures Tick(c, st, b) == Done(None, st.(locals := st.locals[0 := 5][1 := 5]), b - 11)
  {
    var names := ["a", "b"];
    SlotsOfCareless();
    var body := Caller().body;
    assert body[1..] == [VarDecl("b", CallEcho())] && body[1..][1..] == [];
    var st1 := st.(locals := st.locals[0 := 1]);
    assert Eval(c, names, IntLit(1), st, 0, 1, b - 1) == Done(1, st, b - 2);
    assert ExecStmt(c, names, body[0], st, 0, 1, b - 1) == Done(Next, st1, b - 3);
    EchoEvaluates(c, names, st1, b - 3);
    var st2 := st1.(locals := st1.locals[0 := 5]);
    var st3 := st2.(locals := st2.locals[1 := 5]);
    assert ExecStmt(c, names, body[1], st1, 0, 1, b - 3) == Done(Next, st3, b - 9);
    assert Exec(c, names, [], st3, 0, 1, b - 9) == Done(Next, st3, b - 9);
    assert Exec(c, names, body[1..], st1, 0, 1, b - 3) == Done(Next, st3, b - 9);
    assert Exec(c, names, body, st, 0, 1, b - 1) == Done(Next, st3, b - 9);
    assert st3.locals == st.locals[0 := 5][1 := 5];
  }

  lemma SlotsOfCareless()
    ensures SlotOf(["a", "b"], "a") == Some(0) && SlotOf(["a", "b"], "b") == Some(1) && SlotOf(["x"], "x") == Some(0)
  {
    var names := ["a", "b"];
    assert names[1..] == ["b"] && "b"[0] != "a"[0];
  }

  /** f(5) passes 5 in slot 0, whatever variable of the caller lives there. */
  lemma EchoEvaluates<W>(c: Ctx<W>, names: seq<string>, st: Store<W>, b: nat)
    requires |st.locals| == M.MAX_LOCALS && b >= 5
    requires c.defs == map["f" := Echo()]["main" := Caller()] && c.funs == CarelessInfo()
    ensures Eval(c, names, CallEcho(), st, 0, 1, b) == Done(5, st.(locals := st.locals[0 := 5]), b - 5)
  {
    CallRules.NotBuiltin();
    SlotsOfCareless();
    var five: seq<Expr> := [IntLit(5)];
    assert five[1..] == [];
    assert Eval(c, names, IntLit(5), st, 0, 1, b) == Done(5, st, b - 1);
    assert EvalArgs(c, names, [], st, 1, 1, b - 1) == Done([], st, b - 1);
    var none: seq<int32> := [];
    assert [5 as int32] + none == [5];
    assert EvalArgs(c, names, five, st, 0, 1, b) == Done([5 as int32] + none, st, b - 1);
    var st1 := st.(locals := st.locals[0 := 5]);
    assert [5 as int32][..0] == [];
    assert Pass([5], st, b - 1) == Pass([], st1, b - 2) == Done((), st1, b - 2);
    var body := Echo().body;
    assert Eval(c, ["x"], Var("x"), st1, 0, 2, b - 3) == Done(5, st1, b - 4);
    assert ExecStmt(c, ["x"], body[0], st1, 0, 2, b - 3) == Done(Leave(Some(5)), st1, b - 5);
    assert Exec(c, ["x"], body, st1, 0, 2, b - 3) == Done(Leave(Some(5)), st1, b - 5);
    assert Enter(c, CallEcho(), st1, 0, 1, b - 2) == Done(5, st1, b - 5);
  }

  lemma CarelessGenerates(addrs: map<string, nat>)
    requires "f" in addrs && addrs["f"] == 4
    ensures var g := GenFunction(Echo(), CarelessInfo(), addrs); g.Ok? && |g.value| == 4
    ensures var g := GenFunction(Caller(), CarelessInfo(), addrs); g.Ok? && |g.value| == 20
  {
    CallRules.NotBuiltin();
    SlotsOfCareless();
    var e1, e2 := Env(["x"], CarelessInfo(), addrs), Env(["a", "b"], CarelessInfo(), addrs);
    var body := Caller().body;
    assert Echo().body[1..] == [] && body[1..] == [VarDecl("b", CallEcho())] && body[1..][1..] == [];
    assert [IntLit(5)][1..] == [];
    assert GenExpr(Var("x"), e1) == Ok([LOAD_LOCAL, 0]);
    assert GenStmt(Echo().body[0], e1) == Ok([LOAD_LOCAL, 0] + [RETURN]);
    assert GenStmts([], e1) == Ok([]) && GenStmts([], e2) == Ok([]);
    assert GenStmts(Echo().body, e1) == Ok([LOAD_LOCAL, 0] + [RETURN] + []);
    assert GenExprs([IntLit(5)], e2).Ok? && |GenExprs([IntLit(5)], e2).value| == 5;
    assert StoreArgs(["x"], 0) == Ok([]) && StoreArgs(["x"], 1).Ok? && |StoreArgs(["x"], 1).value| == 2;
    assert CallCode("f", 1, e2).Ok? && |CallCode("f", 1, e2).value| == 5;
    assert GenExpr(CallEcho(), e2).Ok? && |GenExpr(CallEcho(), e2).value| == 10;
    assert GenStmt(body[0], e2).Ok? && |GenStmt(body[0], e2).value| == 7;
    assert GenStmt(body[1], e2).Ok? && |GenStmt(body[1], e2).value| == 12;
    assert GenStmts(body[1..], e2).Ok? && |GenStmts(body[1..], e2).value| == 12;
  }

  lemma CarelessCompiles()
    ensures Compiler.Compiles(Careless()) && Analyze(Careless()).value == CarelessInfo()
  {
    hide Analyze, GenFunction;
    CarelessAnalyzes();
    var near: map<string, nat> := map["f" := 4];
    CarelessGenerates(near);
    CarelessGenerates(near["main" := 8]);
    var both := Careless().functions;
    assert both[1..] == [Caller()] && both[1..][1..] == [];
    assert GenFunctions([], CarelessInfo(), near["main" := 8], 28).Ok?;
    assert GenFunctions(both[1..], CarelessInfo(), near, 8).Ok?;
    assert GenFunctions(both, CarelessInfo(), map[], 4).Ok?;
    assert IsLocalCount(CarelessInfo(), LocalCount(CarelessInfo()));
  }

  lemma CarelessInScope<W(!new)>(h: M.Handler<W>)
    requires M.WellBehaved(h)
    ensures Compiler.InScope(Careless(), h)
    ensures var c := Compiler.Meaning(Careless(), h);
            c.defs == map["f" := Echo()]["main" := Caller()] && c.funs == CarelessInfo()
  {
    hide Analyze, Generate, M.WellBehaved;
    CarelessCompiles();
    CallRules.NotBuiltin();
    var both := Careless().functions;
    assert both[1..] == [Caller()] && both[1..][1..] == [];
    assert Linking.DefsOf(both[1..]) == map["main" := Caller()];
    var c := Compiler.Meaning(Careless(), h);
    assert c.defs == map["f" := Echo()]["main" := Caller()];
    var body := Caller().body;
    assert Echo().body[1..] == [] && body[1..] == [VarDecl("b", CallEcho())] && body[1..][1..] == [];
    assert [IntLit(5)][1..] == [];
    assert ReturnsValue(Echo().body);
    assert ValueExprs(c, []) && ValueExprs(c, [IntLit(5)]);
    assert ValueExpr(c, CallEcho()) && ValueExpr(c, IntLit(1)) && ValueExpr(c, Var("x"));
    assert AllInFragment(c, []) && AllInFragment(c, body[1..]);
    assert AllInFragment(c, Caller().body) && AllInFragment(c, Echo().body);
  }

  /**
   Compiled and run, in every world, from every store and with every budget of at least 11: main sets a to 1, and then
   f(5) sets it to 5.
   */
  lemma CallChangesCaller<W(!new)>(h: M.Handler<W>, st: Store<W>, b: nat)
    requires M.WellBehaved(h) && |st.locals| == M.MAX_LOCALS && b >= 11
    ensures Compiler.InScope(Careless(), h) && SlotOf(CarelessInfo()["main"].locals, "a") == Some(0)
    ensures var r := Compiler.RunTick(Careless(), h, st, b);
            r.status == M.Halted && r.state.locals == st.locals[0 := 5][1 := 5]
  {
    hide M.Run, Analyze, Generate, M.WellBehaved, Compiler.InScope, Tick;
    CarelessInScope(h);
    CarelessCompiles();
    SlotsOfCareless();
    CarelessRuns(Compiler.Meaning(Careless(), h), st, b);
    Compiler.TickCorrect(Careless(), h, st, b);
  }
}
