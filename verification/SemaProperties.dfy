/** What code generation may rely on after semantic analysis. */
module SemaProperties {
  import opened Words
  import opened Ast
  import opened Tables
  import opened Codegen
  import opened Sema
  import opened Linking
  import opened Calls

  // ---- Allocation only ever appends new names ----

  lemma AllocKeeps(names: seq<string>, name: string)
    requires Distinct(names)
    ensures Distinct(AllocLocal(names, name)) && names <= AllocLocal(names, name) && name in AllocLocal(names, name)
  {
    if name !in names {
      assert AllocLocal(names, name)[|names|] == name;
    }
  }

  lemma {:induction false} AllocLocalsKeeps(names: seq<string>, params: seq<string>)
    requires Distinct(names)
    ensures Distinct(AllocLocals(names, params))
    decreases params
  {
    hide Distinct, AllocLocal;
    if params != [] {
      AllocKeeps(names, params[0]);
      AllocLocalsKeeps(AllocLocal(names, params[0]), params[1..]);
    }
  }

  /** Distinct parameters are allocated in order. */
  lemma {:induction false} AllocParams(names: seq<string>, params: seq<string>)
    requires Distinct(names + params)
    ensures AllocLocals(names, params) == names + params
    decreases params
  {
    hide Distinct;
    if params == [] {
      assert names + params == names;
    } else {
      NextIsNew(names, params);
      assert (names + [params[0]]) + params[1..] == names + params;
      AllocParams(names + [params[0]], params[1..]);
    }
  }

  lemma NextIsNew(names: seq<string>, params: seq<string>)
    requires params != [] && Distinct(names + params)
    ensures params[0] !in names
  {
    assert (names + params)[|names|] == params[0];
    forall i | 0 <= i < |names|
      ensures names[i] != params[0]
    {
      assert (names + params)[i] == names[i];
    }
  }

  lemma {:induction false} CheckExprKeeps(e: Expr, names: seq<string>, arities: map<string, nat>)
    requires Distinct(names) && CheckExpr(e, names, arities).Ok?
    ensures var r := CheckExpr(e, names, arities).value; Distinct(r) && names <= r
    decreases e, 1
  {
    hide Distinct, CheckCallee;
    match e
    case Var(name) => AllocKeeps(names, name);
    case Binary(_, left, right) =>
      CheckExprKeeps(left, names, arities);
      CheckExprKeeps(right, CheckExpr(left, names, arities).value, arities);
    case Unary(_, operand) => CheckExprKeeps(operand, names, arities);
    case Call(_, args) => CheckExprsKeeps(args, names, arities);
    case _ =>
  }

  lemma {:induction false} CheckExprsKeeps(es: seq<Expr>, names: seq<string>, arities: map<string, nat>)
    requires Distinct(names) && CheckExprs(es, names, arities).Ok?
    ensures var r := CheckExprs(es, names, arities).value; Distinct(r) && names <= r
    decreases es, 0
  {
    hide Distinct;
    if es != [] {
      CheckExprKeeps(es[0], names, arities);
      CheckExprsKeeps(es[1..], CheckExpr(es[0], names, arities).value, arities);
    }
  }

  lemma {:induction false} CheckStmtKeeps(s: Stmt, names: seq<string>, arities: map<string, nat>)
    requires Distinct(names) && CheckStmt(s, names, arities).Ok?
    ensures var r := CheckStmt(s, names, arities).value; Distinct(r) && names <= r
    decreases s, 1
  {
    hide Distinct, CheckExpr, AllocLocal;
    match s
    case VarDecl(name, init) =>
      CheckExprKeeps(init, names, arities);
      AllocKeeps(CheckExpr(init, names, arities).value, name);
    case Assign(name, val) =>
      CheckExprKeeps(val, names, arities);
      AllocKeeps(CheckExpr(val, names, arities).value, name);
    case ExprStmt(e) => CheckExprKeeps(e, names, arities);
    case IfThen(cond, thn) =>
      CheckExprKeeps(cond, names, arities);
      CheckStmtsKeeps(thn, CheckExpr(cond, names, arities).value, arities);
    case IfElse(cond, thn, els) =>
      CheckExprKeeps(cond, names, arities);
      var n1 := CheckExpr(cond, names, arities).value;
      CheckStmtsKeeps(thn, n1, arities);
      CheckStmtsKeeps(els, CheckStmts(thn, n1, arities).value, arities);
    case While(cond, body) =>
      CheckExprKeeps(cond, names, arities);
      CheckStmtsKeeps(body, CheckExpr(cond, names, arities).value, arities);
    case ReturnVoid =>
    case Return(res) => CheckExprKeeps(res, names, arities);
  }

  lemma {:induction false} CheckStmtsKeeps(ss: seq<Stmt>, names: seq<string>, arities: map<string, nat>)
    requires Distinct(names) && CheckStmts(ss, names, arities).Ok?
    ensures var r := CheckStmts(ss, names, arities).value; Distinct(r) && names <= r
    decreases ss, 0
  {
    hide Distinct, CheckStmt;
    if ss != [] {
      CheckStmtKeeps(ss[0], names, arities);
      CheckStmtsKeeps(ss[1..], CheckStmt(ss[0], names, arities).value, arities);
    }
  }

  // ---- Code generation finds every name ----

  /** A failure that is not a missing name, nor, if so wanted, a call of a function that is not yet placed. */
  predicate NotMissing(c: Code, placed: bool) {
    c.Err? ==> !c.error.UnknownName? && !c.error.MissingParameter? && !(placed && c.error.ForwardCall?)
  }

  /** Fine calls are not missing anything. */
  ghost predicate Covers(fine: Judge, env: Env, placed: bool) {
    forall f, k :: fine(f, k) ==> NotMissing(CallCode(f, k, env), placed)
  }

  lemma PrefixIn(a: seq<string>, b: seq<string>, name: string)
    requires a <= b && name in a
    ensures name in b
  {
    var i :| 0 <= i < |a| && a[i] == name;
    assert b[i] == name;
  }

  /**
   The stores of a call find their slots if and only if the callee has at least as many locals as arguments are
   passed.
   */
  lemma {:induction false} StoreArgsFindsSlots(locals: seq<string>, n: nat)
    ensures StoreArgs(locals, n).Ok? <==> n <= |locals|
    ensures n > |locals| ==> StoreArgs(locals, n) == Err(MissingParameter)
  {
    if 0 < n <= |locals| {
      assert locals[n - 1] in locals;
      StoreArgsFindsSlots(locals, n - 1);
    }
  }

  predicate CallArgsGenerated(e: Expr) {
    e.Call? && match BuiltinOf(e.callee)
               case Some(b) => SugarCode(b).None? && b != MyTrait
               case None => true
  }

  lemma {:induction false} ExprFindsNames(e: Expr, names: seq<string>, arities: map<string, nat>, env: Env,
                                          fine: Judge, placed: bool)
    requires Distinct(names) && CheckExpr(e, names, arities).Ok? && ExprCalls(e, fine) && Covers(fine, env, placed)
    requires CheckExpr(e, names, arities).value <= env.locals
    ensures NotMissing(GenExpr(e, env), placed)
    decreases e, 1
  {
    hide BuiltinOf, Distinct, CallCode;
    match e
    case IntLit(_) =>
    case BoolLit(_) =>
    case Var(name) =>
      AllocKeeps(names, name);
      PrefixIn(AllocLocal(names, name), env.locals, name);
    case Binary(_, left, right) =>
      var n1 := CheckExpr(left, names, arities).value;
      CheckExprKeeps(left, names, arities);
      CheckExprKeeps(right, n1, arities);
      ExprFindsNames(left, names, arities, env, fine, placed);
      ExprFindsNames(right, n1, arities, env, fine, placed);
    case Unary(_, operand) => ExprFindsNames(operand, names, arities, env, fine, placed);
    case Call(name, args) =>
      if CallArgsGenerated(e) {
        ExprsFindNames(args, names, arities, env, fine, placed);
      }
  }

  lemma {:induction false} ExprsFindNames(es: seq<Expr>, names: seq<string>, arities: map<string, nat>, env: Env,
                                          fine: Judge, placed: bool)
    requires Distinct(names) && CheckExprs(es, names, arities).Ok? && ExprsCalls(es, fine) && Covers(fine, env, placed)
    requires CheckExprs(es, names, arities).value <= env.locals
    ensures NotMissing(GenExprs(es, env), placed)
    decreases es, 0
  {
    hide Distinct, Covers;
    if es != [] {
      var n1 := CheckExpr(es[0], names, arities).value;
      CheckExprKeeps(es[0], names, arities);
      CheckExprsKeeps(es[1..], n1, arities);
      ExprFindsNames(es[0], names, arities, env, fine, placed);
      ExprsFindNames(es[1..], n1, arities, env, fine, placed);
    }
  }

  lemma {:induction false} StmtFindsNames(s: Stmt, names: seq<string>, arities: map<string, nat>, env: Env,
                                          fine: Judge, placed: bool)
    requires Distinct(names) && CheckStmt(s, names, arities).Ok? && StmtCalls(s, fine) && Covers(fine, env, placed)
    requires CheckStmt(s, names, arities).value <= env.locals
    ensures NotMissing(GenStmt(s, env), placed)
    decreases s, 1
  {
    hide Distinct, Covers, CheckExpr, GenExpr, I16Bytes, ExprPushes, AllocLocal, ExprCalls;
    match s
    case VarDecl(name, init) =>
      CheckExprKeeps(init, names, arities);
      var n1 := CheckExpr(init, names, arities).value;
      AllocKeeps(n1, name);
      ExprFindsNames(init, names, arities, env, fine, placed);
      PrefixIn(AllocLocal(n1, name), env.locals, name);
    case Assign(name, val) =>
      CheckExprKeeps(val, names, arities);
      var n1 := CheckExpr(val, names, arities).value;
      AllocKeeps(n1, name);
      ExprFindsNames(val, names, arities, env, fine, placed);
      PrefixIn(AllocLocal(n1, name), env.locals, name);
    case ExprStmt(e) => ExprFindsNames(e, names, arities, env, fine, placed);
    case IfThen(cond, thn) =>
      CheckExprKeeps(cond, names, arities);
      var n1 := CheckExpr(cond, names, arities).value;
      CheckStmtsKeeps(thn, n1, arities);
      ExprFindsNames(cond, names, arities, env, fine, placed);
      StmtsFindNames(thn, n1, arities, env, fine, placed);
    case IfElse(cond, thn, els) =>
      CheckExprKeeps(cond, names, arities);
      var n1 := CheckExpr(cond, names, arities).value;
      CheckStmtsKeeps(thn, n1, arities);
      var n2 := CheckStmts(thn, n1, arities).value;
      CheckStmtsKeeps(els, n2, arities);
      ExprFindsNames(cond, names, arities, env, fine, placed);
      StmtsFindNames(thn, n1, arities, env, fine, placed);
      StmtsFindNames(els, n2, arities, env, fine, placed);
    case While(cond, body) =>
      CheckExprKeeps(cond, names, arities);
      var n1 := CheckExpr(cond, names, arities).value;
      CheckStmtsKeeps(body, n1, arities);
      ExprFindsNames(cond, names, arities, env, fine, placed);
      StmtsFindNames(body, n1, arities, env, fine, placed);
    case ReturnVoid =>
    case Return(res) => ExprFindsNames(res, names, arities, env, fine, placed);
  }

  lemma {:induction false} StmtsFindNames(ss: seq<Stmt>, names: seq<string>, arities: map<string, nat>, env: Env,
                                          fine: Judge, placed: bool)
    requires Distinct(names) && CheckStmts(ss, names, arities).Ok? && StmtsCalls(ss, fine) && Covers(fine, env, placed)
    requires CheckStmts(ss, names, arities).value <= env.locals
    ensures NotMissing(GenStmts(ss, env), placed)
    decreases ss, 0
  {
    hide Distinct, Covers, CheckStmt, GenStmt, StmtCalls;
    if ss != [] {
      var n1 := CheckStmt(ss[0], names, arities).value;
      CheckStmtKeeps(ss[0], names, arities);
      CheckStmtsKeeps(ss[1..], n1, arities);
      StmtFindsNames(ss[0], names, arities, env, fine, placed);
      StmtsFindNames(ss[1..], n1, arities, env, fine, placed);
    }
  }

  // ---- Whole programs ----

  ghost predicate Named(fs: seq<FunctionDef>, f: string) {
    exists i :: 0 <= i < |fs| && fs[i].name == f
  }

  lemma NamedMore(fs: seq<FunctionDef>, f: string)
    requires fs != []
    ensures Named(fs, f) <==> f == fs[0].name || Named(fs[1..], f)
  {
    if Named(fs[1..], f) {
      var j :| 0 <= j < |fs[1..]| && fs[1..][j].name == f;
      assert fs[j + 1].name == f;
    }
    if f == fs[0].name {
      assert fs[0].name == f;
    }
    if Named(fs, f) && f != fs[0].name {
      var i :| 0 <= i < |fs| && fs[i].name == f;
      assert fs[1..][i - 1].name == f;
    }
  }

  lemma {:induction false} RegisterGives(fs: seq<FunctionDef>, arities: map<string, nat>)
    requires Register(fs, arities).Ok?
    ensures DistinctFunctions(fs)
    ensures var r := Register(fs, arities).value;
            && (forall f :: f in arities ==> f in r && r[f] == arities[f])
            && (forall i :: 0 <= i < |fs| ==>
                  fs[i].name !in arities && fs[i].name in r && r[fs[i].name] == |fs[i].params|)
            && (forall f :: f in r ==> f in arities || Named(fs, f))
  {
    hide Named;
    if fs != [] {
      var arities' := arities[fs[0].name := |fs[0].params|];
      RegisterGives(fs[1..], arities');
      assert forall i :: 0 < i < |fs| ==> fs[i] == fs[1..][i - 1];
      forall f ensures Named(fs, f) <==> f == fs[0].name || Named(fs[1..], f) {
        NamedMore(fs, f);
      }
    }
  }

  lemma {:induction false} CheckFunctionsGives(fs: seq<FunctionDef>, arities: map<string, nat>,
                                               done: map<string, FunInfo>)
    requires DistinctFunctions(fs) && CheckFunctions(fs, arities, done).Ok?
    requires forall i :: 0 <= i < |fs| ==> fs[i].name !in done
    ensures var r := CheckFunctions(fs, arities, done).value;
            && (forall f :: f in done ==> f in r && r[f] == done[f])
            && (forall f :: f in r ==> f in done || Named(fs, f))
            && (forall i :: 0 <= i < |fs| ==>
                  FunctionLocals(fs[i], arities).Ok? && fs[i].name in r
                  && r[fs[i].name] == FunInfo(|fs[i].params|, FunctionLocals(fs[i], arities).value))
  {
    hide FunctionLocals, Named;
    if fs != [] {
      var done' := done[fs[0].name := FunInfo(|fs[0].params|, FunctionLocals(fs[0], arities).value)];
      assert forall i :: 0 < i < |fs| ==> fs[i] == fs[1..][i - 1];
      CheckFunctionsGives(fs[1..], arities, done');
      assert fs[0].name in done';
      forall f ensures Named(fs, f) <==> f == fs[0].name || Named(fs[1..], f) {
        NamedMore(fs, f);
      }
    }
  }

  /**
   After a successful analysis: function names are distinct and exactly those of the program; the locals of each
   function are distinct names, so slots and names are in bijection; distinct parameters own the first slots in order.
   */
  lemma AnalyzeGives(p: Program)
    requires Analyze(p).Ok?
    ensures DistinctFunctions(p.functions) && GoodTables(Analyze(p).value)
    ensures forall f :: f in Analyze(p).value <==> exists i :: 0 <= i < |p.functions| && p.functions[i].name == f
    ensures forall i :: 0 <= i < |p.functions| ==>
              var f := p.functions[i];
              && f.name in Analyze(p).value
              && Analyze(p).value[f.name].arity == |f.params|
              && (Distinct(f.params) ==> f.params <= Analyze(p).value[f.name].locals)
  {
    hide Distinct, FunctionLocals;
    var arities := Register(p.functions, map[]).value;
    RegisterGives(p.functions, map[]);
    CheckFunctionsGives(p.functions, arities, map[]);
    var r := Analyze(p).value;
    forall i | 0 <= i < |p.functions|
      ensures Distinct(r[p.functions[i].name].locals)
      ensures Distinct(p.functions[i].params) ==> p.functions[i].params <= r[p.functions[i].name].locals
    {
      LocalsGive(p.functions[i], arities);
    }
  }

  lemma LocalsGive(f: FunctionDef, arities: map<string, nat>)
    requires FunctionLocals(f, arities).Ok?
    ensures Distinct(FunctionLocals(f, arities).value)
    ensures Distinct(f.params) ==> f.params <= FunctionLocals(f, arities).value
  {
    AllocLocalsKeeps([], f.params);
    assert [] + f.params == f.params;
    if Distinct(f.params) {
      AllocParams([], f.params);
    }
    CheckStmtsKeeps(f.body, AllocLocals([], f.params), arities);
  }

  lemma NothingTwice()
    ensures Distinct([])
  {
  }
}
