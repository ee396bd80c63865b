/** The calls that code generation meets, and what analysis and generation say about each of them. */
module Calls {
  import opened Words
  import opened Ast
  import opened Tables
  import opened Codegen
  import opened Sema

  /** Whether a call of a function with so many arguments is fine. */
  type Judge = (string, nat) -> bool

  /** All calls of program functions that are generated for e are fine; sugar and my_trait ignore their arguments. */
  ghost predicate ExprCalls(e: Expr, fine: Judge)
    decreases e, 1
  {
    match e
    case Binary(_, left, right) => ExprCalls(left, fine) && ExprCalls(right, fine)
    case Unary(_, operand) => ExprCalls(operand, fine)
    case Call(name, args) =>
      (match BuiltinOf(name)
       case Some(b) => SugarCode(b).Some? || b == MyTrait || ExprsCalls(args, fine)
       case None => fine(name, |args|) && ExprsCalls(args, fine))
    case _ => true
  }

  ghost predicate ExprsCalls(es: seq<Expr>, fine: Judge)
    decreases es, 0
  {
    es == [] || (ExprCalls(es[0], fine) && ExprsCalls(es[1..], fine))
  }

  ghost predicate StmtCalls(s: Stmt, fine: Judge)
    decreases s, 1
  {
    match s
    case VarDecl(_, init) => ExprCalls(init, fine)
    case Assign(_, val) => ExprCalls(val, fine)
    case ExprStmt(e) => ExprCalls(e, fine)
    case IfThen(cond, thn) => ExprCalls(cond, fine) && StmtsCalls(thn, fine)
    case IfElse(cond, thn, els) => ExprCalls(cond, fine) && StmtsCalls(thn, fine) && StmtsCalls(els, fine)
    case While(cond, body) => ExprCalls(cond, fine) && StmtsCalls(body, fine)
    case ReturnVoid => true
    case Return(res) => ExprCalls(res, fine)
  }

  ghost predicate StmtsCalls(ss: seq<Stmt>, fine: Judge)
    decreases ss, 0
  {
    ss == [] || (StmtCalls(ss[0], fine) && StmtsCalls(ss[1..], fine))
  }

  // ---- What is generated has only calls with code ----

  lemma {:induction false} GeneratedExprCalls(e: Expr, env: Env, fine: Judge)
    requires GenExpr(e, env).Ok? && forall f, k :: CallCode(f, k, env).Ok? ==> fine(f, k)
    ensures ExprCalls(e, fine)
    decreases e, 1
  {
    hide BuiltinOf, CallCode;
    match e
    case Binary(_, left, right) =>
      GeneratedExprCalls(left, env, fine);
      GeneratedExprCalls(right, env, fine);
    case Unary(_, operand) => GeneratedExprCalls(operand, env, fine);
    case Call(name, args) =>
      if GenExprs(args, env).Ok? {
        GeneratedExprsCalls(args, env, fine);
      }
    case _ =>
  }

  lemma {:induction false} GeneratedExprsCalls(es: seq<Expr>, env: Env, fine: Judge)
    requires GenExprs(es, env).Ok? && forall f, k :: CallCode(f, k, env).Ok? ==> fine(f, k)
    ensures ExprsCalls(es, fine)
    decreases es, 0
  {
    hide CallCode;
    if es != [] {
      GeneratedExprCalls(es[0], env, fine);
      GeneratedExprsCalls(es[1..], env, fine);
    }
  }

  lemma {:induction false} GeneratedStmtCalls(s: Stmt, env: Env, fine: Judge)
    requires GenStmt(s, env).Ok? && forall f, k :: CallCode(f, k, env).Ok? ==> fine(f, k)
    ensures StmtCalls(s, fine)
    decreases s, 1
  {
    hide CallCode, GenExpr, ExprCalls, LocalCode, Jump;
    match s
    case VarDecl(_, init) => GeneratedExprCalls(init, env, fine);
    case Assign(_, val) => GeneratedExprCalls(val, env, fine);
    case ExprStmt(e) => GeneratedExprCalls(e, env, fine);
    case IfThen(cond, thn) =>
      GeneratedExprCalls(cond, env, fine);
      GeneratedStmtsCalls(thn, env, fine);
    case IfElse(cond, thn, els) =>
      GeneratedExprCalls(cond, env, fine);
      GeneratedStmtsCalls(thn, env, fine);
      GeneratedStmtsCalls(els, env, fine);
    case While(cond, body) =>
      GeneratedExprCalls(cond, env, fine);
      GeneratedStmtsCalls(body, env, fine);
    case ReturnVoid =>
    case Return(res) => GeneratedExprCalls(res, env, fine);
  }

  lemma {:induction false} GeneratedStmtsCalls(ss: seq<Stmt>, env: Env, fine: Judge)
    requires GenStmts(ss, env).Ok? && forall f, k :: CallCode(f, k, env).Ok? ==> fine(f, k)
    ensures StmtsCalls(ss, fine)
    decreases ss, 0
  {
    hide CallCode, GenStmt, StmtCalls;
    if ss != [] {
      GeneratedStmtCalls(ss[0], env, fine);
      GeneratedStmtsCalls(ss[1..], env, fine);
    }
  }

  // ---- What passes analysis calls registered functions with their number of arguments ----

  ghost predicate ByArity(arities: map<string, nat>, fine: Judge) {
    forall f, k :: BuiltinOf(f).None? && f in arities && k == arities[f] ==> fine(f, k)
  }

  lemma {:induction false} CheckedExprCalls(e: Expr, names: seq<string>, arities: map<string, nat>, fine: Judge)
    requires CheckExpr(e, names, arities).Ok? && ByArity(arities, fine)
    ensures ExprCalls(e, fine)
    decreases e, 1
  {
    hide BuiltinOf;
    match e
    case Binary(_, left, right) =>
      CheckedExprCalls(left, names, arities, fine);
      CheckedExprCalls(right, CheckExpr(left, names, arities).value, arities, fine);
    case Unary(_, operand) => CheckedExprCalls(operand, names, arities, fine);
    case Call(_, args) => CheckedExprsCalls(args, names, arities, fine);
    case _ =>
  }

  lemma {:induction false} CheckedExprsCalls(es: seq<Expr>, names: seq<string>, arities: map<string, nat>, fine: Judge)
    requires CheckExprs(es, names, arities).Ok? && ByArity(arities, fine)
    ensures ExprsCalls(es, fine)
    decreases es, 0
  {
    hide ByArity;
    if es != [] {
      CheckedExprCalls(es[0], names, arities, fine);
      CheckedExprsCalls(es[1..], CheckExpr(es[0], names, arities).value, arities, fine);
    }
  }

  lemma {:induction false} CheckedStmtCalls(s: Stmt, names: seq<string>, arities: map<string, nat>, fine: Judge)
    requires CheckStmt(s, names, arities).Ok? && ByArity(arities, fine)
    ensures StmtCalls(s, fine)
    decreases s, 1
  {
    hide ByArity, CheckExpr, ExprCalls;
    match s
    case VarDecl(_, init) => CheckedExprCalls(init, names, arities, fine);
    case Assign(_, val) => CheckedExprCalls(val, names, arities, fine);
    case ExprStmt(e) => CheckedExprCalls(e, names, arities, fine);
    case IfThen(cond, thn) =>
      CheckedExprCalls(cond, names, arities, fine);
      CheckedStmtsCalls(thn, CheckExpr(cond, names, arities).value, arities, fine);
    case IfElse(cond, thn, els) =>
      var n1 := CheckExpr(cond, names, arities).value;
      CheckedExprCalls(cond, names, arities, fine);
      CheckedStmtsCalls(thn, n1, arities, fine);
      CheckedStmtsCalls(els, CheckStmts(thn, n1, arities).value, arities, fine);
    case While(cond, body) =>
      CheckedExprCalls(cond, names, arities, fine);
      CheckedStmtsCalls(body, CheckExpr(cond, names, arities).value, arities, fine);
    case ReturnVoid =>
    case Return(res) => CheckedExprCalls(res, names, arities, fine);
  }

  lemma {:induction false} CheckedStmtsCalls(ss: seq<Stmt>, names: seq<string>, arities: map<string, nat>, fine: Judge)
    requires CheckStmts(ss, names, arities).Ok? && ByArity(arities, fine)
    ensures StmtsCalls(ss, fine)
    decreases ss, 0
  {
    hide ByArity, CheckStmt, StmtCalls;
    if ss != [] {
      CheckedStmtCalls(ss[0], names, arities, fine);
      CheckedStmtsCalls(ss[1..], CheckStmt(ss[0], names, arities).value, arities, fine);
    }
  }
}
