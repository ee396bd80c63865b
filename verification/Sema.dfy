/** Semantic analysis as a function: arity checks and slot allocation in order of first occurrence. */
module Sema {
  import opened Words
  import opened Ast
  import opened Tables

  datatype SemaError =
    | DuplicateFunction(name: string)
    | BuiltinArity(name: string)
    | FunctionArity(name: string)
    | UndefinedFunction(name: string)

  type Names = Result<seq<string>, SemaError>

  function AllocLocal(names: seq<string>, name: string): seq<string> {
    if name in names then names else names + [name]
  }

  function AllocLocals(names: seq<string>, params: seq<string>): seq<string>
    decreases params
  {
    if params == [] then names else AllocLocals(AllocLocal(names, params[0]), params[1..])
  }

  /** The error of a call with a wrong callee or argument count. */
  function CheckCallee(name: string, argCount: nat, arities: map<string, nat>): Option<SemaError> {
    match BuiltinOf(name)
    case Some(b) => if argCount != Arity(b) then Some(BuiltinArity(name)) else None
    case None =>
      if name !in arities then Some(UndefinedFunction(name))
      else if argCount != arities[name] then Some(FunctionArity(name))
      else None
  }

  function CheckExpr(e: Expr, names: seq<string>, arities: map<string, nat>): Names
    decreases e, 1
  {
    match e
    case IntLit(_) => Ok(names)
    case BoolLit(_) => Ok(names)
    case Var(name) => Ok(AllocLocal(names, name))
    case Binary(_, left, right) =>
      var n1 :- CheckExpr(left, names, arities);
      CheckExpr(right, n1, arities)
    case Unary(_, operand) => CheckExpr(operand, names, arities)
    case Call(name, args) =>
      match CheckCallee(name, |args|, arities)
      case Some(error) => Err(error)
      case None => CheckExprs(args, names, arities)
  }

  function CheckExprs(es: seq<Expr>, names: seq<string>, arities: map<string, nat>): Names
    decreases es, 0
  {
    if es == [] then Ok(names)
    else
      var n1 :- CheckExpr(es[0], names, arities);
      CheckExprs(es[1..], n1, arities)
  }

  function CheckStmt(s: Stmt, names: seq<string>, arities: map<string, nat>): Names
    decreases s, 1
  {
    match s
    case VarDecl(name, init) =>
      var n1 :- CheckExpr(init, names, arities);
      Ok(AllocLocal(n1, name))
    case Assign(name, val) =>
      var n1 :- CheckExpr(val, names, arities);
      Ok(AllocLocal(n1, name))
    case ExprStmt(e) => CheckExpr(e, names, arities)
    case IfThen(cond, thn) =>
      var n1 :- CheckExpr(cond, names, arities);
      CheckStmts(thn, n1, arities)
    case IfElse(cond, thn, els) =>
      var n1 :- CheckExpr(cond, names, arities);
      var n2 :- CheckStmts(thn, n1, arities);
      CheckStmts(els, n2, arities)
    case While(cond, body) =>
      var n1 :- CheckExpr(cond, names, arities);
      CheckStmts(body, n1, arities)
    case ReturnVoid => Ok(names)
    case Return(res) => CheckExpr(res, names, arities)
  }

  function CheckStmts(ss: seq<Stmt>, names: seq<string>, arities: map<string, nat>): Names
    decreases ss, 0
  {
    if ss == [] then Ok(names)
    else
      var n1 :- CheckStmt(ss[0], names, arities);
      CheckStmts(ss[1..], n1, arities)
  }

  /** First pass: the arity of every function; the error names the first duplicate. */
  function Register(fs: seq<FunctionDef>, arities: map<string, nat>): Result<map<string, nat>, SemaError> {
    if fs == [] then Ok(arities)
    else if fs[0].name in arities then Err(DuplicateFunction(fs[0].name))
    else Register(fs[1..], arities[fs[0].name := |fs[0].params|])
  }

  /** The locals of one function: its parameters, then the other names as they occur. */
  function FunctionLocals(f: FunctionDef, arities: map<string, nat>): Names {
    CheckStmts(f.body, AllocLocals([], f.params), arities)
  }

  type Table = Result<map<string, FunInfo>, SemaError>

  /** Second pass. */
  function CheckFunctions(fs: seq<FunctionDef>, arities: map<string, nat>, done: map<string, FunInfo>): Table {
    if fs == [] then Ok(done)
    else
      var names :- FunctionLocals(fs[0], arities);
      CheckFunctions(fs[1..], arities, done[fs[0].name := FunInfo(|fs[0].params|, names)])
  }

  function Analyze(p: Program): Table {
    var arities :- Register(p.functions, map[]);
    CheckFunctions(p.functions, arities, map[])
  }
}
