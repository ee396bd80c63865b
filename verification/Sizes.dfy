/** The size of compiled code, computed from the syntax tree, and with it exactly which programs generate. */
module Sizes {
  import opened Words
  import opened Ast
  import opened Tables
  import opened Codegen
  import opened Sema
  import opened SemaProperties
  import opened Linking
  import CallRules

  // ---- Sizes ----

  /** A perception form is its intrinsic and one byte for each value that is dropped or swapped. */
  function BuiltinSize(b: Builtin): nat {
    match b
    case PerceiveTerrain => 4
    case LookTerrain => 4
    case PerceiveFood => 3
    case LookFood => 3
    case PerceiveWater => 3
    case LookWater => 3
    case MyTrait => 2
    case _ => 1
  }

  /** Forms and traits do not evaluate arguments. */
  predicate TakesArguments(b: Builtin) {
    b in {Perceive, Look, Move, TurnLeft, TurnRight, Eat, Drink, Reproduce, MyEnergy, MyHydration}
  }

  function ExprSize(e: Expr): nat
    decreases e, 1
  {
    match e
    case IntLit(_) => 5
    case BoolLit(_) => 2
    case Var(_) => 2
    case Binary(op, left, right) => ExprSize(left) + ExprSize(right) + if op in {Ne, Le, Ge} then 2 else 1
    case Unary(_, operand) => ExprSize(operand) + 1
    case Call(name, args) =>
      match BuiltinOf(name)
      case Some(b) => (if TakesArguments(b) then ArgsSize(args) else 0) + BuiltinSize(b)
      case None => ArgsSize(args) + 2 * |args| + 3
  }

  function ArgsSize(es: seq<Expr>): nat
    decreases es, 0
  {
    if es == [] then 0 else ExprSize(es[0]) + ArgsSize(es[1..])
  }

  function StmtSize(s: Stmt): nat
    decreases s, 1
  {
    match s
    case VarDecl(_, init) => ExprSize(init) + 2
    case Assign(_, val) => ExprSize(val) + 2
    case ExprStmt(e) =>
      ExprSize(e) + if e.Call? && BuiltinOf(e.callee) in {Some(Move), Some(TurnLeft), Some(TurnRight)} then 0 else 1
    case IfThen(cond, thn) => ExprSize(cond) + 3 + BodySize(thn)
    case IfElse(cond, thn, els) => ExprSize(cond) + 3 + BodySize(thn) + 3 + BodySize(els)
    case While(cond, body) => ExprSize(cond) + 3 + BodySize(body) + 3
    case ReturnVoid => 1
    case Return(res) => ExprSize(res) + 1
  }

  function BodySize(ss: seq<Stmt>): nat
    decreases ss, 0
  {
    if ss == [] then 0 else StmtSize(ss[0]) + BodySize(ss[1..])
  }

  function FunctionSize(f: FunctionDef): nat {
    BodySize(f.body) + 1
  }

  function FunctionsSize(fs: seq<FunctionDef>): nat {
    if fs == [] then 0 else FunctionSize(fs[0]) + FunctionsSize(fs[1..])
  }

  /** Where the code of a function starts when the functions are laid out from base on. */
  function AddressOf(fs: seq<FunctionDef>, name: string, base: nat): nat {
    if fs == [] || fs[0].name == name then base else AddressOf(fs[1..], name, base + FunctionSize(fs[0]))
  }

  // ---- What can be encoded ----

  /** Literals have 32 bits, traits are given as literals. */
  predicate ExprFine(e: Expr)
    decreases e, 1
  {
    match e
    case IntLit(n) => -2147483648 <= n <= 2147483647
    case Binary(_, left, right) => ExprFine(left) && ExprFine(right)
    case Unary(_, operand) => ExprFine(operand)
    case Call(name, args) =>
      (match BuiltinOf(name)
       case Some(b) =>
         if b == MyTrait then args != [] && args[0].IntLit? else TakesArguments(b) ==> ArgsFine(args)
       case None => ArgsFine(args))
    case _ => true
  }

  predicate ArgsFine(es: seq<Expr>)
    decreases es, 0
  {
    es == [] || (ExprFine(es[0]) && ArgsFine(es[1..]))
  }

  /** A distance that a jump can go, counted from its operand. */
  predicate Reaches(distance: int) {
    -32768 <= distance <= 32767
  }

  predicate StmtFine(s: Stmt)
    decreases s, 1
  {
    match s
    case VarDecl(_, init) => ExprFine(init)
    case Assign(_, val) => ExprFine(val)
    case ExprStmt(e) => ExprFine(e)
    case IfThen(cond, thn) => ExprFine(cond) && BodyFine(thn) && Reaches(2 + BodySize(thn))
    case IfElse(cond, thn, els) =>
      ExprFine(cond) && BodyFine(thn) && BodyFine(els) && Reaches(2 + BodySize(thn) + 3) && Reaches(2 + BodySize(els))
    case While(cond, body) =>
      && ExprFine(cond) && BodyFine(body) && Reaches(2 + BodySize(body) + 3)
      && Reaches(-(ExprSize(cond) + 3 + BodySize(body) + 1))
    case ReturnVoid => true
    case Return(res) => ExprFine(res)
  }

  predicate BodyFine(ss: seq<Stmt>)
    decreases ss, 0
  {
    ss == [] || (StmtFine(ss[0]) && BodyFine(ss[1..]))
  }

  predicate AllFine(fs: seq<FunctionDef>) {
    fs == [] || (BodyFine(fs[0].body) && AllFine(fs[1..]))
  }

  // ---- Generated code has the size and is fine; what is fine fails only for names, slots and order ----

  ghost predicate SmallAddresses(env: Env) {
    forall f :: f in env.addrs ==> env.addrs[f] <= 65535
  }

  ghost predicate Exact(c: Code, size: nat, fine: bool, small: bool) {
    match c
    case Ok(code) => |code| == size && fine
    case Err(error) => small && fine ==> !CallRules.OtherObstacle(error)
  }

  lemma {:induction false} StoresSize(locals: seq<string>, n: nat)
    ensures StoreArgs(locals, n).Ok? ==> |StoreArgs(locals, n).value| == 2 * n
    ensures StoreArgs(locals, n).Err? ==> !CallRules.OtherObstacle(StoreArgs(locals, n).error)
  {
    if 0 < n <= |locals| {
      StoresSize(locals, n - 1);
    }
  }

  lemma CallExact(name: string, k: nat, env: Env)
    ensures Exact(CallCode(name, k, env), 2 * k + 3, true, SmallAddresses(env))
  {
    if name in env.funs {
      StoresSize(env.funs[name].locals, k);
    }
  }

  lemma {:induction false} ExprExact(e: Expr, env: Env)
    ensures Exact(GenExpr(e, env), ExprSize(e), ExprFine(e), SmallAddresses(env))
    decreases e, 1
  {
    hide BuiltinOf, CallCode, SmallAddresses;
    match e
    case Binary(_, left, right) =>
      ExprExact(left, env);
      ExprExact(right, env);
    case Unary(_, operand) => ExprExact(operand, env);
    case Call(name, args) =>
      ArgsExact(args, env);
      if BuiltinOf(name).None? {
        CallExact(name, |args|, env);
      }
    case _ =>
  }

  lemma {:induction false} ArgsExact(es: seq<Expr>, env: Env)
    ensures Exact(GenExprs(es, env), ArgsSize(es), ArgsFine(es), SmallAddresses(env))
    decreases es, 0
  {
    hide GenExpr, ExprSize, ExprFine, SmallAddresses;
    if es != [] {
      ExprExact(es[0], env);
      ArgsExact(es[1..], env);
    }
  }

  lemma {:induction false} StmtExact(s: Stmt, env: Env)
    ensures Exact(GenStmt(s, env), StmtSize(s), StmtFine(s), SmallAddresses(env))
    decreases s, 1
  {
    hide GenExpr, ExprSize, ExprFine, SmallAddresses, BuiltinOf, I16Bytes;
    match s
    case VarDecl(_, init) => ExprExact(init, env);
    case Assign(_, val) => ExprExact(val, env);
    case ExprStmt(e) => ExprExact(e, env);
    case IfThen(cond, thn) =>
      ExprExact(cond, env);
      BodyExact(thn, env);
    case IfElse(cond, thn, els) =>
      ExprExact(cond, env);
      BodyExact(thn, env);
      BodyExact(els, env);
    case While(cond, body) =>
      ExprExact(cond, env);
      BodyExact(body, env);
    case ReturnVoid =>
    case Return(res) => ExprExact(res, env);
  }

  lemma {:induction false} BodyExact(ss: seq<Stmt>, env: Env)
    ensures Exact(GenStmts(ss, env), BodySize(ss), BodyFine(ss), SmallAddresses(env))
    decreases ss, 0
  {
    hide GenStmt, StmtSize, StmtFine, SmallAddresses;
    if ss != [] {
      StmtExact(ss[0], env);
      BodyExact(ss[1..], env);
    }
  }

  // ---- Functions and programs ----

  lemma FunctionExact(f: FunctionDef, funs: map<string, FunInfo>, addrs: map<string, nat>)
    requires forall g :: g in addrs ==> addrs[g] <= 65535
    ensures Exact(GenFunction(f, funs, addrs), FunctionSize(f), BodyFine(f.body), true)
  {
    hide GenStmts, BodySize, BodyFine;
    if f.name in funs {
      BodyExact(f.body, Env(funs[f.name].locals, funs, addrs));
    }
  }

  lemma FunctionSized(f: FunctionDef, funs: map<string, FunInfo>, addrs: map<string, nat>)
    requires GenFunction(f, funs, addrs).Ok?
    ensures |GenFunction(f, funs, addrs).value| == FunctionSize(f) && BodyFine(f.body)
  {
    hide GenStmts, BodySize, BodyFine;
    BodyExact(f.body, Env(funs[f.name].locals, funs, addrs));
  }

  /** If generation succeeds, sizes and addresses are the computed ones. */
  lemma {:induction false} LaidOutSizes(fs: seq<FunctionDef>, funs: map<string, FunInfo>, addrs: map<string, nat>,
                                        base: nat)
    requires DistinctFunctions(fs) && (forall i :: 0 <= i < |fs| ==> fs[i].name !in addrs)
    requires GenFunctions(fs, funs, addrs, base).Ok?
    ensures var image := GenFunctions(fs, funs, addrs, base).value;
            && |image.code| == FunctionsSize(fs) && AllFine(fs)
            && (forall f :: f in addrs ==> f in image.addrs && image.addrs[f] == addrs[f])
            && (forall i :: 0 <= i < |fs| ==>
                  fs[i].name in image.addrs && image.addrs[fs[i].name] == AddressOf(fs, fs[i].name, base))
  {
    hide GenFunction, FunctionSize, BodyFine;
    if fs != [] {
      var near := addrs[fs[0].name := base];
      FunctionSized(fs[0], funs, near);
      assert forall i :: 0 <= i < |fs[1..]| ==> fs[1..][i] == fs[i + 1];
      LaidOutSizes(fs[1..], funs, near, base + FunctionSize(fs[0]));
      forall i | 0 <= i < |fs|
        ensures var image := GenFunctions(fs, funs, addrs, base).value;
                fs[i].name in image.addrs && image.addrs[fs[i].name] == AddressOf(fs, fs[i].name, base)
      {
        if i > 0 {
          assert fs[i] == fs[1..][i - 1] && fs[i].name != fs[0].name;
        } else {
          assert fs[0].name in near;
        }
      }
    }
  }

  /** If everything is fine and fits below 64 KB, only names, slots and order can make generation fail. */
  lemma {:induction false} LaidOutFine(fs: seq<FunctionDef>, funs: map<string, FunInfo>, addrs: map<string, nat>,
                                       base: nat)
    requires AllFine(fs) && base + FunctionsSize(fs) <= 65535 && forall f :: f in addrs ==> addrs[f] <= 65535
    ensures GenFunctions(fs, funs, addrs, base).Ok?
            || !CallRules.OtherObstacle(GenFunctions(fs, funs, addrs, base).error)
  {
    hide GenFunction, FunctionSize, BodyFine;
    if fs != [] {
      var near := addrs[fs[0].name := base];
      FunctionExact(fs[0], funs, near);
      LaidOutFine(fs[1..], funs, near, base + FunctionSize(fs[0]));
    }
  }

  ghost predicate SmallTables(funs: map<string, FunInfo>) {
    forall f :: f in funs ==> |funs[f].locals| <= 256
  }

  /** All that a program must fulfil to be compiled, besides analysis; everything is computed from its syntax tree. */
  ghost predicate Encodable(p: Program, funs: map<string, FunInfo>) {
    && Named(p.functions, "main")
    && CallRules.DefinedBeforeUse(p.functions, {}, funs)
    && AllFine(p.functions)
    && AddressOf(p.functions, "main", 4) <= 32767
    && 4 + FunctionsSize(p.functions) <= 65535
    && SmallTables(funs)
  }

  /**
   An analyzed program generates if and only if it has a main, every callee is defined no later than its caller and
   has a slot for each argument, literals and jump distances fit their operands, traits are literals, main starts below
   0x8000, the code has at most 65535 bytes, and no function more than 256 locals. The code then has the computed size.
   */
  lemma GeneratesIff(p: Program)
    requires Analyze(p).Ok?
    ensures var funs := Analyze(p).value;
            && (Generate(p, funs).Ok? <==> Encodable(p, funs))
            && (Generate(p, funs).Ok? ==> |Generate(p, funs).value.code| == 4 + FunctionsSize(p.functions))
  {
    hide Analyze, GenFunctions, CallRules.DefinedBeforeUse, AllFine, AddressOf, FunctionsSize, LocalCount;
    var funs := Analyze(p).value;
    AnalyzeGives(p);
    CallRules.GeneratesExactly(p);
    LocalsFit(funs);
    MainIsNamed(p.functions, funs);
    var image := GenFunctions(p.functions, funs, map[], 4);
    if image.Ok? {
      LaidOutSizes(p.functions, funs, map[], 4);
      if Named(p.functions, "main") {
        MainPlaced(p, funs);
      }
    }
    if Encodable(p, funs) {
      LaidOutFine(p.functions, funs, map[], 4);
    }
  }

  lemma LocalsFit(funs: map<string, FunInfo>)
    ensures LocalCount(funs) <= 256 <==> SmallTables(funs)
  {
    assert IsLocalCount(funs, LocalCount(funs));
  }

  lemma MainIsNamed(fs: seq<FunctionDef>, funs: map<string, FunInfo>)
    requires forall f :: f in funs <==> exists i :: 0 <= i < |fs| && fs[i].name == f
    ensures "main" in funs <==> Named(fs, "main")
  {
  }

  lemma MainPlaced(p: Program, funs: map<string, FunInfo>)
    requires DistinctFunctions(p.functions) && Named(p.functions, "main")
    requires GenFunctions(p.functions, funs, map[], 4).Ok?
    ensures var addrs := GenFunctions(p.functions, funs, map[], 4).value.addrs;
            "main" in addrs && addrs["main"] == AddressOf(p.functions, "main", 4)
  {
    hide GenFunctions, AddressOf;
    LaidOutSizes(p.functions, funs, map[], 4);
    var i :| 0 <= i < |p.functions| && p.functions[i].name == "main";
  }
}
