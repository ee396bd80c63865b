/** The semantic analyzer as the compiler has it: function records that are filled in during the walk. */
module Analyzer {
  import opened Words
  import opened Ast
  import opened Tables
  import opened Sema
  import opened SemaProperties
  import opened Linking

  class FunctionInfo {
    const name: string
    const arity: nat
    var locals: map<string, nat>
    var keys: seq<string>  // the keys of locals in insertion order
    var nextLocal: nat

    /** The dictionary is a bijection between the names and the slots 0 .. nextLocal - 1. */
    ghost predicate Valid()
      reads this
    {
      && nextLocal == |keys| && Distinct(keys)
      && (forall n :: n in locals <==> n in keys)
      && (forall i :: 0 <= i < |keys| ==> locals[keys[i]] == i)
    }

    ghost function Info(): FunInfo
      reads this
    {
      FunInfo(arity, keys)
    }

    constructor (name: string, arity: nat)
      ensures Valid() && this.name == name && this.arity == arity && keys == []
    {
      this.name, this.arity := name, arity;
      locals, keys, nextLocal := map[], [], 0;
    }

    method ResolveOrAllocLocal(name: string) returns (slot: nat)
      requires Valid()
      modifies this
      ensures Valid() && keys == AllocLocal(old(keys), name)
      ensures SlotOf(keys, name) == Some(slot) && slot < nextLocal
    {
      if name !in locals {
        AllocKeeps(keys, name);
        locals := locals[name := nextLocal];
        keys := keys + [name];
        nextLocal := nextLocal + 1;
      }
      slot := locals[name];
      SlotIsIndex(keys, slot) by {
        var i :| 0 <= i < |keys| && keys[i] == name;
      }
    }
  }

  type Functions = map<string, FunctionInfo>

  function Arities(fns: Functions): map<string, nat> {
    map f | f in fns :: fns[f].arity
  }

  /** Every function has a valid record of its own, among those of repr. */
  ghost predicate Separate(fns: Functions, repr: set<FunctionInfo>)
    reads repr
  {
    && (forall f :: f in fns ==> fns[f] in repr && fns[f].Valid())
    && (forall f, g :: f in fns && g in fns && f != g ==> fns[f] != fns[g])
  }

  /** No function has a local yet. */
  ghost predicate Untouched(fns: Functions, repr: set<FunctionInfo>)
    reads repr
  {
    forall f :: f in fns ==> fns[f] in repr && fns[f].keys == []
  }

  /** A check's verdict and its effect on the current function agree with the specification. */
  ghost predicate Agrees(spec: Names, error: Option<SemaError>, keys: seq<string>) {
    match spec
    case Ok(names) => error == None && keys == names
    case Err(e) => error == Some(e)
  }

  method CheckExpr(e: Expr, func: FunctionInfo, fns: Functions) returns (error: Option<SemaError>)
    requires func.Valid()
    modifies func
    ensures func.Valid() && Agrees(Sema.CheckExpr(e, old(func.keys), Arities(fns)), error, func.keys)
    decreases e, 1
  {
    hide BuiltinOf, AllocLocal;
    match e
    case IntLit(_) => return None;
    case BoolLit(_) => return None;
    case Var(name) =>
      var _ := func.ResolveOrAllocLocal(name);
      return None;
    case Binary(_, left, right) =>
      error := CheckExpr(left, func, fns);
      if error == None {
        error := CheckExpr(right, func, fns);
      }
    case Unary(_, operand) =>
      error := CheckExpr(operand, func, fns);
    case Call(name, args) =>
      var builtin := BuiltinOf(name);
      if builtin.Some? {
        if |args| != Arity(builtin.value) {
          return Some(BuiltinArity(name));
        }
      } else if name in fns {
        if |args| != fns[name].arity {
          return Some(FunctionArity(name));
        }
      } else {
        return Some(UndefinedFunction(name));
      }
      error := CheckExprs(args, func, fns);
  }

  method CheckExprs(es: seq<Expr>, func: FunctionInfo, fns: Functions) returns (error: Option<SemaError>)
    requires func.Valid()
    modifies func
    ensures func.Valid() && Agrees(Sema.CheckExprs(es, old(func.keys), Arities(fns)), error, func.keys)
    decreases es, 0
  {
    for i := 0 to |es|
      invariant func.Valid()
      invariant Sema.CheckExprs(es, old(func.keys), Arities(fns)) == Sema.CheckExprs(es[i..], func.keys, Arities(fns))
    {
      assert es[i..][1..] == es[i + 1..];
      error := CheckExpr(es[i], func, fns);
      if error != None {
        return;
      }
    }
    return None;
  }

  method CheckStmt(s: Stmt, func: FunctionInfo, fns: Functions) returns (error: Option<SemaError>)
    requires func.Valid()
    modifies func
    ensures func.Valid() && Agrees(Sema.CheckStmt(s, old(func.keys), Arities(fns)), error, func.keys)
    decreases s, 1
  {
    hide Sema.CheckExpr, AllocLocal;
    match s
    case VarDecl(name, init) =>
      error := CheckExpr(init, func, fns);
      if error == None {
        var _ := func.ResolveOrAllocLocal(name);
      }
    case Assign(name, val) =>
      error := CheckExpr(val, func, fns);
      if error == None {
        var _ := func.ResolveOrAllocLocal(name);
      }
    case ExprStmt(e) =>
      error := CheckExpr(e, func, fns);
    case IfThen(cond, thn) =>
      error := CheckExpr(cond, func, fns);
      if error == None {
        error := CheckStmts(thn, func, fns);
      }
    case IfElse(cond, thn, els) =>
      error := CheckExpr(cond, func, fns);
      if error == None {
        error := CheckStmts(thn, func, fns);
      }
      if error == None {
        error := CheckStmts(els, func, fns);
      }
    case While(cond, body) =>
      error := CheckExpr(cond, func, fns);
      if error == None {
        error := CheckStmts(body, func, fns);
      }
    case ReturnVoid => return None;
    case Return(res) =>
      error := CheckExpr(res, func, fns);
  }

  method CheckStmts(ss: seq<Stmt>, func: FunctionInfo, fns: Functions) returns (error: Option<SemaError>)
    requires func.Valid()
    modifies func
    ensures func.Valid() && Agrees(Sema.CheckStmts(ss, old(func.keys), Arities(fns)), error, func.keys)
    decreases ss, 0
  {
    for i := 0 to |ss|
      invariant func.Valid()
      invariant Sema.CheckStmts(ss, old(func.keys), Arities(fns)) == Sema.CheckStmts(ss[i..], func.keys, Arities(fns))
    {
      assert ss[i..][1..] == ss[i + 1..];
      error := CheckStmt(ss[i], func, fns);
      if error != None {
        return;
      }
    }
    return None;
  }

  class SemaResult {
    var functions: Functions
    ghost var repr: set<FunctionInfo>

    ghost predicate Valid()
      reads this, repr
    {
      Separate(functions, repr)
    }

    /** The tables as code generation reads them. */
    ghost function Table(): map<string, FunInfo>
      requires Valid()
      reads this, repr
    {
      map f | f in functions :: functions[f].Info()
    }

    constructor ()
      ensures Valid() && functions == map[] && repr == {}
    {
      functions, repr := map[], {};
    }

    method AddFunction(name: string, arity: nat) returns (info: FunctionInfo)
      requires Valid() && name !in functions
      modifies this
      ensures Valid() && fresh(info) && info.arity == arity && info.keys == []
      ensures functions == old(functions)[name := info] && repr == old(repr) + {info}
      ensures Arities(functions) == Arities(old(functions))[name := arity]
      ensures old(Untouched(functions, repr)) ==> Untouched(functions, repr)
    {
      info := new FunctionInfo(name, arity);
      functions, repr := functions[name := info], repr + {info};
    }
  }

  method NewResult() returns (result: SemaResult)
    ensures fresh(result) && result.Valid() && result.repr == {} && Untouched(result.functions, result.repr)
    ensures result.functions == map[] && Arities(result.functions) == map[]
  {
    result := new SemaResult();
  }

  /** First pass: registers all functions. */
  method RegisterAll(fs: seq<FunctionDef>) returns (result: SemaResult, error: Option<SemaError>)
    ensures fresh(result) && result.Valid() && fresh(result.repr) && Untouched(result.functions, result.repr)
    ensures match Register(fs, map[])
            case Ok(arities) => error == None && Arities(result.functions) == arities
            case Err(e) => error == Some(e)
  {
    hide Separate, Untouched;
    result := NewResult();
    for i := 0 to |fs|
      invariant fresh(result) && result.Valid() && fresh(result.repr) && Untouched(result.functions, result.repr)
      invariant Register(fs, map[]) == Register(fs[i..], Arities(result.functions))
    {
      assert fs[i..][1..] == fs[i + 1..] && fs[i..][0] == fs[i];
      if fs[i].name in result.functions {
        error := Some(DuplicateFunction(fs[i].name));
        return;
      }
      var _ := result.AddFunction(fs[i].name, |fs[i].params|);
    }
    assert fs[|fs|..] == [];
    error := None;
  }

  /** The functions checked so far have their tables; the others are untouched. */
  ghost predicate Progress(fns: Functions, repr: set<FunctionInfo>, done: map<string, FunInfo>)
    reads repr
    requires Separate(fns, repr)
  {
    && (forall f :: f in done ==> f in fns && done[f] == fns[f].Info())
    && (forall f :: f in fns && f !in done ==> fns[f].keys == [])
  }

  /** Checks one function and fills in its record; no other record changes. */
  method CheckNext(f: FunctionDef, fns: Functions, ghost repr: set<FunctionInfo>, ghost done: map<string, FunInfo>)
    returns (error: Option<SemaError>)
    requires Separate(fns, repr) && Progress(fns, repr, done)
    requires f.name in fns && f.name !in done && fns[f.name].arity == |f.params|
    modifies repr
    ensures Separate(fns, repr)
    ensures match FunctionLocals(f, Arities(fns))
            case Ok(names) => error == None && Progress(fns, repr, done[f.name := FunInfo(|f.params|, names)])
            case Err(e) => error == Some(e)
  {
    hide FunctionLocals;
    error := CheckFunction(f, fns[f.name], fns);
  }

  /** Second pass: fills in the record of every function. */
  method CheckAll(fs: seq<FunctionDef>, fns: Functions, ghost repr: set<FunctionInfo>)
    returns (error: Option<SemaError>, ghost done: map<string, FunInfo>)
    requires Separate(fns, repr) && Untouched(fns, repr)
    requires DistinctFunctions(fs) && forall i :: 0 <= i < |fs| ==>
             fs[i].name in fns && fns[fs[i].name].arity == |fs[i].params|
    modifies repr
    ensures Separate(fns, repr) && Progress(fns, repr, done)
    ensures match CheckFunctions(fs, Arities(fns), map[])
            case Ok(table) => error == None && table == done
            case Err(e) => error == Some(e)
  {
    hide FunctionLocals;
    ghost var arities := Arities(fns);
    done := map[];
    for i := 0 to |fs|
      invariant Separate(fns, repr) && Progress(fns, repr, done)
      invariant CheckFunctions(fs, arities, map[]) == CheckFunctions(fs[i..], arities, done)
      invariant forall j :: i <= j < |fs| ==> fs[j].name !in done
    {
      assert fs[i..][1..] == fs[i + 1..] && fs[i..][0] == fs[i];
      error := CheckNext(fs[i], fns, repr, done);
      if error != None {
        done := map f | f in fns :: fns[f].Info();
        return;
      }
      done := done[fs[i].name := FunInfo(|fs[i].params|, FunctionLocals(fs[i], arities).value)];
    }
    assert fs[|fs|..] == [];
    error := None;
  }

  method Analyze(p: Program) returns (result: SemaResult, error: Option<SemaError>)
    ensures result.Valid()
    ensures match Sema.Analyze(p)
            case Ok(table) => error == None && result.Table() == table
            case Err(e) => error == Some(e)
  {
    hide Register, CheckFunctions, FunctionLocals;
    result, error := RegisterAll(p.functions);
    if error != None {
      return;
    }
    RegisterGives(p.functions, map[]);
    ghost var done;
    error, done := CheckAll(p.functions, result.functions, result.repr);
    if error == None {
      CheckFunctionsGives(p.functions, Arities(result.functions), map[]);
      assert done.Keys == result.functions.Keys;
      assert result.Table() == done;
    }
  }

  method CheckFunction(f: FunctionDef, info: FunctionInfo, fns: Functions) returns (error: Option<SemaError>)
    requires info.Valid() && info.keys == []
    modifies info
    ensures info.Valid() && Agrees(FunctionLocals(f, Arities(fns)), error, info.keys)
  {
    hide Sema.CheckStmts, AllocLocal;
    for j := 0 to |f.params|
      invariant info.Valid()
      invariant AllocLocals([], f.params) == AllocLocals(info.keys, f.params[j..])
    {
      assert f.params[j..][1..] == f.params[j + 1..] && f.params[j..][0] == f.params[j];
      var _ := info.ResolveOrAllocLocal(f.params[j]);
    }
    assert f.params[|f.params|..] == [];
    error := CheckStmts(f.body, info, fns);
  }
}
