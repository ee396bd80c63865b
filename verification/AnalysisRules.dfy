/** Which programs pass analysis, and which local lives in which slot, by the text of the program alone. */
module AnalysisRules {
  import opened Words
  import opened Ast
  import opened Tables
  import opened Sema
  import opened Linking
  import opened SemaProperties
  import opened Builtins

  // ---- What stands in a program ----

  /** A call as analysis sees it. */
  datatype CallSite = CallSite(name: string, argCount: nat)

  /** All calls in an expression, outer ones before their arguments. */
  function ExprSites(e: Expr): seq<CallSite>
    decreases e, 1
  {
    match e
    case Binary(_, left, right) => ExprSites(left) + ExprSites(right)
    case Unary(_, operand) => ExprSites(operand)
    case Call(name, args) => [CallSite(name, |args|)] + ExprsSites(args)
    case _ => []
  }

  function ExprsSites(es: seq<Expr>): seq<CallSite>
    decreases es, 0
  {
    if es == [] then [] else ExprSites(es[0]) + ExprsSites(es[1..])
  }

  function StmtSites(s: Stmt): seq<CallSite>
    decreases s, 1
  {
    match s
    case VarDecl(_, init) => ExprSites(init)
    case Assign(_, val) => ExprSites(val)
    case ExprStmt(e) => ExprSites(e)
    case IfThen(cond, thn) => ExprSites(cond) + StmtsSites(thn)
    case IfElse(cond, thn, els) => ExprSites(cond) + (StmtsSites(thn) + StmtsSites(els))
    case While(cond, body) => ExprSites(cond) + StmtsSites(body)
    case ReturnVoid => []
    case Return(res) => ExprSites(res)
  }

  function StmtsSites(ss: seq<Stmt>): seq<CallSite>
    decreases ss, 0
  {
    if ss == [] then [] else StmtSites(ss[0]) + StmtsSites(ss[1..])
  }

  /** The variables in the order in which they occur, that of an assignment behind those of its value. */
  function ExprNamed(e: Expr): seq<string>
    decreases e, 1
  {
    match e
    case Var(name) => [name]
    case Binary(_, left, right) => ExprNamed(left) + ExprNamed(right)
    case Unary(_, operand) => ExprNamed(operand)
    case Call(_, args) => ExprsNamed(args)
    case _ => []
  }

  function ExprsNamed(es: seq<Expr>): seq<string>
    decreases es, 0
  {
    if es == [] then [] else ExprNamed(es[0]) + ExprsNamed(es[1..])
  }

  function StmtNamed(s: Stmt): seq<string>
    decreases s, 1
  {
    match s
    case VarDecl(name, init) => ExprNamed(init) + [name]
    case Assign(name, val) => ExprNamed(val) + [name]
    case ExprStmt(e) => ExprNamed(e)
    case IfThen(cond, thn) => ExprNamed(cond) + StmtsNamed(thn)
    case IfElse(cond, thn, els) => ExprNamed(cond) + (StmtsNamed(thn) + StmtsNamed(els))
    case While(cond, body) => ExprNamed(cond) + StmtsNamed(body)
    case ReturnVoid => []
    case Return(res) => ExprNamed(res)
  }

  function StmtsNamed(ss: seq<Stmt>): seq<string>
    decreases ss, 0
  {
    if ss == [] then [] else StmtNamed(ss[0]) + StmtsNamed(ss[1..])
  }

  // ---- The walk checks these calls and allocates these names ----

  ghost predicate Pass(sites: seq<CallSite>, arities: map<string, nat>) {
    forall i :: 0 <= i < |sites| ==> CheckCallee(sites[i].name, sites[i].argCount, arities).None?
  }

  lemma PassBoth(a: seq<CallSite>, b: seq<CallSite>, arities: map<string, nat>)
    ensures Pass(a + b, arities) <==> Pass(a, arities) && Pass(b, arities)
  {
    hide CheckCallee;
    if Pass(a + b, arities) {
      assert forall i :: 0 <= i < |a| ==> (a + b)[i] == a[i];
      assert forall i :: 0 <= i < |b| ==> (a + b)[|a| + i] == b[i];
    }
  }

  lemma {:induction false} AllocBoth(names: seq<string>, a: seq<string>, b: seq<string>)
    ensures AllocLocals(names, a + b) == AllocLocals(AllocLocals(names, a), b)
    decreases a
  {
    hide AllocLocal;
    if a == [] {
      assert a + b == b;
    } else {
      assert (a + b)[1..] == a[1..] + b;
      AllocBoth(AllocLocal(names, a[0]), a[1..], b);
    }
  }

  /** The result of a walk over calls and names, as far as it succeeds. */
  ghost predicate Walked(r: Names, names: seq<string>, arities: map<string, nat>, sites: seq<CallSite>,
                         named: seq<string>) {
    (r.Ok? <==> Pass(sites, arities)) && (r.Ok? ==> r.value == AllocLocals(names, named))
  }

  lemma WalkedNothing(names: seq<string>, arities: map<string, nat>)
    ensures Walked(Ok(names), names, arities, [], [])
  {
  }

  lemma WalkedBoth(r1: Names, r2: Names, names: seq<string>, arities: map<string, nat>, s1: seq<CallSite>,
                   s2: seq<CallSite>, n1: seq<string>, n2: seq<string>)
    requires Walked(r1, names, arities, s1, n1) && (r1.Ok? ==> Walked(r2, r1.value, arities, s2, n2))
    ensures Walked(if r1.Ok? then r2 else r1, names, arities, s1 + s2, n1 + n2)
  {
    PassBoth(s1, s2, arities);
    AllocBoth(names, n1, n2);
  }

  lemma WalkedName(r: Names, names: seq<string>, arities: map<string, nat>, sites: seq<CallSite>, named: seq<string>,
                   name: string)
    requires Walked(r, names, arities, sites, named)
    ensures Walked(if r.Ok? then Ok(AllocLocal(r.value, name)) else r, names, arities, sites, named + [name])
  {
    AllocBoth(names, named, [name]);
    assert AllocLocals(AllocLocals(names, named), [name]) == AllocLocal(AllocLocals(names, named), name);
  }

  lemma {:induction false} ExprWalked(e: Expr, names: seq<string>, arities: map<string, nat>)
    ensures Walked(CheckExpr(e, names, arities), names, arities, ExprSites(e), ExprNamed(e))
    decreases e, 1
  {
    hide CheckCallee, Walked, AllocLocal;
    match e
    case IntLit(_) => WalkedNothing(names, arities);
    case BoolLit(_) => WalkedNothing(names, arities);
    case Var(name) =>
      WalkedNothing(names, arities);
      WalkedName(Ok(names), names, arities, [], [], name);
      assert [] + [name] == [name];
    case Binary(_, left, right) =>
      var r1 := CheckExpr(left, names, arities);
      ExprWalked(left, names, arities);
      if r1.Ok? {
        ExprWalked(right, r1.value, arities);
      }
      WalkedBoth(r1, if r1.Ok? then CheckExpr(right, r1.value, arities) else r1, names, arities,
                 ExprSites(left), ExprSites(right), ExprNamed(left), ExprNamed(right));
    case Unary(_, operand) => ExprWalked(operand, names, arities);
    case Call(name, args) =>
      var error := CheckCallee(name, |args|, arities);
      var r1: Names := if error.Some? then Err(error.value) else Ok(names);
      WalkedSite(CallSite(name, |args|), names, arities);
      ExprsWalked(args, names, arities);
      WalkedBoth(r1, CheckExprs(args, names, arities), names, arities,
                 [CallSite(name, |args|)], ExprsSites(args), [], ExprsNamed(args));
      assert [] + ExprsNamed(args) == ExprsNamed(args);
  }

  lemma WalkedSite(site: CallSite, names: seq<string>, arities: map<string, nat>)
    ensures var error := CheckCallee(site.name, site.argCount, arities);
            Walked(if error.Some? then Err(error.value) else Ok(names), names, arities, [site], [])
  {
    hide CheckCallee;
    assert [site][0] == site;
  }

  lemma {:induction false} ExprsWalked(es: seq<Expr>, names: seq<string>, arities: map<string, nat>)
    ensures Walked(CheckExprs(es, names, arities), names, arities, ExprsSites(es), ExprsNamed(es))
    decreases es, 0
  {
    hide Walked;
    if es == [] {
      WalkedNothing(names, arities);
    } else {
      var r1 := CheckExpr(es[0], names, arities);
      ExprWalked(es[0], names, arities);
      if r1.Ok? {
        ExprsWalked(es[1..], r1.value, arities);
      }
      WalkedBoth(r1, if r1.Ok? then CheckExprs(es[1..], r1.value, arities) else r1, names, arities,
                 ExprSites(es[0]), ExprsSites(es[1..]), ExprNamed(es[0]), ExprsNamed(es[1..]));
    }
  }

  lemma {:induction false} StmtWalked(s: Stmt, names: seq<string>, arities: map<string, nat>)
    ensures Walked(CheckStmt(s, names, arities), names, arities, StmtSites(s), StmtNamed(s))
    decreases s, 1
  {
    hide Walked, CheckExpr, AllocLocal, ExprSites, ExprNamed;
    match s
    case VarDecl(name, init) =>
      ExprWalked(init, names, arities);
      WalkedName(CheckExpr(init, names, arities), names, arities, ExprSites(init), ExprNamed(init), name);
    case Assign(name, val) =>
      ExprWalked(val, names, arities);
      WalkedName(CheckExpr(val, names, arities), names, arities, ExprSites(val), ExprNamed(val), name);
    case ExprStmt(e) => ExprWalked(e, names, arities);
    case IfThen(cond, thn) => HeadWalked(cond, thn, names, arities);
    case IfElse(cond, thn, els) =>
      var r1 := CheckExpr(cond, names, arities);
      ExprWalked(cond, names, arities);
      if r1.Ok? {
        var r2 := CheckStmts(thn, r1.value, arities);
        StmtsWalked(thn, r1.value, arities);
        if r2.Ok? {
          StmtsWalked(els, r2.value, arities);
        }
        WalkedBoth(r2, if r2.Ok? then CheckStmts(els, r2.value, arities) else r2, r1.value, arities,
                   StmtsSites(thn), StmtsSites(els), StmtsNamed(thn), StmtsNamed(els));
      }
      WalkedBoth(r1, CheckStmt(s, names, arities), names, arities, ExprSites(cond), StmtsSites(thn) + StmtsSites(els),
                 ExprNamed(cond), StmtsNamed(thn) + StmtsNamed(els));
    case While(cond, body) => HeadWalked(cond, body, names, arities);
    case ReturnVoid => WalkedNothing(names, arities);
    case Return(res) => ExprWalked(res, names, arities);
  }

  lemma {:induction false} HeadWalked(cond: Expr, body: seq<Stmt>, names: seq<string>, arities: map<string, nat>)
    ensures var r1 := CheckExpr(cond, names, arities);
            Walked(if r1.Ok? then CheckStmts(body, r1.value, arities) else r1, names, arities,
                   ExprSites(cond) + StmtsSites(body), ExprNamed(cond) + StmtsNamed(body))
    decreases body, 1
  {
    hide Walked, CheckExpr, ExprSites, ExprNamed;
    var r1 := CheckExpr(cond, names, arities);
    ExprWalked(cond, names, arities);
    if r1.Ok? {
      StmtsWalked(body, r1.value, arities);
    }
    WalkedBoth(r1, if r1.Ok? then CheckStmts(body, r1.value, arities) else r1, names, arities,
               ExprSites(cond), StmtsSites(body), ExprNamed(cond), StmtsNamed(body));
  }

  lemma {:induction false} StmtsWalked(ss: seq<Stmt>, names: seq<string>, arities: map<string, nat>)
    ensures Walked(CheckStmts(ss, names, arities), names, arities, StmtsSites(ss), StmtsNamed(ss))
    decreases ss, 0
  {
    hide Walked, CheckStmt, StmtSites, StmtNamed;
    if ss == [] {
      WalkedNothing(names, arities);
    } else {
      var r1 := CheckStmt(ss[0], names, arities);
      StmtWalked(ss[0], names, arities);
      if r1.Ok? {
        StmtsWalked(ss[1..], r1.value, arities);
      }
      WalkedBoth(r1, if r1.Ok? then CheckStmts(ss[1..], r1.value, arities) else r1, names, arities,
                 StmtSites(ss[0]), StmtsSites(ss[1..]), StmtNamed(ss[0]), StmtsNamed(ss[1..]));
    }
  }

  // ---- Slots: first come, first served ----

  /** These are the names that occur, each once, in the order of their first occurrences. */
  ghost predicate Firsts(names: seq<string>, occurring: seq<string>) {
    && (forall name :: name in names <==> name in occurring)
    && (forall i, j :: 0 <= i < j < |names| ==> Earlier(occurring, names[i], names[j]))
  }

  /** The first name occurs, and before every occurrence of the second. */
  ghost predicate Earlier(occurring: seq<string>, a: string, b: string) {
    exists i :: 0 <= i < |occurring| && occurring[i] == a && b !in occurring[..i + 1]
  }

  lemma EarlierStays(occurring: seq<string>, a: string, b: string, name: string)
    requires Earlier(occurring, a, b)
    ensures Earlier(occurring + [name], a, b)
  {
    var i :| 0 <= i < |occurring| && occurring[i] == a && b !in occurring[..i + 1];
    assert (occurring + [name])[i] == a && (occurring + [name])[..i + 1] == occurring[..i + 1];
  }

  lemma EarlierThanNew(occurring: seq<string>, a: string, name: string)
    requires a in occurring && name !in occurring
    ensures Earlier(occurring + [name], a, name)
  {
    var i :| 0 <= i < |occurring| && occurring[i] == a;
    assert (occurring + [name])[i] == a && (occurring + [name])[..i + 1] == occurring[..i + 1];
  }

  lemma FirstsNext(names: seq<string>, occurring: seq<string>, name: string)
    requires Firsts(names, occurring)
    ensures Firsts(AllocLocal(names, name), occurring + [name])
  {
    hide Earlier;
    var r := AllocLocal(names, name);
    forall i, j | 0 <= i < j < |r|
      ensures Earlier(occurring + [name], r[i], r[j])
    {
      if j < |names| {
        EarlierStays(occurring, r[i], r[j], name);
      } else {
        EarlierThanNew(occurring, r[i], name);
      }
    }
  }

  lemma {:induction false} FirstsAll(names: seq<string>, occurring: seq<string>, more: seq<string>)
    requires Firsts(names, occurring)
    ensures Firsts(AllocLocals(names, more), occurring + more)
    decreases more
  {
    hide Firsts, AllocLocal;
    if more == [] {
      assert occurring + more == occurring;
    } else {
      FirstsNext(names, occurring, more[0]);
      FirstsAll(AllocLocal(names, more[0]), occurring + [more[0]], more[1..]);
      assert (occurring + [more[0]]) + more[1..] == occurring + more;
    }
  }

  // ---- Programs ----

  /** A builtin without arguments, my_trait with one, or a function of the program with as many as it declares. */
  ghost predicate Declared(p: Program, site: CallSite) {
    if BuiltinOf(site.name).Some? then site.argCount == if site.name == "my_trait" then 1 else 0
    else exists i :: 0 <= i < |p.functions| && p.functions[i].name == site.name
                     && |p.functions[i].params| == site.argCount
  }

  /** All calls of the program are calls of something declared. */
  ghost predicate AllDeclared(p: Program) {
    forall i, j :: 0 <= i < |p.functions| && 0 <= j < |StmtsSites(p.functions[i].body)| ==>
      Declared(p, StmtsSites(p.functions[i].body)[j])
  }

  lemma TraitByName(name: string)
    ensures BuiltinOf(name) == Some(MyTrait) <==> name == "my_trait"
  {
    ReportBuiltins();
  }

  /** The arities of the first pass let exactly the declared calls pass. */
  lemma CalleeIsDeclared(p: Program, arities: map<string, nat>, site: CallSite)
    requires Register(p.functions, map[]) == Ok(arities)
    ensures CheckCallee(site.name, site.argCount, arities).None? <==> Declared(p, site)
  {
    hide BuiltinOf, Register;
    RegisterGives(p.functions, map[]);
    if BuiltinOf(site.name).Some? {
      TraitByName(site.name);
    } else if site.name in arities {
      assert Named(p.functions, site.name);
      var i :| 0 <= i < |p.functions| && p.functions[i].name == site.name;
      assert arities[site.name] == |p.functions[i].params|;
    }
  }

  lemma {:induction false} RegistersExactly(fs: seq<FunctionDef>, arities: map<string, nat>)
    ensures Register(fs, arities).Ok? <==>
            DistinctFunctions(fs) && forall i :: 0 <= i < |fs| ==> fs[i].name !in arities
  {
    if Register(fs, arities).Ok? {
      RegisterGives(fs, arities);
    } else {
      RegistersExactly(fs[1..], arities[fs[0].name := |fs[0].params|]);
    }
  }

  lemma {:induction false} ChecksExactly(fs: seq<FunctionDef>, arities: map<string, nat>, done: map<string, FunInfo>)
    ensures CheckFunctions(fs, arities, done).Ok? <==>
            forall i :: 0 <= i < |fs| ==> FunctionLocals(fs[i], arities).Ok?
  {
    hide FunctionLocals;
    if fs != [] && FunctionLocals(fs[0], arities).Ok? {
      var done' := done[fs[0].name := FunInfo(|fs[0].params|, FunctionLocals(fs[0], arities).value)];
      ChecksExactly(fs[1..], arities, done');
      assert forall i :: 0 < i < |fs| ==> fs[i] == fs[1..][i - 1];
      assert forall i :: 0 <= i < |fs[1..]| ==> fs[1..][i] == fs[i + 1];
    }
  }

  lemma FunctionPasses(p: Program, arities: map<string, nat>, f: FunctionDef)
    requires Register(p.functions, map[]) == Ok(arities)
    ensures FunctionLocals(f, arities).Ok? <==>
            forall j :: 0 <= j < |StmtsSites(f.body)| ==> Declared(p, StmtsSites(f.body)[j])
  {
    hide Register, CheckCallee, Declared;
    StmtsWalked(f.body, AllocLocals([], f.params), arities);
    forall j | 0 <= j < |StmtsSites(f.body)|
      ensures var site := StmtsSites(f.body)[j];
              CheckCallee(site.name, site.argCount, arities).None? <==> Declared(p, site)
    {
      CalleeIsDeclared(p, arities, StmtsSites(f.body)[j]);
    }
  }

  /** Analysis accepts a program if and only if no two functions share a name and all its calls are declared. */
  lemma AnalyzesExactly(p: Program)
    ensures Analyze(p).Ok? <==> DistinctFunctions(p.functions) && AllDeclared(p)
  {
    hide Register, DistinctFunctions, FunctionLocals, CheckFunctions, Declared;
    RegistersExactly(p.functions, map[]);
    if Register(p.functions, map[]).Ok? {
      var arities := Register(p.functions, map[]).value;
      ChecksExactly(p.functions, arities, map[]);
      forall i | 0 <= i < |p.functions|
        ensures FunctionLocals(p.functions[i], arities).Ok? <==>
                forall j :: 0 <= j < |StmtsSites(p.functions[i].body)| ==>
                  Declared(p, StmtsSites(p.functions[i].body)[j])
      {
        FunctionPasses(p, arities, p.functions[i]);
      }
    }
  }

  /**
   Then the slots of a function are those names that occur in it, parameters before the body, in the order of their
   first occurrences.
   */
  lemma SlotsExactly(p: Program, i: nat)
    requires i < |p.functions| && Analyze(p).Ok?
    ensures var f := p.functions[i];
            f.name in Analyze(p).value && Firsts(Analyze(p).value[f.name].locals, f.params + StmtsNamed(f.body))
  {
    hide Register, Firsts, FunctionLocals;
    var arities := Register(p.functions, map[]).value;
    var f := p.functions[i];
    RegisterGives(p.functions, map[]);
    CheckFunctionsGives(p.functions, arities, map[]);
    SlotsOf(f, arities);
  }

  lemma SlotsOf(f: FunctionDef, arities: map<string, nat>)
    requires FunctionLocals(f, arities).Ok?
    ensures Firsts(FunctionLocals(f, arities).value, f.params + StmtsNamed(f.body))
  {
    hide Firsts, Pass;
    NothingFirst();
    FirstsAll([], [], f.params);
    assert [] + f.params == f.params;
    StmtsWalked(f.body, AllocLocals([], f.params), arities);
    FirstsAll(AllocLocals([], f.params), f.params, StmtsNamed(f.body));
  }

  lemma NothingFirst()
    ensures Firsts([], [])
  {
  }
}
