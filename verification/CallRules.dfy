/** Which calls code generation accepts: of functions defined before, with a slot for every argument. */
module CallRules {
  import opened Words
  import opened Ast
  import opened Tables
  import opened Codegen
  import opened Sema
  import opened Linking
  import opened Calls
  import opened SemaProperties
  import Opcodes

  /** The callee has a slot for each argument. */
  function HasSlots(funs: map<string, FunInfo>): Judge {
    (f: string, k: nat) => f in funs && k <= |funs[f].locals|
  }

  function Callable(placed: set<string>, funs: map<string, FunInfo>): Judge {
    (f: string, k: nat) => f in placed && f in funs && k <= |funs[f].locals|
  }

  // ---- One function ----

  /** What generates calls only functions with a slot for each argument, and only ones that have an address by then. */
  lemma GeneratedCalls(f: FunctionDef, funs: map<string, FunInfo>, addrs: map<string, nat>)
    requires GenFunction(f, funs, addrs).Ok?
    ensures StmtsCalls(f.body, HasSlots(funs)) && StmtsCalls(f.body, Callable(addrs.Keys, funs))
  {
    var env := Env(funs[f.name].locals, funs, addrs);
    forall g, k | CallCode(g, k, env).Ok?
      ensures HasSlots(funs)(g, k) && Callable(addrs.Keys, funs)(g, k)
    {
      StoreArgsFindsSlots(funs[g].locals, k);
    }
    hide CallCode, GenStmts, StmtsCalls, HasSlots, Callable;
    GeneratedStmtsCalls(f.body, env, HasSlots(funs));
    GeneratedStmtsCalls(f.body, env, Callable(addrs.Keys, funs));
  }

  /** The table has the locals that analysis gives. */
  ghost predicate Tabled(f: FunctionDef, arities: map<string, nat>, funs: map<string, FunInfo>) {
    f.name in funs && FunctionLocals(f, arities) == Ok(funs[f.name].locals)
  }

  /** Conversely, an analyzed function whose calls all have slots is missing no name, wherever functions are placed. */
  lemma CallsSuffice(f: FunctionDef, arities: map<string, nat>, funs: map<string, FunInfo>, addrs: map<string, nat>)
    requires Tabled(f, arities, funs)
    ensures StmtsCalls(f.body, HasSlots(funs)) ==> NotMissing(GenFunction(f, funs, addrs), false)
    ensures StmtsCalls(f.body, Callable(addrs.Keys, funs)) ==> NotMissing(GenFunction(f, funs, addrs), true)
  {
    var env := Env(funs[f.name].locals, funs, addrs);
    forall g, k: nat | g in funs && k <= |funs[g].locals|
      ensures NotMissing(CallCode(g, k, env), g in addrs)
    {
      StoreArgsFindsSlots(funs[g].locals, k);
    }
    assert Covers(HasSlots(funs), env, false) && Covers(Callable(addrs.Keys, funs), env, true);
    var names := AllocLocals([], f.params);
    hide CallCode, GenStmts, StmtsCalls, HasSlots, Callable, Covers, AllocLocals, Distinct;
    NothingTwice();
    AllocLocalsKeeps([], f.params);
    if StmtsCalls(f.body, HasSlots(funs)) {
      StmtsFindNames(f.body, names, arities, env, HasSlots(funs), false);
    }
    if StmtsCalls(f.body, Callable(addrs.Keys, funs)) {
      StmtsFindNames(f.body, names, arities, env, Callable(addrs.Keys, funs), true);
    }
  }

  // ---- Whole programs ----

  lemma AnalyzedTables(p: Program, i: nat)
    requires Analyze(p).Ok? && i < |p.functions|
    ensures Register(p.functions, map[]).Ok?
    ensures Tabled(p.functions[i], Register(p.functions, map[]).value, Analyze(p).value)
  {
    hide FunctionLocals, Named;
    RegisterGives(p.functions, map[]);
    CheckFunctionsGives(p.functions, Register(p.functions, map[]).value, map[]);
  }

  /** The slots that calls need: an analyzed program whose calls all have them is missing no name in any function. */
  lemma AnalyzedNamesFound(p: Program, i: nat, addrs: map<string, nat>)
    requires Analyze(p).Ok? && i < |p.functions|
    ensures var g := GenFunction(p.functions[i], Analyze(p).value, addrs);
            && (g.Ok? ==> StmtsCalls(p.functions[i].body, HasSlots(Analyze(p).value)))
            && (StmtsCalls(p.functions[i].body, HasSlots(Analyze(p).value)) ==> NotMissing(g, false))
  {
    hide Analyze, GenFunction, StmtsCalls, HasSlots, Callable, Tabled;
    AnalyzedTables(p, i);
    CallsSuffice(p.functions[i], Register(p.functions, map[]).value, Analyze(p).value, addrs);
    if GenFunction(p.functions[i], Analyze(p).value, addrs).Ok? {
      GeneratedCalls(p.functions[i], Analyze(p).value, addrs);
    }
  }

  /** Calls have slots when no function repeats a parameter. */
  lemma DistinctParametersHaveSlots(p: Program, i: nat)
    requires Analyze(p).Ok? && i < |p.functions|
    requires forall j :: 0 <= j < |p.functions| ==> Distinct(p.functions[j].params)
    ensures StmtsCalls(p.functions[i].body, HasSlots(Analyze(p).value))
  {
    hide Distinct, CheckFunctions, StmtsCalls, FunctionLocals;
    AnalyzeGives(p);
    RegisterGives(p.functions, map[]);
    AnalyzedTables(p, i);
    var arities, funs := Register(p.functions, map[]).value, Analyze(p).value;
    forall g | g in arities
      ensures g in funs && arities[g] <= |funs[g].locals|
    {
      assert Named(p.functions, g);
      var j :| 0 <= j < |p.functions| && p.functions[j].name == g;
    }
    CalledByArity(p.functions[i], arities, HasSlots(funs));
  }

  lemma CalledByArity(f: FunctionDef, arities: map<string, nat>, fine: Judge)
    requires FunctionLocals(f, arities).Ok? && ByArity(arities, fine)
    ensures StmtsCalls(f.body, fine)
  {
    hide StmtsCalls, CheckStmts, ByArity;
    CheckedStmtsCalls(f.body, AllocLocals([], f.params), arities, fine);
  }

  /** Every call is of a function that is defined no later than the caller, and has a slot for each argument. */
  ghost predicate DefinedBeforeUse(fs: seq<FunctionDef>, placed: set<string>, funs: map<string, FunInfo>) {
    fs == [] || (
      && StmtsCalls(fs[0].body, Callable(placed + {fs[0].name}, funs))
      && DefinedBeforeUse(fs[1..], placed + {fs[0].name}, funs))
  }

  /** An obstacle that has nothing to do with names, slots and the order of functions. */
  predicate OtherObstacle(error: GenError) {
    !error.UnknownName? && !error.MissingParameter? && !error.ForwardCall?
  }

  lemma {:induction false} LaidOutCalls(fs: seq<FunctionDef>, arities: map<string, nat>, funs: map<string, FunInfo>,
                                        addrs: map<string, nat>, base: nat)
    requires forall i :: 0 <= i < |fs| ==> Tabled(fs[i], arities, funs)
    ensures var g := GenFunctions(fs, funs, addrs, base);
            && (g.Ok? ==> DefinedBeforeUse(fs, addrs.Keys, funs))
            && (DefinedBeforeUse(fs, addrs.Keys, funs) && g.Err? ==> OtherObstacle(g.error))
  {
    hide GenFunction, StmtsCalls, Callable, Tabled;
    if fs != [] {
      var near := addrs[fs[0].name := base];
      var c := GenFunction(fs[0], funs, near);
      assert near.Keys == addrs.Keys + {fs[0].name};
      assert forall i :: 0 <= i < |fs[1..]| ==> fs[1..][i] == fs[i + 1];
      CallsSuffice(fs[0], arities, funs, near);
      if c.Ok? {
        GeneratedCalls(fs[0], funs, near);
        LaidOutCalls(fs[1..], arities, funs, near, base + |c.value|);
      }
    }
  }

  /**
   Generating the functions of an analyzed program works only if every callee is defined before its use and has a slot
   for each argument; and if so, no name, slot or forward call stands in the way.
   */
  lemma GeneratesExactly(p: Program)
    requires Analyze(p).Ok?
    ensures var g := GenFunctions(p.functions, Analyze(p).value, map[], 4);
            var good := DefinedBeforeUse(p.functions, {}, Analyze(p).value);
            if good then g.Ok? || OtherObstacle(g.error) else g.Err?
  {
    hide Analyze, GenFunctions, DefinedBeforeUse, Tabled;
    forall i | 0 <= i < |p.functions|
      ensures Register(p.functions, map[]).Ok?
      ensures Tabled(p.functions[i], Register(p.functions, map[]).value, Analyze(p).value)
    {
      AnalyzedTables(p, i);
    }
    var none: map<string, nat> := map[];
    assert none.Keys == {};
    var arities := if Register(p.functions, map[]).Ok? then Register(p.functions, map[]).value else map[];
    LaidOutCalls(p.functions, arities, Analyze(p).value, none, 4);
  }

  // ---- Examples ----

  lemma TwoFunctions(f: FunctionDef, g: FunctionDef, fs: seq<string>, gs: seq<string>)
    requires f.name != g.name
    requires var arities := map[f.name := |f.params|][g.name := |g.params|];
             FunctionLocals(f, arities) == Ok(fs) && FunctionLocals(g, arities) == Ok(gs)
    ensures Analyze(Program([f, g])) == Ok(map[f.name := FunInfo(|f.params|, fs)][g.name := FunInfo(|g.params|, gs)])
  {
    hide FunctionLocals;
    var both := [f, g];
    assert both[1..] == [g] && [g][1..] == [];
    assert Register([g], map[f.name := |f.params|]) == Ok(map[f.name := |f.params|][g.name := |g.params|]);
    assert Register(both, map[]) == Register([g], map[f.name := |f.params|]);
    var arities: map<string, nat> := map[f.name := |f.params|][g.name := |g.params|];
    var first := map[f.name := FunInfo(|f.params|, fs)];
    assert CheckFunctions([g], arities, first)
        == CheckFunctions([g][1..], arities, first[g.name := FunInfo(|g.params|, gs)]);
    assert CheckFunctions(both, arities, map[]) == CheckFunctions([g], arities, first);
  }

  lemma RepeatedParameter(f: FunctionDef, arities: map<string, nat>)
    requires f.params == ["a", "a"]
    ensures f.body == [] ==> FunctionLocals(f, arities) == Ok(["a"])
    ensures f.body == [VarDecl("b", IntLit(0))] ==> FunctionLocals(f, arities) == Ok(["a", "b"])
  {
    assert ["a", "a"][1..] == ["a"] && ["a"][1..] == [];
    assert AllocLocals([], ["a", "a"]) == ["a"];
    assert [VarDecl("b", IntLit(0))][1..] == [];
    assert "b"[0] != "a"[0];
    assert ["a"] + ["b"] == ["a", "b"];
    assert CheckStmt(VarDecl("b", IntLit(0)), ["a"], arities) == Ok(["a", "b"]);
  }

  /** fn main() { f(1, 2); } */
  function CallsWithTwo(): FunctionDef {
    FunctionDef("main", [], [ExprStmt(Call("f", [IntLit(1), IntLit(2)]))])
  }

  lemma CallsWithTwoAnalyzed(arities: map<string, nat>)
    requires "f" in arities && arities["f"] == 2
    ensures FunctionLocals(CallsWithTwo(), arities) == Ok([])
  {
    var call := Call("f", [IntLit(1), IntLit(2)]);
    assert call.args[1..] == [IntLit(2)] && [IntLit(2)][1..] == [];
    assert CheckExpr(call, [], arities) == Ok([]);
    assert CallsWithTwo().body[1..] == [];
    assert CheckStmt(CallsWithTwo().body[0], [], arities) == Ok([]);
    assert CheckStmts(CallsWithTwo().body, [], arities) == CheckStmts([], [], arities);
    assert AllocLocals([], CallsWithTwo().params) == [];
  }

  /**
   A repeated parameter gives fn f(a, a) one slot for two parameters. Not called, it generates; but a call f(1, 2),
   which analysis accepts, has no slot for its second argument, and generation fails.
   */
  lemma RepeatedParameterHasNoSlot(f: FunctionDef)
    requires f == FunctionDef("f", ["a", "a"], [])
    ensures Analyze(Program([f, CallsWithTwo()])) == Ok(map["f" := FunInfo(2, ["a"])]["main" := FunInfo(0, [])])
    ensures var funs := Analyze(Program([f, CallsWithTwo()])).value;
            && GenFunction(f, funs, map["f" := 4]) == Ok([Opcodes.RETURN])
            && GenFunctions([f, CallsWithTwo()], funs, map[], 4) == Err(MissingParameter)
  {
    hide Analyze, FunctionLocals;
    assert |f.name| != |CallsWithTwo().name|;
    RepeatedParameter(f, map["f" := 2]["main" := 0]);
    CallsWithTwoAnalyzed(map["f" := 2]["main" := 0]);
    TwoFunctions(f, CallsWithTwo(), ["a"], []);
    var funs := map["f" := FunInfo(2, ["a"])]["main" := FunInfo(0, [])];
    assert GenStmts(f.body, Env(["a"], funs, map["f" := 4])) == Ok([]) && [] + [Opcodes.RETURN] == [Opcodes.RETURN];
    NoSlotForSecond(funs, map["f" := 4]["main" := 5]);
    hide GenStmts;
    assert [f, CallsWithTwo()][1..] == [CallsWithTwo()];
  }

  lemma NoSlotForSecond(funs: map<string, FunInfo>, addrs: map<string, nat>)
    requires "main" in funs && "f" in funs && funs["f"].locals == ["a"]
    ensures GenFunction(CallsWithTwo(), funs, addrs) == Err(MissingParameter)
  {
    var env := Env(funs["main"].locals, funs, addrs);
    StoreArgsFindsSlots(["a"], 2);
    var call := Call("f", [IntLit(1), IntLit(2)]);
    assert BuiltinOf("f") == None by { NotBuiltin(); }
    assert call.args[1..] == [IntLit(2)] && [IntLit(2)][1..] == [];
    assert GenExpr(call, env) == Err(MissingParameter);
  }

  lemma NotBuiltin()
    ensures BuiltinOf("f") == None
  {
    assert |"f"| == 1;
  }

  /**
   With another variable in f, there are slots enough, and the second argument of f(1, 2) ends up in that variable.
   */
  lemma SecondArgumentGoesAstray(f: FunctionDef, arities: map<string, nat>)
    requires f == FunctionDef("f", ["a", "a"], [VarDecl("b", IntLit(0))])
    ensures FunctionLocals(f, arities) == Ok(["a", "b"]) && SlotOf(["a", "b"], "b") == Some(1)
    ensures StoreArgs(["a", "b"], 2) == Ok([Opcodes.STORE_LOCAL, 1, Opcodes.STORE_LOCAL, 0])
  {
    RepeatedParameter(f, arities);
    var locals := ["a", "b"];
    assert locals[1..] == ["b"] && "b"[0] != "a"[0];
    assert StoreArgs(locals, 0) == Ok([]);
    assert LocalCode(Opcodes.STORE_LOCAL, locals, "a") == Ok([Opcodes.STORE_LOCAL, 0]);
    assert LocalCode(Opcodes.STORE_LOCAL, locals, "b") == Ok([Opcodes.STORE_LOCAL, 1]);
    var last, first := [Opcodes.STORE_LOCAL, 1], [Opcodes.STORE_LOCAL, 0];
    assert first + [] == first && last + first == [Opcodes.STORE_LOCAL, 1, Opcodes.STORE_LOCAL, 0];
    assert StoreArgs(locals, 1) == Ok(first);
  }

  /**
   Argument i is stored in slot i, which is the slot of parameter i for all i exactly when no parameter is repeated.
   */
  lemma ParametersInOrderExactly(f: FunctionDef, arities: map<string, nat>)
    requires FunctionLocals(f, arities).Ok?
    ensures f.params <= FunctionLocals(f, arities).value <==> Distinct(f.params)
  {
    hide FunctionLocals;
    LocalsGive(f, arities);
  }

  /** fn main() { f(); } fn f() {} passes analysis and does not generate. */
  lemma ForwardCallFails(main: FunctionDef, f: FunctionDef)
    requires main == FunctionDef("main", [], [ExprStmt(Call("f", []))]) && f == FunctionDef("f", [], [])
    ensures Analyze(Program([main, f])).Ok?
    ensures GenFunctions([main, f], Analyze(Program([main, f])).value, map[], 4) == Err(ForwardCall("f"))
  {
    hide Analyze;
    NotBuiltin();
    assert |f.name| != |main.name|;
    var arities: map<string, nat> := map["main" := 0]["f" := 0];
    var call := Call("f", []);
    assert main.body[1..] == [];
    assert CheckExpr(call, [], arities) == Ok([]);
    assert CheckStmts(main.body, [], arities) == Ok([]);
    assert FunctionLocals(main, arities) == Ok([]) && FunctionLocals(f, arities) == Ok([]);
    TwoFunctions(main, f, [], []);
    var funs := map["main" := FunInfo(0, [])]["f" := FunInfo(0, [])];
    var env := Env([], funs, map["main" := 4]);
    assert GenExpr(call, env) == Err(ForwardCall("f"));
    assert GenStmts(main.body, env) == Err(ForwardCall("f"));
  }
}
