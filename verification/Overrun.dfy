/** A program of ordinary size in which a handler pushes past the end of the stack array. */
module Overrun {
  import opened Words
  import opened Ast
  import opened Tables
  import opened Opcodes
  import opened Codegen
  import opened Semantics
  import opened Sema
  import Grammar
  import Names
  import Compiler
  import Linking
  import MachineLaws
  import LexerProperties
  import opened StackNeed
  import opened StackBounds
  import M = Machine

  const ONE := IntLit(1)

  const SIGHT := Call("perceive_terrain", [])

  function Around(op: BinOp, e: Expr): Expr {
    Binary(op, ONE, e)
  }

  /**
   One operator of every level around parentheses, k times: 1 || 1 && 1 == 1 < 1 + 1 * ( ... ), and 1 +
   perceive_terrain().
   */
  function Groups(k: nat): Expr {
    if k == 0 then Around(Add, SIGHT) else Group(Groups(k - 1))
  }

  function Group(e: Expr): Expr {
    Around(Or, Around(And, Around(Eq, Around(Lt, Around(Add, Around(Mul, e))))))
  }

  function Deep(): Program {
    Program([DeepMain()])
  }

  function DeepMain(): FunctionDef {
    FunctionDef("main", [], [ExprStmt(Groups(42))])
  }

  // ---- It is an ordinary program ----

  lemma SightIs()
    ensures BuiltinOf("perceive_terrain") == Some(PerceiveTerrain)
  {
    var name := "perceive_terrain";
    assert name[8] == '_' && name[9] == 't';
    assert "perceive_food"[9] == 'f' && "perceive_water"[9] == 'w' && "perceive_agents"[9] == 'a';
    assert name[0] == 'p' && "look_terrain"[0] == 'l' && "look_food"[0] == 'l';
    assert "look_water"[0] == 'l' && "look_agents"[0] == 'l';
    assert name in BUILTINS;
  }

  /** What holds of the perception and is kept by every operator holds of all groups. */
  lemma {:induction false} GroupsKeep(k: nat, P: Expr -> bool)
    requires P(SIGHT) && forall op, e :: P(e) ==> P(Around(op, e))
    ensures P(Groups(k))
  {
    hide Around;
    if k == 0 {
      assert P(Around(Add, SIGHT));
    } else {
      GroupsKeep(k - 1, P);
      var sum := Around(Add, Around(Mul, Groups(k - 1)));
      assert P(sum);
      assert P(Around(Eq, Around(Lt, sum)));
    }
  }

  /** The length of the code, if there is code. */
  function SizeOf(c: Code): int {
    match c
    case Ok(code) => |code|
    case Err(_) => -1
  }

  lemma SightGenerates(env: Env)
    ensures SizeOf(GenExpr(SIGHT, env)) == 4
  {
    hide BuiltinOf;
    SightIs();
  }

  lemma AroundGenerates(op: BinOp, e: Expr, env: Env)
    requires GenExpr(e, env).Ok? && op !in {Ne, Le, Ge}
    ensures SizeOf(GenExpr(Around(op, e), env)) == SizeOf(GenExpr(e, env)) + 6
  {
    assert GenExpr(ONE, env).Ok? && |GenExpr(ONE, env).value| == 5;
  }

  lemma GroupGenerates(e: Expr, env: Env)
    requires GenExpr(e, env).Ok?
    ensures SizeOf(GenExpr(Group(e), env)) == SizeOf(GenExpr(e, env)) + 36
  {
    hide GenExpr, Around;
    AroundGenerates(Mul, e, env);
    var sum := Around(Add, Around(Mul, e));
    AroundGenerates(Add, Around(Mul, e), env);
    AroundGenerates(Lt, sum, env);
    AroundGenerates(Eq, Around(Lt, sum), env);
    AroundGenerates(And, Around(Eq, Around(Lt, sum)), env);
    AroundGenerates(Or, Around(And, Around(Eq, Around(Lt, sum))), env);
  }

  lemma {:induction false} GroupsGenerate(k: nat, env: Env)
    ensures SizeOf(GenExpr(Groups(k), env)) == 36 * k + 10
  {
    hide GenExpr, Around, Group;
    if k == 0 {
      SightGenerates(env);
      AroundGenerates(Add, SIGHT, env);
    } else {
      GroupsGenerate(k - 1, env);
      GroupGenerates(Groups(k - 1), env);
    }
  }

  lemma GroupsAnalyze(k: nat, names: seq<string>, arities: map<string, nat>)
    ensures CheckExpr(Groups(k), names, arities) == Ok(names)
  {
    hide BuiltinOf, Groups;
    SightIs();
    assert CheckExpr(ONE, names, arities) == Ok(names);
    GroupsKeep(k, e => CheckExpr(e, names, arities) == Ok(names));
  }

  lemma GroupsInFragment<W>(k: nat, c: Ctx<W>)
    ensures ValueExpr(c, Groups(k))
  {
    hide BuiltinOf, Groups;
    SightIs();
    assert ValueExpr(c, ONE);
    GroupsKeep(k, e => ValueExpr(c, e));
  }

  lemma GroupsCallNothing(k: nat)
    ensures NoUserCall(Groups(k))
  {
    hide BuiltinOf, Groups;
    SightIs();
    assert NoUserCall(ONE);
    GroupsKeep(k, e => NoUserCall(e));
  }

  lemma GroupsNamed(k: nat)
    ensures Names.ExprNames(Groups(k))
  {
    hide Groups, Names.IsIdentifier;
    SightNamed();
    assert Names.ExprNames(ONE);
    GroupsKeep(k, (e: Expr) => Names.ExprNames(e));
  }

  /** An operator needs no parentheses at its level or below, and adds none around an operand of a higher level. */
  lemma AroundNests(op: BinOp, e: Expr, level: nat)
    requires level <= Grammar.OpLevel(op)
    ensures Grammar.Writable(Around(op, e)) == Grammar.Writable(e)
    ensures Grammar.Nesting(level, Around(op, e)) == Grammar.Nesting(Grammar.OpLevel(op) + 1, e)
    ensures Grammar.LevelOf(Around(op, e)) == Grammar.OpLevel(op)
  {
    assert Grammar.Writable(ONE) && Grammar.Nesting(Grammar.OpLevel(op), ONE) == 0;
  }

  lemma Parenthesized(e: Expr)
    requires Grammar.LevelOf(e) < Grammar.UNARY
    ensures Grammar.Nesting(Grammar.UNARY, e) == 1 + Grammar.Nesting(0, e)
  {
  }

  lemma GroupNests(e: Expr)
    requires Grammar.LevelOf(e) < Grammar.UNARY
    ensures Grammar.Writable(Group(e)) == Grammar.Writable(e)
    ensures Grammar.Nesting(0, Group(e)) == 1 + Grammar.Nesting(0, e)
  {
    hide Around, Grammar.Nesting, Grammar.Writable, Grammar.LevelOf;
    Parenthesized(e);
    AroundNests(Mul, e, 5);
    var sum := Around(Add, Around(Mul, e));
    AroundNests(Add, Around(Mul, e), 4);
    AroundNests(Lt, sum, 3);
    AroundNests(Eq, Around(Lt, sum), 2);
    AroundNests(And, Around(Eq, Around(Lt, sum)), 1);
    AroundNests(Or, Around(And, Around(Eq, Around(Lt, sum))), 0);
  }

  /** Groups need a level of parentheses each, and the operators between them none. */
  lemma {:induction false} GroupsNest(k: nat)
    ensures Grammar.Writable(Groups(k)) && Grammar.Nesting(0, Groups(k)) == k
    ensures Grammar.LevelOf(Groups(k)) < Grammar.UNARY
  {
    hide Grammar.Nesting, Grammar.Writable;
    if k == 0 {
      SightNests();
      AroundNests(Add, SIGHT, 0);
    } else {
      GroupsNest(k - 1);
      GroupNests(Groups(k - 1));
    }
  }

  lemma SightNests()
    ensures Grammar.Writable(SIGHT) && Grammar.Nesting(5, SIGHT) == 0
  {
  }

  /** The program is one that the parser accepts. */
  lemma DeepIsReadable()
    ensures LexerProperties.ParseSource(LexerProperties.SourceOf(Deep())) == Ok(Deep())
  {
    hide LexerProperties.ParseSource, LexerProperties.SourceOf, Groups, Grammar.Nesting, Grammar.Writable;
    hide Names.ExprNames, Names.IsIdentifier;
    GroupsNest(42);
    GroupsNamed(42);
    MainNamed();
    assert DeepMain().body[1..] == [];
    LexerProperties.SourceReadBack(Deep());
  }

  lemma SightNamed()
    ensures Names.ExprNames(SIGHT)
  {
    assert "perceive_terrain"[0] == 'p' && "perceive_terrain"[1] == 'e';
    assert Names.ExprsNames([]);
  }

  lemma MainNamed()
    ensures Names.IsIdentifier("main")
  {
    assert "main"[0] == 'm' && "main"[1] == 'a';
  }

  /** It nests 43 levels deep of 200, one more than ShallowMainSuffices admits. */
  lemma DeepIsOneTooDeep()
    ensures AllShallow(DeepMain().body, 43) && !AllShallow(DeepMain().body, 42)
  {
    hide Groups, Grammar.Nesting, Grammar.Writable, NoUserCall;
    GroupsNest(42);
    GroupsCallNothing(42);
    assert DeepMain().body[1..] == [];
  }

  // ---- It compiles ----

  ghost function DeepInfo(): map<string, FunInfo> {
    map["main" := FunInfo(0, [])]
  }

  lemma DeepAnalyzes()
    ensures Analyze(Deep()) == Ok(DeepInfo())
  {
    hide Groups;
    var arities := map["main" := 0];
    GroupsAnalyze(42, [], arities);
    assert DeepMain().body[1..] == [] && Deep().functions[1..] == [];
    assert CheckStmt(DeepMain().body[0], [], arities) == Ok([]);
    assert FunctionLocals(DeepMain(), arities) == Ok([]);
  }

  lemma DeepCompiles()
    ensures Compiler.Compiles(Deep()) && Analyze(Deep()).value == DeepInfo()
  {
    hide Groups, Analyze;
    DeepAnalyzes();
    var env := Env([], DeepInfo(), map["main" := 4]);
    GroupsGenerate(42, env);
    assert DeepMain().body[1..] == [] && Deep().functions[1..] == [];
    assert GenStmts(DeepMain().body, env).Ok?;
    assert GenFunctions(Deep().functions, DeepInfo(), map[], 4).Ok?;
    assert IsLocalCount(DeepInfo(), LocalCount(DeepInfo()));
  }

  // ---- But it pushes past the end of the stack ----

  lemma AroundEvaluates<W>(c: Ctx<W>, op: BinOp, e: Expr, st: Store<W>, h: nat, d: nat, b: nat)
    requires |st.locals| == M.MAX_LOCALS && h < M.MAX_STACK && b >= 1
    requires Eval(c, [], e, st, h + 1, d, b - 1).Abort?
    ensures Eval(c, [], Around(op, e), st, h, d, b) == Eval(c, [], e, st, h + 1, d, b - 1)
  {
    assert Eval(c, [], ONE, st, h, d, b) == Done(1, st, b - 1);
  }

  /** The handler has looked, and its four replies do not fit. */
  ghost function Overrun<W>(c: Ctx<W>, st: Store<W>, left: nat): Out<W, int32> {
    Abort(M.StackOverrun, st.(world := c.handler(M.Perceive, st.world).world), left)
  }

  lemma SightOverruns<W(!new)>(c: Ctx<W>, st: Store<W>, d: nat, b: nat)
    requires |st.locals| == M.MAX_LOCALS && M.WellBehaved(c.handler) && b >= 10
    ensures Eval(c, [], SIGHT, st, 253, d, b) == Overrun(c, st, b - 10)
  {
    hide BuiltinOf;
    SightIs();
    assert |c.handler(M.Perceive, st.world).pushed| == 4;
  }

  lemma GroupEvaluates<W>(c: Ctx<W>, e: Expr, st: Store<W>, h: nat, d: nat, b: nat)
    requires |st.locals| == M.MAX_LOCALS && h + 6 <= M.MAX_STACK && b >= 6
    requires Eval(c, [], e, st, h + 6, d, b - 6).Abort?
    ensures Eval(c, [], Group(e), st, h, d, b) == Eval(c, [], e, st, h + 6, d, b - 6)
  {
    hide Eval, Around;
    AroundEvaluates(c, Mul, e, st, h + 5, d, b - 5);
    var sum := Around(Add, Around(Mul, e));
    AroundEvaluates(c, Add, Around(Mul, e), st, h + 4, d, b - 4);
    AroundEvaluates(c, Lt, sum, st, h + 3, d, b - 3);
    AroundEvaluates(c, Eq, Around(Lt, sum), st, h + 2, d, b - 2);
    AroundEvaluates(c, And, Around(Eq, Around(Lt, sum)), st, h + 1, d, b - 1);
    AroundEvaluates(c, Or, Around(And, Around(Eq, Around(Lt, sum))), st, h, d, b);
  }

  lemma {:induction false} GroupsOverrun<W(!new)>(c: Ctx<W>, k: nat, st: Store<W>, d: nat, b: nat)
    requires |st.locals| == M.MAX_LOCALS && M.WellBehaved(c.handler) && k <= 42 && b >= 6 * k + 11
    ensures Eval(c, [], Groups(k), st, 252 - 6 * k, d, b) == Overrun(c, st, b - 6 * k - 11)
  {
    hide Eval, Around, Group, M.WellBehaved;
    if k == 0 {
      SightOverruns(c, st, d, b - 1);
      AroundEvaluates(c, Add, SIGHT, st, 252, d, b);
    } else {
      GroupsOverrun(c, k - 1, st, d, b - 6);
      GroupEvaluates(c, Groups(k - 1), st, 252 - 6 * k, d, b);
    }
  }

  /**
   In every world, from every store and with every budget of at least 264, of the 1000 that are the default:
   the tick of this program writes past slot 256.
   */
  lemma DeepOverruns<W(!new)>(h: M.Handler<W>, st: Store<W>, b: nat)
    requires M.WellBehaved(h) && |st.locals| == M.MAX_LOCALS && b >= 264
    ensures Compiler.InScope(Deep(), h)
    ensures Tick(Compiler.Meaning(Deep(), h), st, b)
         == Abort(M.StackOverrun, st.(world := h(M.Perceive, st.world).world), b - 264)
    ensures Compiler.RunTick(Deep(), h, st, b).status == M.StackOverrun
    ensures !MachineLaws.RunFits(Compiler.Binary(Deep()), Some(h), Linking.Start(st), b)
  {
    hide Groups, Eval, Analyze, Generate, M.Run, MachineLaws.RunFits, M.WellBehaved, BuiltinOf;
    DeepCompiles();
    var c := Compiler.Meaning(Deep(), h);
    DeepInScope(h);
    GroupsOverrun(c, 42, st, 1, b - 1);
    DeepTick(c, st, b);
    Compiler.TickCorrect(Deep(), h, st, b);
    Compiler.TickFits(Deep(), h, st, b);
  }

  lemma DeepInScope<W(!new)>(h: M.Handler<W>)
    requires M.WellBehaved(h)
    ensures Compiler.InScope(Deep(), h)
    ensures var c := Compiler.Meaning(Deep(), h);
            c.defs == map["main" := DeepMain()] && c.funs == DeepInfo() && c.handler == h
  {
    hide Groups, Analyze, Generate, M.WellBehaved, BuiltinOf;
    DeepCompiles();
    assert Deep().functions[..0] == [] && DeepMain().body[1..] == [];
    var c := Compiler.Meaning(Deep(), h);
    assert c.defs == map["main" := DeepMain()];
    GroupsInFragment(42, c);
  }

  lemma StatementAborts<W>(c: Ctx<W>, e: Expr, st: Store<W>, d: nat, b: nat)
    requires |st.locals| == M.MAX_LOCALS && ActionOf(e) == None && Eval(c, [], e, st, 0, d, b).Abort?
    ensures var o := Eval(c, [], e, st, 0, d, b);
            Exec(c, [], [ExprStmt(e)], st, 0, d, b) == Abort(o.status, o.st, o.left)
  {
    hide Eval, ActionOf;
    var o := Eval(c, [], e, st, 0, d, b);
    assert ExecStmt(c, [], ExprStmt(e), st, 0, d, b) == Abort(o.status, o.st, o.left);
  }

  lemma DeepTick<W>(c: Ctx<W>, st: Store<W>, b: nat)
    requires |st.locals| == M.MAX_LOCALS && b >= 1
    requires c.defs == map["main" := DeepMain()] && c.funs == DeepInfo()
    requires Eval(c, [], Groups(42), st, 0, 1, b - 1).Abort?
    ensures var o := Eval(c, [], Groups(42), st, 0, 1, b - 1);
            Tick(c, st, b) == Abort(o.status, o.st, o.left)
  {
    hide Groups, Eval, Exec, BuiltinOf, Grammar.Nesting, Grammar.Writable;
    GroupsNest(42);
    StatementAborts(c, Groups(42), st, 1, b - 1);
  }
}
