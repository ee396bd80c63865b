/** From a successful Generate to the compiler correctness theorem. */
module Linking {
  import opened Words
  import opened Ast
  import opened Tables
  import opened Opcodes
  import M = Machine
  import opened Instructions
  import opened Semantics
  import opened Codegen
  import opened Correctness

  // ---- Code does not change when more function addresses become known ----

  ghost predicate Extends(a: Env, b: Env) {
    && a.locals == b.locals && a.funs == b.funs
    && forall f :: f in a.addrs ==> f in b.addrs && a.addrs[f] == b.addrs[f]
  }

  lemma {:induction false} GenExprMonotone(e: Expr, a: Env, b: Env)
    requires Extends(a, b) && GenExpr(e, a).Ok?
    ensures GenExpr(e, b) == GenExpr(e, a)
    decreases e, 1
  {
    hide BuiltinOf;
    match e
    case Binary(_, left, right) =>
      GenExprMonotone(left, a, b);
      GenExprMonotone(right, a, b);
    case Unary(_, operand) =>
      GenExprMonotone(operand, a, b);
    case Call(name, args) =>
      if GenExprs(args, a).Ok? {
        GenExprsMonotone(args, a, b);
      }
    case _ =>
  }

  lemma {:induction false} GenExprsMonotone(es: seq<Expr>, a: Env, b: Env)
    requires Extends(a, b) && GenExprs(es, a).Ok?
    ensures GenExprs(es, b) == GenExprs(es, a)
    decreases es, 0
  {
    if es != [] {
      GenExprMonotone(es[0], a, b);
      GenExprsMonotone(es[1..], a, b);
    }
  }

  lemma {:induction false} GenStmtMonotone(s: Stmt, a: Env, b: Env)
    requires Extends(a, b) && GenStmt(s, a).Ok?
    ensures GenStmt(s, b) == GenStmt(s, a)
    decreases s, 1
  {
    hide GenExpr, Jump, LocalCode;
    match s
    case VarDecl(_, init) => GenExprMonotone(init, a, b);
    case Assign(_, val) => GenExprMonotone(val, a, b);
    case ExprStmt(e) => GenExprMonotone(e, a, b);
    case IfThen(cond, thn) =>
      GenExprMonotone(cond, a, b);
      GenStmtsMonotone(thn, a, b);
    case IfElse(cond, thn, els) =>
      GenExprMonotone(cond, a, b);
      GenStmtsMonotone(thn, a, b);
      GenStmtsMonotone(els, a, b);
    case While(cond, body) =>
      GenExprMonotone(cond, a, b);
      GenStmtsMonotone(body, a, b);
    case ReturnVoid =>
    case Return(res) => GenExprMonotone(res, a, b);
  }

  lemma {:induction false} GenStmtsMonotone(ss: seq<Stmt>, a: Env, b: Env)
    requires Extends(a, b) && GenStmts(ss, a).Ok?
    ensures GenStmts(ss, b) == GenStmts(ss, a)
    decreases ss, 0
  {
    if ss != [] {
      GenStmtMonotone(ss[0], a, b);
      GenStmtsMonotone(ss[1..], a, b);
    }
  }

  // ---- Layout ----

  ghost predicate DistinctFunctions(fs: seq<FunctionDef>) {
    forall i, j :: 0 <= i < j < |fs| ==> fs[i].name != fs[j].name
  }

  /** The code of f, compiled against the final addresses, stands at f's address. */
  ghost predicate Placed(code: seq<byte>, f: FunctionDef, funs: map<string, FunInfo>, addrs: map<string, nat>) {
    && f.name in addrs
    && var c := GenFunction(f, funs, addrs);
       c.Ok? && At(code, addrs[f.name], c.value)
  }

  /** One function's code, met again from the final addresses. */
  lemma PlacedFirst(f: FunctionDef, funs: map<string, FunInfo>, near: map<string, nat>, addrs: map<string, nat>,
                    prefix: seq<byte>, rest: seq<byte>)
    requires GenFunction(f, funs, near).Ok? && f.name in near && near[f.name] == |prefix|
    requires forall g :: g in near ==> g in addrs && addrs[g] == near[g]
    ensures Placed(prefix + GenFunction(f, funs, near).value + rest, f, funs, addrs)
  {
    hide GenStmts;
    var c := GenFunction(f, funs, near).value;
    var names := funs[f.name].locals;
    GenStmtsMonotone(f.body, Env(names, funs, near), Env(names, funs, addrs));
    assert (prefix + c + rest)[|prefix|..|prefix| + |c|] == c;
  }

  lemma {:induction false} LaidOut(fs: seq<FunctionDef>, funs: map<string, FunInfo>, addrs: map<string, nat>,
                                   prefix: seq<byte>)
    requires DistinctFunctions(fs) && (forall i :: 0 <= i < |fs| ==> fs[i].name !in addrs)
    requires GenFunctions(fs, funs, addrs, |prefix|).Ok?
    ensures var image := GenFunctions(fs, funs, addrs, |prefix|).value;
            && (forall f :: f in addrs ==> f in image.addrs && image.addrs[f] == addrs[f])
            && (forall i :: 0 <= i < |fs| ==> Placed(prefix + image.code, fs[i], funs, image.addrs))
            && (forall f :: f in image.addrs ==> f in addrs || exists i :: 0 <= i < |fs| && fs[i].name == f)
  {
    hide GenFunction, Placed;
    if fs != [] {
      var addrs' := addrs[fs[0].name := |prefix|];
      var c := GenFunction(fs[0], funs, addrs').value;
      assert |prefix + c| == |prefix| + |c|;
      LaidOut(fs[1..], funs, addrs', prefix + c);
      var rest := GenFunctions(fs[1..], funs, addrs', |prefix + c|).value;
      var image := GenFunctions(fs, funs, addrs, |prefix|).value;
      assert prefix + image.code == (prefix + c) + rest.code;
      PlacedFirst(fs[0], funs, addrs', image.addrs, prefix, rest.code);
      forall i | 0 <= i < |fs|
        ensures Placed(prefix + image.code, fs[i], funs, image.addrs)
      {
        if i > 0 { assert fs[i] == fs[1..][i - 1]; }
      }
      forall f | f in image.addrs && f !in addrs
        ensures exists i :: 0 <= i < |fs| && fs[i].name == f
      {
        if f != fs[0].name {
          var j :| 0 <= j < |fs[1..]| && fs[1..][j].name == f;
          assert fs[j + 1].name == f;
        }
      }
    }
  }

  /** The functions of a program by name. */
  function DefsOf(fs: seq<FunctionDef>): (m: map<string, FunctionDef>)
    ensures forall f :: f in m ==> m[f] in fs && m[f].name == f
    ensures forall i :: 0 <= i < |fs| ==> fs[i].name in m
  {
    if fs == [] then map[] else DefsOf(fs[1..])[fs[0].name := fs[0]]
  }

  function ContextOf<W>(p: Program, funs: map<string, FunInfo>, h: M.Handler<W>): Ctx<W> {
    Ctx(DefsOf(p.functions), funs, h)
  }

  /** A symbol table in which no function names a local twice. */
  ghost predicate GoodTables(funs: map<string, FunInfo>) {
    forall f :: f in funs ==> Distinct(funs[f].locals)
  }

  function Loaded(out: Output): M.Bytecode {
    M.Bytecode(out.code, out.localCount, [])
  }

  function Start<W>(st: Store<W>): M.State<W> {
    M.State(0, [], st.locals, [], false, st.world)
  }

  /** The shape of a generated program. */
  lemma GeneratedShape(p: Program, funs: map<string, FunInfo>) returns (prefix: seq<byte>, image: Image)
    requires Generate(p, funs).Ok?
    ensures |prefix| == 4 && GenFunctions(p.functions, funs, map[], 4) == Ok(image)
    ensures Generate(p, funs).value.code == prefix + image.code
    ensures "main" in image.addrs && image.addrs["main"] < 0x8000 && "main" in funs
    ensures At(prefix + image.code, 0, [CALL] + I16Bytes(image.addrs["main"])) && At(prefix + image.code, 3, [HALT])
    ensures |Generate(p, funs).value.code| <= 65535
    ensures Generate(p, funs).value.localCount == LocalCount(funs) <= 256
  {
    hide GenFunctions, I16Bytes;
    image := GenFunctions(p.functions, funs, map[], 4).value;
    var call := [CALL] + I16Bytes(image.addrs["main"]);
    prefix := call + [HALT];
    assert (prefix + image.code)[..3] == call && (prefix + image.code)[3..4] == [HALT];
  }

  lemma LinkedImage<W(!new)>(p: Program, funs: map<string, FunInfo>, h: M.Handler<W>)
    returns (addrs: map<string, nat>)
    requires DistinctFunctions(p.functions) && GoodTables(funs) && M.WellBehaved(h)
    requires Generate(p, funs).Ok? && ProgramInFragment(ContextOf(p, funs, h))
    ensures var code := Generate(p, funs).value.code;
            "main" in addrs && addrs["main"] < 0x8000
            && At(code, 0, [CALL] + I16Bytes(addrs["main"])) && At(code, 3, [HALT])
    ensures WellLinked(Linked(Loaded(Generate(p, funs).value), addrs, ContextOf(p, funs, h)))
    ensures "main" in DefsOf(p.functions) && "main" in funs && addrs["main"] <= |Generate(p, funs).value.code|
  {
    hide GenFunctions, GenFunction, ProgramInFragment, Generate, At, DefsOf;
    var prefix, image := GeneratedShape(p, funs);
    addrs := image.addrs;
    LaidOut(p.functions, funs, map[], prefix);
    var k := Linked(Loaded(Generate(p, funs).value), addrs, ContextOf(p, funs, h));
    forall f | f in k.ctx.defs
      ensures FunctionAt(k, f)
    {
      var i :| 0 <= i < |p.functions| && p.functions[i] == k.ctx.defs[f];
      assert Placed(k.bc.code, p.functions[i], funs, addrs);
      GenFunctionNamed(p.functions[i], funs, addrs);
    }
    assert FunctionAt(k, "main");
  }

  lemma GenFunctionNamed(f: FunctionDef, funs: map<string, FunInfo>, addrs: map<string, nat>)
    requires GenFunction(f, funs, addrs).Ok?
    ensures f.name in funs
  {
  }

  /**
   Compiler correctness: for every program of the fragment, every well-behaved handler, every store and every
   budget, the VM running the generated bytes ends exactly as the source program does.
   */
  lemma CompilerCorrect<W(!new)>(p: Program, funs: map<string, FunInfo>, h: M.Handler<W>, st: Store<W>, b: nat)
    requires DistinctFunctions(p.functions) && GoodTables(funs) && M.WellBehaved(h) && |st.locals| == M.MAX_LOCALS
    requires Generate(p, funs).Ok? && ProgramInFragment(ContextOf(p, funs, h))
    ensures var r := M.Run(Loaded(Generate(p, funs).value), Some(h), Start(st), b);
            match Tick(ContextOf(p, funs, h), st, b)
            case Wrong => false
            case Abort(status, st', left) => Ends(r, status, st', left)
            case Done(result, st', left) =>
              && Ends(r, M.Halted, st', left)
              && r.state.frames == []
              && r.state.stack == if result.Some? then [result.value] else []
  {
    hide M.Run, Generate, Exec, WellLinked, DefsOf, ProgramInFragment, At;
    var addrs := LinkedImage(p, funs, h);
    var c := ContextOf(p, funs, h);
    var k := Linked(Loaded(Generate(p, funs).value), addrs, c);
    var s := Start(st);
    RunCall(k.bc, Some(h), s, b, addrs["main"]);
    if b >= 1 {
      var s1 := s.(pc := addrs["main"], frames := [3]);
      assert s.frames + [s.pc + 3] == [3];
      BodyCorrect(k, "main", s1, b - 1);
      var o := Exec(c, funs["main"].locals, c.defs["main"].body, st, 0, 1, b - 1);
      assert StoreOf(s1) == st;
      if o.Done? && (o.value.Leave? || o.left >= 1) {
        var result := if o.value.Leave? then o.value.result else None;
        var left := if o.value.Leave? then o.left else o.left - 1;
        var s2 := Resume(s1, result, o.st);
        assert M.Run(k.bc, Some(h), s1, b - 1) == M.Run(k.bc, Some(h), s2, left);
        assert s2.pc == 3 && s2.frames == [];
        RunHalt(k.bc, Some(h), s2, left);
      }
    }
  }
}
