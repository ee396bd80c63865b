/** The operand heights of compiled programs, computed from their source, and the proof that they check. */
module StackDiscipline {
  import opened Words
  import opened Ast
  import opened Tables
  import opened Opcodes
  import opened Instructions
  import opened Codegen
  import opened Semantics
  import opened Heights
  import opened Sema
  import opened SemaProperties
  import opened Linking
  import opened Compiler
  import Safety
  import M = Machine

  // ---- The height at every byte ----

  function BuiltinHeights(b: Builtin, n: nat, v: bool): (r: seq<Slot>)
    ensures |r| >= 1 && r[0] == Live(n, v)
  {
    match b
    case PerceiveTerrain => [Live(n, v), Live(n + 4, v), Live(n + 3, v), Live(n + 2, v)]
    case LookTerrain => [Live(n, v), Live(n + 4, v), Live(n + 3, v), Live(n + 2, v)]
    case MyTrait => [Live(n, v), Dead]
    case _ => [Live(n, v)]
  }

  /** Arguments leave the stack for their slots, the last one first. */
  function StoreHeights(k: nat, n: nat, v: bool): (r: seq<Slot>)
    ensures |r| == 2 * k && (k > 0 ==> r[0] == Live(n + k, v))
  {
    if k == 0 then [] else [Live(n + k, v), Dead] + StoreHeights(k - 1, n, v)
  }

  /** The heights along the code of an expression that is evaluated on top of n operands. */
  function ExprHeights(e: Expr, n: nat, v: bool): (r: seq<Slot>)
    ensures |r| >= 1 && r[0] == Live(n, v)
    decreases e, 1
  {
    match e
    case IntLit(_) => [Live(n, v), Dead, Dead, Dead, Dead]
    case BoolLit(_) => [Live(n, v), Dead]
    case Var(_) => [Live(n, v), Dead]
    case Binary(op, left, right) => ExprHeights(left, n, v) + ExprHeights(right, n + 1, v) + OperatorHeights(op, n, v)
    case Unary(_, operand) => ExprHeights(operand, n, v) + [Live(n + 1, v)]
    case Call(name, args) =>
      match BuiltinOf(name)
      case Some(b) => BuiltinHeights(b, n, v)
      case None => ArgHeights(args, n, v) + StoreHeights(|args|, n, v) + [Live(n, v), Dead, Dead]
  }

  function OperatorHeights(op: BinOp, n: nat, v: bool): seq<Slot> {
    if BinaryCost(op) == 2 then [Live(n + 2, v), Live(n + 1, v)] else [Live(n + 2, v)]
  }

  function ArgHeights(es: seq<Expr>, n: nat, v: bool): (r: seq<Slot>)
    ensures if es == [] then r == [] else |r| >= 1 && r[0] == Live(n, v)
    decreases es, 0
  {
    if es == [] then [] else ExprHeights(es[0], n, v) + ArgHeights(es[1..], n + 1, v)
  }

  /** Statements start and end on the height of their function's entry. */
  function StmtHeights(s: Stmt, v: bool): (r: seq<Slot>)
    ensures |r| >= 1 && r[0] == Live(0, v)
    decreases s, 1
  {
    match s
    case VarDecl(_, init) => ExprHeights(init, 0, v) + [Live(1, v), Dead]
    case Assign(_, val) => ExprHeights(val, 0, v) + [Live(1, v), Dead]
    case ExprStmt(e) => ExprHeights(e, 0, v) + if ActionOf(e).Some? then [] else [Live(1, v)]
    case IfThen(cond, thn) => ExprHeights(cond, 0, v) + [Live(1, v), Dead, Dead] + BodyHeights(thn, v)
    case IfElse(cond, thn, els) =>
      ExprHeights(cond, 0, v) + [Live(1, v), Dead, Dead] + BodyHeights(thn, v) + [Live(0, v), Dead, Dead]
        + BodyHeights(els, v)
    case While(cond, body) =>
      ExprHeights(cond, 0, v) + [Live(1, v), Dead, Dead] + BodyHeights(body, v) + [Live(0, v), Dead, Dead]
    case ReturnVoid => [Live(0, v)]
    case Return(res) => ExprHeights(res, 0, v) + [Live(1, v)]
  }

  function BodyHeights(ss: seq<Stmt>, v: bool): (r: seq<Slot>)
    ensures if ss == [] then r == [] else |r| >= 1 && r[0] == Live(0, v)
    decreases ss, 0
  {
    if ss == [] then [] else StmtHeights(ss[0], v) + BodyHeights(ss[1..], v)
  }

  /** The implicit return of a function that returns values is never reached. */
  function FunctionHeights(f: FunctionDef): (r: seq<Slot>)
    ensures |r| >= 1 && r[0] == Live(0, ReturnsValue(f.body))
  {
    var v := ReturnsValue(f.body);
    BodyHeights(f.body, v) + [if v then Dead else Live(0, v)]
  }

  function FunctionsHeights(fs: seq<FunctionDef>): seq<Slot> {
    if fs == [] then [] else FunctionHeights(fs[0]) + FunctionsHeights(fs[1..])
  }

  /** The static height H: what is on the stack at every position of the program's code. */
  function HeightsOf(p: Program): seq<Slot> {
    [Dead, Dead, Dead, Dead] + FunctionsHeights(p.functions)
  }

  // ---- There is one slot for each byte of the code ----

  lemma {:induction false} StoresLength(locals: seq<string>, n: nat)
    requires StoreArgs(locals, n).Ok?
    ensures |StoreArgs(locals, n).value| == 2 * n
  {
    if n > 0 {
      StoresLength(locals, n - 1);
    }
  }

  lemma BuiltinLength<W>(c: Ctx<W>, e: Expr, env: Env, n: nat, v: bool)
    requires e.Call? && BuiltinOf(e.callee).Some? && GenExpr(e, env).Ok?
    requires (ValueExpr(c, e) || (ActionOf(e).Some? && e.args == []))
    ensures |ExprHeights(e, n, v)| == |GenExpr(e, env).value|
  {
    hide BuiltinOf;
  }

  lemma {:induction false} ExprLength<W>(c: Ctx<W>, e: Expr, env: Env, n: nat, v: bool)
    requires GenExpr(e, env).Ok? && ValueExpr(c, e)
    ensures |ExprHeights(e, n, v)| == |GenExpr(e, env).value|
    decreases e, 1
  {
    hide BuiltinOf;
    match e
    case Binary(_, left, right) =>
      ExprLength(c, left, env, n, v);
      ExprLength(c, right, env, n + 1, v);
    case Unary(_, operand) =>
      ExprLength(c, operand, env, n, v);
    case Call(name, args) =>
      if BuiltinOf(name).Some? {
        BuiltinLength(c, e, env, n, v);
      } else {
        ArgsLength(c, args, env, n, v);
        StoresLength(env.funs[name].locals, |args|);
      }
    case _ =>
  }

  lemma {:induction false} ArgsLength<W>(c: Ctx<W>, es: seq<Expr>, env: Env, n: nat, v: bool)
    requires GenExprs(es, env).Ok? && ValueExprs(c, es)
    ensures |ArgHeights(es, n, v)| == |GenExprs(es, env).value|
    decreases es, 0
  {
    if es != [] {
      ExprLength(c, es[0], env, n, v);
      ArgsLength(c, es[1..], env, n + 1, v);
    }
  }

  lemma {:induction false} StmtLength<W>(c: Ctx<W>, s: Stmt, env: Env, v: bool)
    requires GenStmt(s, env).Ok? && InFragment(c, s)
    ensures |StmtHeights(s, v)| == |GenStmt(s, env).value|
    decreases s, 1
  {
    hide BuiltinOf, GenExpr, ExprHeights, ValueExpr;
    match s
    case VarDecl(_, init) => ExprLength(c, init, env, 0, v);
    case Assign(_, val) => ExprLength(c, val, env, 0, v);
    case ExprStmt(e) =>
      if ActionOf(e).Some? {
        BuiltinLength(c, e, env, 0, v);
      } else {
        ExprLength(c, e, env, 0, v);
      }
      PushesUnlessAction(e);
    case IfThen(cond, thn) =>
      ExprLength(c, cond, env, 0, v);
      BodyLength(c, thn, env, v);
    case IfElse(cond, thn, els) =>
      ExprLength(c, cond, env, 0, v);
      BodyLength(c, thn, env, v);
      BodyLength(c, els, env, v);
    case While(cond, body) =>
      ExprLength(c, cond, env, 0, v);
      BodyLength(c, body, env, v);
    case ReturnVoid =>
    case Return(res) => ExprLength(c, res, env, 0, v);
  }

  lemma PushesUnlessAction(e: Expr)
    ensures ExprPushes(e) <==> ActionOf(e).None?
  {
    hide BuiltinOf;
  }

  lemma {:induction false} BodyLength<W>(c: Ctx<W>, ss: seq<Stmt>, env: Env, v: bool)
    requires GenStmts(ss, env).Ok? && AllInFragment(c, ss)
    ensures |BodyHeights(ss, v)| == |GenStmts(ss, env).value|
    decreases ss, 0
  {
    hide GenStmt, StmtHeights, InFragment;
    if ss != [] {
      StmtLength(c, ss[0], env, v);
      BodyLength(c, ss[1..], env, v);
    }
  }

  // ---- Generated code fits its heights ----

  /** The slots s stand in the height map at position pc. */
  ghost predicate Stand(hs: seq<Slot>, pc: nat, s: seq<Slot>)
    ensures Stand(hs, pc, s) ==> pc + |s| <= |hs|
  {
    pc + |s| <= |hs| && hs[pc..pc + |s|] == s
  }

  lemma StandSplit(hs: seq<Slot>, pc: nat, a: seq<Slot>, b: seq<Slot>)
    requires Stand(hs, pc, a + b)
    ensures Stand(hs, pc, a) && Stand(hs, pc + |a|, b)
  {
    assert (a + b)[..|a|] == a && (a + b)[|a|..] == b;
    assert hs[pc..pc + |a|] == hs[pc..pc + |a + b|][..|a|];
    assert hs[pc + |a|..pc + |a + b|] == hs[pc..pc + |a + b|][|a|..];
  }

  lemma Starts(hs: seq<Slot>, pc: nat, s: seq<Slot>)
    requires Stand(hs, pc, s) && s != []
    ensures pc < |hs| && hs[pc] == s[0]
  {
    assert hs[pc..pc + |s|][0] == s[0];
  }

  /** A piece of code with a slot for each of its bytes. */
  ghost predicate Both(w: seq<byte>, hs: seq<Slot>, pc: nat, code: seq<byte>, slots: seq<Slot>)
    ensures Both(w, hs, pc, code, slots) ==> |code| == |slots| && pc + |code| <= |w| == |hs|
  {
    |w| == |hs| && |code| == |slots| && At(w, pc, code) && Stand(hs, pc, slots)
  }

  lemma BothSplit(w: seq<byte>, hs: seq<Slot>, pc: nat, a: seq<byte>, b: seq<byte>, sa: seq<Slot>, sb: seq<Slot>)
    requires Both(w, hs, pc, a + b, sa + sb) && |a| == |sa|
    ensures Both(w, hs, pc, a, sa) && Both(w, hs, pc + |a|, b, sb)
    ensures sb != [] ==> pc + |a| < |hs| && hs[pc + |a|] == sb[0]
  {
    AtSplit(w, pc, a, b);
    StandSplit(hs, pc, sa, sb);
    if sb != [] {
      Starts(hs, pc + |a|, sb);
    }
  }

  lemma BothStarts(w: seq<byte>, hs: seq<Slot>, pc: nat, code: seq<byte>, slots: seq<Slot>)
    requires Both(w, hs, pc, code, slots) && slots != []
    ensures pc < |hs| && hs[pc] == slots[0]
  {
    Starts(hs, pc, slots);
  }

  /** All live instructions from lo to hi fit. */
  ghost predicate FitIn(w: seq<byte>, hs: seq<Slot>, lo: nat, hi: nat) {
    |w| == |hs| && forall i :: lo <= i < hi && i < |hs| && hs[i].Live? ==> Fits(w, hs, i)
  }

  lemma FitJoin(w: seq<byte>, hs: seq<Slot>, lo: nat, mid: nat, hi: nat)
    requires FitIn(w, hs, lo, mid) && FitIn(w, hs, mid, hi)
    ensures FitIn(w, hs, lo, hi)
  {
    hide Fits;
  }

  lemma FitNothing(w: seq<byte>, hs: seq<Slot>, lo: nat)
    requires |w| == |hs|
    ensures FitIn(w, hs, lo, lo)
  {
  }

  /** The bytes and the slots of a piece, one by one. */
  lemma BothAt(w: seq<byte>, hs: seq<Slot>, pc: nat, code: seq<byte>, slots: seq<Slot>)
    requires Both(w, hs, pc, code, slots)
    ensures forall i :: pc <= i < pc + |code| ==> w[i] == code[i - pc] && hs[i] == slots[i - pc]
  {
    assert forall k :: 0 <= k < |code| ==> w[pc..pc + |code|][k] == code[k];
    assert forall k :: 0 <= k < |code| ==> hs[pc..pc + |code|][k] == slots[k];
  }

  /** One instruction without a jump; its operand bytes are dead. */
  lemma OneFits(w: seq<byte>, hs: seq<Slot>, pc: nat, code: seq<byte>, slots: seq<Slot>, n: nat, v: bool)
    requires Both(w, hs, pc, code, slots) && code != [] && slots[0] == Live(n, v)
    requires forall i :: 0 < i < |slots| ==> slots[i] == Dead
    requires Safety.InstrLen(code[0]) == |code| && !IsControl(code[0]) && Pops(code[0]) <= n
    requires Is(hs, pc + |code|, n - Pops(code[0]) + Pushes(code[0]), v)
    ensures FitIn(w, hs, pc, pc + |code|)
  {
    hide Both, Pops, Pushes, Safety.InstrLen;
    BothAt(w, hs, pc, code, slots);
    assert Fits(w, hs, pc);
  }

  lemma CodeFits2(w: seq<byte>, hs: seq<Slot>, pc: nat, a: byte, b: byte, n: nat, m: nat, v: bool)
    requires Both(w, hs, pc, [a, b], [Live(n, v), Live(m, v)])
    requires forall op :: op in {a, b} ==> Safety.InstrLen(op) == 1 && !IsControl(op)
    requires Pops(a) <= n && m == n - Pops(a) + Pushes(a)
    requires Pops(b) <= m && Is(hs, pc + 2, m - Pops(b) + Pushes(b), v)
    ensures FitIn(w, hs, pc, pc + 2)
  {
    hide Both, Pops, Pushes, Safety.InstrLen, IsControl, FitIn, Is;
    assert [a] + [b] == [a, b] && [Live(n, v)] + [Live(m, v)] == [Live(n, v), Live(m, v)];
    BothSplit(w, hs, pc, [a], [b], [Live(n, v)], [Live(m, v)]);
    assert Is(hs, pc + 1, m, v) by { IsSlot(hs, pc + 1, m, v); }
    OneFits(w, hs, pc, [a], [Live(n, v)], n, v);
    OneFits(w, hs, pc + 1, [b], [Live(m, v)], m, v);
    FitJoin(w, hs, pc, pc + 1, pc + 2);
  }

  lemma IsSlot(hs: seq<Slot>, i: nat, n: nat, v: bool)
    requires i < |hs| && hs[i] == Live(n, v)
    ensures Is(hs, i, n, v)
  {
  }

  lemma OperatorFits(w: seq<byte>, hs: seq<Slot>, pc: nat, op: BinOp, n: nat, v: bool)
    requires Both(w, hs, pc, BinaryCode(op), OperatorHeights(op, n, v)) && Is(hs, pc + |BinaryCode(op)|, n + 1, v)
    ensures FitIn(w, hs, pc, pc + |BinaryCode(op)|)
  {
    hide Both, FitIn;
    var code := BinaryCode(op);
    if |code| == 1 {
      OneFits(w, hs, pc, code, OperatorHeights(op, n, v), n + 2, v);
    } else {
      CodeFits2(w, hs, pc, code[0], code[1], n + 2, n + 1, v);
    }
  }

  lemma SightFits(w: seq<byte>, hs: seq<Slot>, pc: nat, op: byte, n: nat, v: bool)
    requires op in {PERCEIVE, LOOK}
    requires Both(w, hs, pc, [op, POP, POP, POP], [Live(n, v), Live(n + 4, v), Live(n + 3, v), Live(n + 2, v)])
    requires Is(hs, pc + 4, n + 1, v)
    ensures FitIn(w, hs, pc, pc + 4)
  {
    hide Both, FitIn, Is;
    var far, near := [Live(n + 3, v), Live(n + 2, v)], [Live(n, v), Live(n + 4, v)];
    assert [op, POP] + [POP, POP] == [op, POP, POP, POP];
    assert near + far == [Live(n, v), Live(n + 4, v), Live(n + 3, v), Live(n + 2, v)];
    BothSplit(w, hs, pc, [op, POP], [POP, POP], near, far);
    IsSlot(hs, pc + 2, n + 3, v);
    CodeFits2(w, hs, pc, op, POP, n, n + 4, v);
    CodeFits2(w, hs, pc + 2, POP, POP, n + 3, n + 2, v);
    FitJoin(w, hs, pc, pc + 2, pc + 4);
  }

  lemma {:induction false} StoresFit(w: seq<byte>, hs: seq<Slot>, pc: nat, locals: seq<string>, k: nat, n: nat, v: bool)
    requires StoreArgs(locals, k).Ok? && Both(w, hs, pc, StoreArgs(locals, k).value, StoreHeights(k, n, v))
    requires Is(hs, pc + 2 * k, n, v)
    ensures FitIn(w, hs, pc, pc + 2 * k)
    decreases k
  {
    hide Both, FitIn, Is;
    if k == 0 {
      FitNothing(w, hs, pc);
    } else {
      var store := LocalCode(STORE_LOCAL, locals, locals[k - 1]).value;
      var slots := [Live(n + k, v), Dead];
      BothSplit(w, hs, pc, store, StoreArgs(locals, k - 1).value, slots, StoreHeights(k - 1, n, v));
      if k > 1 {
        IsSlot(hs, pc + 2, n + k - 1, v);
      }
      OneFits(w, hs, pc, store, slots, n + k, v);
      StoresFit(w, hs, pc + 2, locals, k - 1, n, v);
      FitJoin(w, hs, pc, pc + 2, pc + 2 * k);
    }
  }

  /** The functions placed so far are entered at height 0. */
  ghost predicate Entered<W>(c: Ctx<W>, hs: seq<Slot>, addrs: map<string, nat>) {
    forall f :: f in addrs ==> f in c.defs && Is(hs, addrs[f], 0, ReturnsValue(c.defs[f].body))
  }

  lemma CallFits<W>(c: Ctx<W>, w: seq<byte>, hs: seq<Slot>, pc: nat, name: string, k: nat, env: Env, n: nat, v: bool)
    requires Entered(c, hs, env.addrs) && CallCode(name, k, env).Ok? && name in c.defs
    requires ReturnsValue(c.defs[name].body)
    requires Both(w, hs, pc, CallCode(name, k, env).value, StoreHeights(k, n, v) + [Live(n, v), Dead, Dead])
    requires Is(hs, pc + 2 * k + 3, n + 1, v)
    ensures FitIn(w, hs, pc, pc + 2 * k + 3)
  {
    hide Both, FitIn, Is, ReturnsValue;
    var stores := StoreArgs(env.funs[name].locals, k).value;
    var call := [CALL] + U16Bytes(env.addrs[name]);
    StoresLength(env.funs[name].locals, k);
    assert stores + [CALL] + U16Bytes(env.addrs[name]) == stores + call;
    BothSplit(w, hs, pc, stores, call, StoreHeights(k, n, v), [Live(n, v), Dead, Dead]);
    IsSlot(hs, pc + 2 * k, n, v);
    StoresFit(w, hs, pc, env.funs[name].locals, k, n, v);
    TransferFits(w, hs, pc + 2 * k, env.addrs[name], n, v);
    FitJoin(w, hs, pc, pc + 2 * k, pc + 2 * k + 3);
  }

  /** The CALL itself. */
  lemma TransferFits(w: seq<byte>, hs: seq<Slot>, pc: nat, target: nat, n: nat, v: bool)
    requires target < 0x1_0000 && Is(hs, target, 0, true) && Is(hs, pc + 3, n + 1, v)
    requires Both(w, hs, pc, [CALL] + U16Bytes(target), [Live(n, v), Dead, Dead])
    ensures FitIn(w, hs, pc, pc + 3)
  {
    hide U16At, U16Bytes;
    var call := [CALL] + U16Bytes(target);
    BothAt(w, hs, pc, call, [Live(n, v), Dead, Dead]);
    assert w[pc + 1..pc + 3] == U16Bytes(target);
    U16RoundTrip(w, pc + 1, target);
    assert Fits(w, hs, pc);
  }

  lemma BuiltinFits<W>(c: Ctx<W>, w: seq<byte>, hs: seq<Slot>, pc: nat, e: Expr, env: Env, n: nat, v: bool)
    requires e.Call? && BuiltinOf(e.callee).Some? && GenExpr(e, env).Ok?
    requires ValueExpr(c, e) || (ActionOf(e).Some? && e.args == [])
    requires Both(w, hs, pc, GenExpr(e, env).value, ExprHeights(e, n, v))
    requires Is(hs, pc + |GenExpr(e, env).value|, n + (if ActionOf(e).Some? then 0 else 1), v)
    ensures FitIn(w, hs, pc, pc + |GenExpr(e, env).value|)
  {
    hide Both, FitIn, Is, BuiltinOf;
    var b := BuiltinOf(e.callee).value;
    var code := GenExpr(e, env).value;
    if b in {PerceiveTerrain, LookTerrain} {
      SightFits(w, hs, pc, code[0], n, v);
    } else {
      assert |code| == if b == MyTrait then 2 else 1;
      OneFits(w, hs, pc, code, ExprHeights(e, n, v), n, v);
    }
  }

  lemma {:induction false} ExprFits<W>(c: Ctx<W>, w: seq<byte>, hs: seq<Slot>, pc: nat, e: Expr, env: Env, n: nat,
                                       v: bool)
    requires Entered(c, hs, env.addrs) && GenExpr(e, env).Ok? && ValueExpr(c, e)
    requires Both(w, hs, pc, GenExpr(e, env).value, ExprHeights(e, n, v))
    requires Is(hs, pc + |GenExpr(e, env).value|, n + 1, v)
    ensures FitIn(w, hs, pc, pc + |GenExpr(e, env).value|)
    decreases e, 1
  {
    hide BuiltinOf, Both, FitIn, Is, Entered, BinaryCode, OperatorHeights, CallCode, ReturnsValue;
    var code := GenExpr(e, env).value;
    match e
    case Binary(op, left, right) => BinaryFits(c, w, hs, pc, e, env, n, v);
    case Unary(op, operand) =>
      var o := GenExpr(operand, env).value;
      ExprLength(c, operand, env, n, v);
      BothSplit(w, hs, pc, o, [UnaryCode(op)], ExprHeights(operand, n, v), [Live(n + 1, v)]);
      IsSlot(hs, pc + |o|, n + 1, v);
      ExprFits(c, w, hs, pc, operand, env, n, v);
      OneFits(w, hs, pc + |o|, [UnaryCode(op)], [Live(n + 1, v)], n + 1, v);
      FitJoin(w, hs, pc, pc + |o|, pc + |code|);
    case Call(name, args) =>
      if BuiltinOf(name).Some? {
        ValueIsNoAction(c, e);
        BuiltinFits(c, w, hs, pc, e, env, n, v);
      } else {
        UserCallFits(c, w, hs, pc, e, env, n, v);
      }
    case _ => LeafFits(w, hs, pc, e, env, n, v);
  }

  lemma LeafFits(w: seq<byte>, hs: seq<Slot>, pc: nat, e: Expr, env: Env, n: nat, v: bool)
    requires (e.IntLit? || e.BoolLit? || e.Var?) && GenExpr(e, env).Ok?
    requires Both(w, hs, pc, GenExpr(e, env).value, ExprHeights(e, n, v))
    requires Is(hs, pc + |GenExpr(e, env).value|, n + 1, v)
    ensures FitIn(w, hs, pc, pc + |GenExpr(e, env).value|)
  {
    hide Both, FitIn, Is;
    OneFits(w, hs, pc, GenExpr(e, env).value, ExprHeights(e, n, v), n, v);
  }

  lemma ValueIsNoAction<W>(c: Ctx<W>, e: Expr)
    requires ValueExpr(c, e)
    ensures ActionOf(e).None?
  {
    hide BuiltinOf;
  }

  lemma {:induction false} BinaryFits<W>(c: Ctx<W>, w: seq<byte>, hs: seq<Slot>, pc: nat, e: Expr, env: Env, n: nat,
                                         v: bool)
    requires Entered(c, hs, env.addrs) && e.Binary? && GenExpr(e, env).Ok? && ValueExpr(c, e)
    requires Both(w, hs, pc, GenExpr(e, env).value, ExprHeights(e, n, v))
    requires Is(hs, pc + |GenExpr(e, env).value|, n + 1, v)
    ensures FitIn(w, hs, pc, pc + |GenExpr(e, env).value|)
    decreases e, 0
  {
    hide Both, FitIn, Is, Entered, BinaryCode;
    var l, r, op := GenExpr(e.left, env).value, GenExpr(e.right, env).value, BinaryCode(e.op);
    var hl, hr, ho := ExprHeights(e.left, n, v), ExprHeights(e.right, n + 1, v), OperatorHeights(e.op, n, v);
    ExprLength(c, e.left, env, n, v);
    ExprLength(c, e.right, env, n + 1, v);
    BothSplit(w, hs, pc, l + r, op, hl + hr, ho);
    BothSplit(w, hs, pc, l, r, hl, hr);
    IsSlot(hs, pc + |l|, n + 1, v);
    IsSlot(hs, pc + |l + r|, n + 2, v);
    ExprFits(c, w, hs, pc, e.left, env, n, v);
    ExprFits(c, w, hs, pc + |l|, e.right, env, n + 1, v);
    OperatorFits(w, hs, pc + |l + r|, e.op, n, v);
    FitJoin(w, hs, pc, pc + |l|, pc + |l + r|);
    FitJoin(w, hs, pc, pc + |l + r|, pc + |l + r| + |op|);
  }

  lemma {:induction false} UserCallFits<W>(c: Ctx<W>, w: seq<byte>, hs: seq<Slot>, pc: nat, e: Expr, env: Env, n: nat,
                                           v: bool)
    requires Entered(c, hs, env.addrs) && e.Call? && BuiltinOf(e.callee).None? && GenExpr(e, env).Ok? && ValueExpr(c, e)
    requires Both(w, hs, pc, GenExpr(e, env).value, ExprHeights(e, n, v))
    requires Is(hs, pc + |GenExpr(e, env).value|, n + 1, v)
    ensures FitIn(w, hs, pc, pc + |GenExpr(e, env).value|)
    decreases e, 0
  {
    hide BuiltinOf, Both, FitIn, Is, Entered, CallCode, ReturnsValue;
    var k := |e.args|;
    var args, call := GenExprs(e.args, env).value, CallCode(e.callee, k, env).value;
    var ha, hc := ArgHeights(e.args, n, v), StoreHeights(k, n, v) + [Live(n, v), Dead, Dead];
    ArgsLength(c, e.args, env, n, v);
    assert ExprHeights(e, n, v) == ha + hc;
    BothSplit(w, hs, pc, args, call, ha, hc);
    IsSlot(hs, pc + |args|, n + k, v);
    assert |call| == 2 * k + 3;
    ArgsFit(c, w, hs, pc, e.args, env, n, v);
    CallFits(c, w, hs, pc + |args|, e.callee, k, env, n, v);
    FitJoin(w, hs, pc, pc + |args|, pc + |args| + |call|);
  }

  lemma {:induction false} ArgsFit<W>(c: Ctx<W>, w: seq<byte>, hs: seq<Slot>, pc: nat, es: seq<Expr>, env: Env,
                                      n: nat, v: bool)
    requires Entered(c, hs, env.addrs) && GenExprs(es, env).Ok? && ValueExprs(c, es)
    requires Both(w, hs, pc, GenExprs(es, env).value, ArgHeights(es, n, v))
    requires Is(hs, pc + |GenExprs(es, env).value|, n + |es|, v)
    ensures FitIn(w, hs, pc, pc + |GenExprs(es, env).value|)
    decreases es, 0
  {
    hide Both, FitIn, Is, Entered, GenExpr, ExprHeights, ValueExpr;
    if es == [] {
      FitNothing(w, hs, pc);
    } else {
      var first, rest := GenExpr(es[0], env).value, GenExprs(es[1..], env).value;
      ExprLength(c, es[0], env, n, v);
      BothSplit(w, hs, pc, first, rest, ExprHeights(es[0], n, v), ArgHeights(es[1..], n + 1, v));
      if |es| > 1 {
        IsSlot(hs, pc + |first|, n + 1, v);
      }
      ExprFits(c, w, hs, pc, es[0], env, n, v);
      ArgsFit(c, w, hs, pc + |first|, es[1..], env, n + 1, v);
      FitJoin(w, hs, pc, pc + |first|, pc + |first| + |rest|);
    }
  }

  lemma JumpFits(w: seq<byte>, hs: seq<Slot>, pc: nat, op: byte, offset: int, n: nat, v: bool)
    requires op in {JMP, JMP_IF_FALSE} && -0x8000 <= offset < 0x8000 && n == (if op == JMP then 0 else 1)
    requires Both(w, hs, pc, [op] + I16Bytes(offset), [Live(n, v), Dead, Dead])
    requires Is(hs, pc + 1 + offset, 0, v) && (op == JMP_IF_FALSE ==> Is(hs, pc + 3, 0, v))
    ensures FitIn(w, hs, pc, pc + 3)
  {
    hide I16At, I16Bytes;
    BothAt(w, hs, pc, [op] + I16Bytes(offset), [Live(n, v), Dead, Dead]);
    assert w[pc + 1..pc + 3] == I16Bytes(offset);
    I16RoundTrip(w, pc + 1, offset);
    assert Fits(w, hs, pc);
  }

  /** A value for an instruction that takes it and ends on the height of the entry. */
  lemma ThenOneFits<W>(c: Ctx<W>, w: seq<byte>, hs: seq<Slot>, pc: nat, e: Expr, env: Env, op: seq<byte>,
                       slots: seq<Slot>, v: bool)
    requires Entered(c, hs, env.addrs) && GenExpr(e, env).Ok? && ValueExpr(c, e)
    requires Both(w, hs, pc, GenExpr(e, env).value + op, ExprHeights(e, 0, v) + slots)
    requires slots != [] && slots[0] == Live(1, v)
    requires FitIn(w, hs, pc + |GenExpr(e, env).value|, pc + |GenExpr(e, env).value| + |op|)
    ensures FitIn(w, hs, pc, pc + |GenExpr(e, env).value| + |op|)
  {
    hide Both, FitIn, Is, Entered, GenExpr, ExprHeights, ValueExpr;
    var code := GenExpr(e, env).value;
    ExprLength(c, e, env, 0, v);
    BothSplit(w, hs, pc, code, op, ExprHeights(e, 0, v), slots);
    IsSlot(hs, pc + |code|, 1, v);
    ExprFits(c, w, hs, pc, e, env, 0, v);
    FitJoin(w, hs, pc, pc + |code|, pc + |code| + |op|);
  }

  lemma StoredFits<W>(c: Ctx<W>, w: seq<byte>, hs: seq<Slot>, pc: nat, e: Expr, name: string, env: Env, v: bool)
    requires Entered(c, hs, env.addrs) && GenExpr(e, env).Ok? && ValueExpr(c, e)
    requires LocalCode(STORE_LOCAL, env.locals, name).Ok?
    requires var code := GenExpr(e, env).value + LocalCode(STORE_LOCAL, env.locals, name).value;
             Both(w, hs, pc, code, ExprHeights(e, 0, v) + [Live(1, v), Dead]) && Is(hs, pc + |code|, 0, v)
    ensures FitIn(w, hs, pc, pc + |GenExpr(e, env).value| + 2) && |LocalCode(STORE_LOCAL, env.locals, name).value| == 2
  {
    hide Both, FitIn, Is, Entered, GenExpr, ExprHeights, ValueExpr;
    var code, store := GenExpr(e, env).value, LocalCode(STORE_LOCAL, env.locals, name).value;
    ExprLength(c, e, env, 0, v);
    BothSplit(w, hs, pc, code, store, ExprHeights(e, 0, v), [Live(1, v), Dead]);
    OneFits(w, hs, pc + |code|, store, [Live(1, v), Dead], 1, v);
    ThenOneFits(c, w, hs, pc, e, env, store, [Live(1, v), Dead], v);
  }

  /** A condition and the jump over what depends on it. */
  lemma ConditionFits<W>(c: Ctx<W>, w: seq<byte>, hs: seq<Slot>, pc: nat, e: Expr, env: Env, offset: int, v: bool)
    requires Entered(c, hs, env.addrs) && GenExpr(e, env).Ok? && ValueExpr(c, e) && -0x8000 <= offset < 0x8000
    requires var code := GenExpr(e, env).value;
             Both(w, hs, pc, code + ([JMP_IF_FALSE] + I16Bytes(offset)),
                  ExprHeights(e, 0, v) + [Live(1, v), Dead, Dead])
             && Is(hs, pc + |code| + 1 + offset, 0, v) && Is(hs, pc + |code| + 3, 0, v)
    ensures FitIn(w, hs, pc, pc + |GenExpr(e, env).value| + 3)
  {
    hide Both, FitIn, Is, Entered, GenExpr, ExprHeights, ValueExpr, I16Bytes;
    var code, skip := GenExpr(e, env).value, [JMP_IF_FALSE] + I16Bytes(offset);
    ExprLength(c, e, env, 0, v);
    BothSplit(w, hs, pc, code, skip, ExprHeights(e, 0, v), [Live(1, v), Dead, Dead]);
    JumpFits(w, hs, pc + |code|, JMP_IF_FALSE, offset, 1, v);
    ThenOneFits(c, w, hs, pc, e, env, skip, [Live(1, v), Dead, Dead], v);
  }

  /** What the end of a statement must be: a place that its function reaches with no operands, unless it returns. */
  ghost predicate Leads(hs: seq<Slot>, s: Stmt, end: nat, v: bool) {
    s.Return? || s.ReturnVoid? || Is(hs, end, 0, v)
  }

  lemma {:induction false} StmtFits<W>(c: Ctx<W>, w: seq<byte>, hs: seq<Slot>, pc: nat, s: Stmt, env: Env, v: bool)
    requires Entered(c, hs, env.addrs) && GenStmt(s, env).Ok? && InFragment(c, s) && (v ==> NoVoidReturn(s))
    requires Both(w, hs, pc, GenStmt(s, env).value, StmtHeights(s, v))
    requires Leads(hs, s, pc + |GenStmt(s, env).value|, v)
    ensures FitIn(w, hs, pc, pc + |GenStmt(s, env).value|)
    decreases s, 1
  {
    hide Both, FitIn, Is, Entered, GenExpr, ExprHeights, ValueExpr, LocalCode, ActionOf, ExprPushes, I16Bytes;
    match s
    case VarDecl(name, init) => StoredFits(c, w, hs, pc, init, name, env, v);
    case Assign(name, val) => StoredFits(c, w, hs, pc, val, name, env, v);
    case ExprStmt(e) => ExprStmtFits(c, w, hs, pc, e, env, v);
    case IfThen(cond, thn) => IfThenFits(c, w, hs, pc, s, env, v);
    case IfElse(cond, thn, els) => IfElseFits(c, w, hs, pc, s, env, v);
    case While(cond, body) => WhileFits(c, w, hs, pc, s, env, v);
    case ReturnVoid => ReturnFits(w, hs, pc, 0, v);
    case Return(res) =>
      var code := GenExpr(res, env).value;
      ExprLength(c, res, env, 0, v);
      BothSplit(w, hs, pc, code, [RETURN], ExprHeights(res, 0, v), [Live(1, v)]);
      ReturnFits(w, hs, pc + |code|, 1, v);
      ThenOneFits(c, w, hs, pc, res, env, [RETURN], [Live(1, v)], v);
  }

  lemma ReturnFits(w: seq<byte>, hs: seq<Slot>, pc: nat, n: nat, v: bool)
    requires Both(w, hs, pc, [RETURN], [Live(n, v)]) && (n == 1 || (n == 0 && !v))
    ensures FitIn(w, hs, pc, pc + 1)
  {
    hide Both;
    BothAt(w, hs, pc, [RETURN], [Live(n, v)]);
    assert Fits(w, hs, pc);
  }

  lemma ExprStmtFits<W>(c: Ctx<W>, w: seq<byte>, hs: seq<Slot>, pc: nat, e: Expr, env: Env, v: bool)
    requires Entered(c, hs, env.addrs) && GenStmt(ExprStmt(e), env).Ok? && InFragment(c, ExprStmt(e))
    requires Both(w, hs, pc, GenStmt(ExprStmt(e), env).value, StmtHeights(ExprStmt(e), v))
    requires Is(hs, pc + |GenStmt(ExprStmt(e), env).value|, 0, v)
    ensures FitIn(w, hs, pc, pc + |GenStmt(ExprStmt(e), env).value|)
  {
    hide Both, FitIn, Is, Entered, GenExpr, ExprHeights, ValueExpr, ExprPushes;
    PushesUnlessAction(e);
    var code := GenExpr(e, env).value;
    if ActionOf(e).Some? {
      assert ExprHeights(e, 0, v) + [] == ExprHeights(e, 0, v);
      BuiltinFits(c, w, hs, pc, e, env, 0, v);
    } else {
      ExprLength(c, e, env, 0, v);
      BothSplit(w, hs, pc, code, [POP], ExprHeights(e, 0, v), [Live(1, v)]);
      OneFits(w, hs, pc + |code|, [POP], [Live(1, v)], 1, v);
      ThenOneFits(c, w, hs, pc, e, env, [POP], [Live(1, v)], v);
    }
  }

  lemma {:induction false} IfThenFits<W>(c: Ctx<W>, w: seq<byte>, hs: seq<Slot>, pc: nat, s: Stmt, env: Env, v: bool)
    requires Entered(c, hs, env.addrs) && s.IfThen? && GenStmt(s, env).Ok? && InFragment(c, s)
    requires (v ==> NoVoidReturn(s))
    requires Both(w, hs, pc, GenStmt(s, env).value, StmtHeights(s, v)) && Is(hs, pc + |GenStmt(s, env).value|, 0, v)
    ensures FitIn(w, hs, pc, pc + |GenStmt(s, env).value|)
    decreases s, 0
  {
    hide Both, FitIn, Is, Entered, GenExpr, ExprHeights, ValueExpr, I16Bytes;
    var e, t := GenExpr(s.cond, env).value, GenStmts(s.thn, env).value;
    var test := e + ([JMP_IF_FALSE] + I16Bytes(2 + |t|));
    var ht := ExprHeights(s.cond, 0, v) + [Live(1, v), Dead, Dead];
    ExprLength(c, s.cond, env, 0, v);
    BothSplit(w, hs, pc, test, t, ht, BodyHeights(s.thn, v));
    if s.thn != [] {
      IsSlot(hs, pc + |test|, 0, v);
    }
    ConditionFits(c, w, hs, pc, s.cond, env, 2 + |t|, v);
    BodyFits(c, w, hs, pc + |test|, s.thn, env, v);
    FitJoin(w, hs, pc, pc + |test|, pc + |test| + |t|);
  }

  lemma {:induction false} IfElseFits<W>(c: Ctx<W>, w: seq<byte>, hs: seq<Slot>, pc: nat, s: Stmt, env: Env, v: bool)
    requires Entered(c, hs, env.addrs) && s.IfElse? && GenStmt(s, env).Ok? && InFragment(c, s)
    requires (v ==> NoVoidReturn(s))
    requires Both(w, hs, pc, GenStmt(s, env).value, StmtHeights(s, v)) && Is(hs, pc + |GenStmt(s, env).value|, 0, v)
    ensures FitIn(w, hs, pc, pc + |GenStmt(s, env).value|)
    decreases s, 0
  {
    hide Both, FitIn, Is, Entered, GenExpr, ExprHeights, ValueExpr, I16Bytes;
    var e, t, f := GenExpr(s.cond, env).value, GenStmts(s.thn, env).value, GenStmts(s.els, env).value;
    var test, over := e + ([JMP_IF_FALSE] + I16Bytes(2 + |t| + 3)), [JMP] + I16Bytes(2 + |f|);
    var ht, ho := ExprHeights(s.cond, 0, v) + [Live(1, v), Dead, Dead], [Live(0, v), Dead, Dead];
    var hb, hf := BodyHeights(s.thn, v), BodyHeights(s.els, v);
    ExprLength(c, s.cond, env, 0, v);
    BodyLength(c, s.thn, env, v);
    BothSplit(w, hs, pc, test + t + over, f, ht + hb + ho, hf);
    BothSplit(w, hs, pc, test + t, over, ht + hb, ho);
    BothSplit(w, hs, pc, test, t, ht, hb);
    IsSlot(hs, pc + |test| + |t|, 0, v);
    if s.thn != [] {
      IsSlot(hs, pc + |test|, 0, v);
    }
    var els := pc + |test| + |t| + 3;
    if s.els != [] {
      IsSlot(hs, els, 0, v);
    }
    ConditionFits(c, w, hs, pc, s.cond, env, 2 + |t| + 3, v);
    BodyFits(c, w, hs, pc + |test|, s.thn, env, v);
    JumpFits(w, hs, pc + |test| + |t|, JMP, 2 + |f|, 0, v);
    BodyFits(c, w, hs, els, s.els, env, v);
    FitJoin(w, hs, pc, pc + |test|, pc + |test| + |t|);
    FitJoin(w, hs, pc, pc + |test| + |t|, els);
    FitJoin(w, hs, pc, els, els + |f|);
  }

  lemma {:induction false} WhileFits<W>(c: Ctx<W>, w: seq<byte>, hs: seq<Slot>, pc: nat, s: Stmt, env: Env, v: bool)
    requires Entered(c, hs, env.addrs) && s.While? && GenStmt(s, env).Ok? && InFragment(c, s) && (v ==> NoVoidReturn(s))
    requires Both(w, hs, pc, GenStmt(s, env).value, StmtHeights(s, v)) && Is(hs, pc + |GenStmt(s, env).value|, 0, v)
    ensures FitIn(w, hs, pc, pc + |GenStmt(s, env).value|)
    decreases s, 0
  {
    hide Both, FitIn, Is, Entered, GenExpr, ExprHeights, ValueExpr, I16Bytes;
    var e, t := GenExpr(s.cond, env).value, GenStmts(s.body, env).value;
    var test, back := e + ([JMP_IF_FALSE] + I16Bytes(2 + |t| + 3)), [JMP] + I16Bytes(-(|e| + 3 + |t| + 1));
    var ht, ho := ExprHeights(s.cond, 0, v) + [Live(1, v), Dead, Dead], [Live(0, v), Dead, Dead];
    var hb := BodyHeights(s.body, v);
    ExprLength(c, s.cond, env, 0, v);
    BothSplit(w, hs, pc, test + t, back, ht + hb, ho);
    BothSplit(w, hs, pc, test, t, ht, hb);
    IsSlot(hs, pc + |test| + |t|, 0, v);
    if s.body != [] {
      IsSlot(hs, pc + |test|, 0, v);
    }
    BothStarts(w, hs, pc, GenStmt(s, env).value, StmtHeights(s, v));
    IsSlot(hs, pc, 0, v);
    ConditionFits(c, w, hs, pc, s.cond, env, 2 + |t| + 3, v);
    BodyFits(c, w, hs, pc + |test|, s.body, env, v);
    JumpFits(w, hs, pc + |test| + |t|, JMP, -(|e| + 3 + |t| + 1), 0, v);
    FitJoin(w, hs, pc, pc + |test|, pc + |test| + |t|);
    FitJoin(w, hs, pc, pc + |test| + |t|, pc + |test| + |t| + 3);
  }

  /** The end of a body, which one that ends by returning does not reach. */
  lemma {:induction false} BodyFits<W>(c: Ctx<W>, w: seq<byte>, hs: seq<Slot>, pc: nat, ss: seq<Stmt>, env: Env,
                                       v: bool)
    requires Entered(c, hs, env.addrs) && GenStmts(ss, env).Ok? && AllInFragment(c, ss) && (v ==> NoVoidReturns(ss))
    requires Both(w, hs, pc, GenStmts(ss, env).value, BodyHeights(ss, v))
    requires (ss != [] && ss[|ss| - 1].Return?) || Is(hs, pc + |GenStmts(ss, env).value|, 0, v)
    ensures FitIn(w, hs, pc, pc + |GenStmts(ss, env).value|)
    decreases ss, 0
  {
    hide Both, FitIn, Is, Entered, GenStmt, StmtHeights, InFragment, NoVoidReturn;
    if ss == [] {
      FitNothing(w, hs, pc);
    } else {
      var first, rest := GenStmt(ss[0], env).value, GenStmts(ss[1..], env).value;
      StmtLength(c, ss[0], env, v);
      BothSplit(w, hs, pc, first, rest, StmtHeights(ss[0], v), BodyHeights(ss[1..], v));
      if |ss| == 1 {
        StmtFits(c, w, hs, pc, ss[0], env, v);
      } else {
        IsSlot(hs, pc + |first|, 0, v);
        StmtFits(c, w, hs, pc, ss[0], env, v);
        BodyFits(c, w, hs, pc + |first|, ss[1..], env, v);
        FitJoin(w, hs, pc, pc + |first|, pc + |first| + |rest|);
      }
    }
  }

  // ---- Functions and programs ----

  lemma FunctionFits<W>(c: Ctx<W>, w: seq<byte>, hs: seq<Slot>, pc: nat, f: FunctionDef, funs: map<string, FunInfo>,
                        addrs: map<string, nat>)
    requires Entered(c, hs, addrs) && GenFunction(f, funs, addrs).Ok? && AllInFragment(c, f.body)
    requires Both(w, hs, pc, GenFunction(f, funs, addrs).value, FunctionHeights(f))
    ensures FitIn(w, hs, pc, pc + |GenFunction(f, funs, addrs).value|)
  {
    hide Both, FitIn, Is, Entered, GenStmts, BodyHeights, AllInFragment, NoVoidReturns, Fits;
    var v := ReturnsValue(f.body);
    var env := Env(funs[f.name].locals, funs, addrs);
    var code := GenStmts(f.body, env).value;
    var last := if v then Dead else Live(0, v);
    BodyLength(c, f.body, env, v);
    BothSplit(w, hs, pc, code, [RETURN], BodyHeights(f.body, v), [last]);
    if v {
      DeadFits(w, hs, pc + |code|);
    } else {
      IsSlot(hs, pc + |code|, 0, v);
      ReturnFits(w, hs, pc + |code|, 0, v);
    }
    BodyFits(c, w, hs, pc, f.body, env, v);
    FitJoin(w, hs, pc, pc + |code|, pc + |code| + 1);
  }

  lemma DeadFits(w: seq<byte>, hs: seq<Slot>, pc: nat)
    requires |w| == |hs| && pc < |hs| && hs[pc] == Dead
    ensures FitIn(w, hs, pc, pc + 1)
  {
    hide Fits;
  }

  lemma FunctionLength<W>(c: Ctx<W>, f: FunctionDef, funs: map<string, FunInfo>, addrs: map<string, nat>)
    requires GenFunction(f, funs, addrs).Ok? && AllInFragment(c, f.body)
    ensures |FunctionHeights(f)| == |GenFunction(f, funs, addrs).value|
  {
    hide AllInFragment, GenStmts, BodyHeights;
    BodyLength(c, f.body, Env(funs[f.name].locals, funs, addrs), ReturnsValue(f.body));
  }

  lemma {:induction false} FunctionsLength<W>(c: Ctx<W>, fs: seq<FunctionDef>, funs: map<string, FunInfo>,
                                              addrs: map<string, nat>, base: nat)
    requires GenFunctions(fs, funs, addrs, base).Ok? && forall i :: 0 <= i < |fs| ==> AllInFragment(c, fs[i].body)
    ensures |FunctionsHeights(fs)| == |GenFunctions(fs, funs, addrs, base).value.code|
  {
    hide AllInFragment, GenFunction, FunctionHeights;
    if fs != [] {
      var near := addrs[fs[0].name := base];
      var first := GenFunction(fs[0], funs, near).value;
      FunctionLength(c, fs[0], funs, near);
      assert forall i :: 0 <= i < |fs[1..]| ==> fs[1..][i] == fs[i + 1];
      FunctionsLength(c, fs[1..], funs, near, base + |first|);
    }
  }

  ghost predicate DefinedInFragment<W>(c: Ctx<W>, f: FunctionDef) {
    AllInFragment(c, f.body) && f.name in c.defs && c.defs[f.name] == f
  }

  /** Laying out the functions: all of them fit, and all are entered at height 0. */
  lemma {:induction false} FunctionsFit<W>(c: Ctx<W>, w: seq<byte>, hs: seq<Slot>, fs: seq<FunctionDef>,
                                           funs: map<string, FunInfo>,
                                           addrs: map<string, nat>, base: nat)
    requires Entered(c, hs, addrs) && GenFunctions(fs, funs, addrs, base).Ok?
    requires forall i :: 0 <= i < |fs| ==> DefinedInFragment(c, fs[i])
    requires Both(w, hs, base, GenFunctions(fs, funs, addrs, base).value.code, FunctionsHeights(fs))
    ensures var image := GenFunctions(fs, funs, addrs, base).value;
            FitIn(w, hs, base, base + |image.code|) && Entered(c, hs, image.addrs)
  {
    hide Both, FitIn, Is, Entered, AllInFragment, GenFunction, FunctionHeights, ReturnsValue;
    if fs == [] {
      FitNothing(w, hs, base);
    } else {
      var f := fs[0];
      var near := addrs[f.name := base];
      var first := GenFunction(f, funs, near).value;
      var rest := GenFunctions(fs[1..], funs, near, base + |first|).value;
      assert forall i :: 0 <= i < |fs[1..]| ==> fs[1..][i] == fs[i + 1];
      FunctionLength(c, f, funs, near);
      BothSplit(w, hs, base, first, rest.code, FunctionHeights(f), FunctionsHeights(fs[1..]));
      BothStarts(w, hs, base, first, FunctionHeights(f));
      OneMoreEntered(c, hs, addrs, f, base);
      FunctionFits(c, w, hs, base, f, funs, near);
      FunctionsFit(c, w, hs, fs[1..], funs, near, base + |first|);
      FitJoin(w, hs, base, base + |first|, base + |first| + |rest.code|);
    }
  }

  lemma OneMoreEntered<W>(c: Ctx<W>, hs: seq<Slot>, addrs: map<string, nat>, f: FunctionDef, base: nat)
    requires Entered(c, hs, addrs) && f.name in c.defs && c.defs[f.name] == f
    requires base < |hs| && hs[base] == Live(0, ReturnsValue(f.body))
    ensures Entered(c, hs, addrs[f.name := base])
  {
  }

  /** The code of a program of the fragment checks against its static heights. */
  lemma CompiledChecks<W(!new)>(p: Program, h: M.Handler<W>)
    requires InScope(p, h)
    ensures Checked(Compiler.Binary(p).code, HeightsOf(p))
  {
    hide M.WellBehaved, Analyze, Generate, ProgramInFragment;
    AnalyzeGives(p);
    var funs := Analyze(p).value;
    var prefix, image := GeneratedShape(p, funs);
    hide GenFunctions, FunctionsHeights, AllInFragment, DefsOf, DistinctFunctions, Both, FitIn, Checked, I16Bytes;
    FunctionsInFragment(p, Meaning(p, h));
    ImageChecks(Meaning(p, h), p.functions, funs, prefix, image);
  }

  lemma FunctionsInFragment<W>(p: Program, c: Ctx<W>)
    requires DistinctFunctions(p.functions) && c.defs == DefsOf(p.functions) && ProgramInFragment(c)
    ensures forall i :: 0 <= i < |p.functions| ==> DefinedInFragment(c, p.functions[i])
  {
    hide AllInFragment, DefsOf, DistinctFunctions;
    forall i | 0 <= i < |p.functions|
      ensures DefinedInFragment(c, p.functions[i])
    {
      DefIs(p.functions, i);
    }
  }

  lemma ImageChecks<W>(c: Ctx<W>, fs: seq<FunctionDef>, funs: map<string, FunInfo>, prefix: seq<byte>, image: Image)
    requires |prefix| == 4 && GenFunctions(fs, funs, map[], 4) == Ok(image)
    requires forall i :: 0 <= i < |fs| ==> DefinedInFragment(c, fs[i])
    requires "main" in image.addrs && image.addrs["main"] < 0x8000
    requires At(prefix + image.code, 0, [CALL] + I16Bytes(image.addrs["main"])) && At(prefix + image.code, 3, [HALT])
    ensures Checked(prefix + image.code, [Dead, Dead, Dead, Dead] + FunctionsHeights(fs))
  {
    hide GenFunctions, FunctionsHeights, AllInFragment, Both, FitIn, Checked, I16Bytes, Entered, At;
    var w, hs := prefix + image.code, [Dead, Dead, Dead, Dead] + FunctionsHeights(fs);
    FunctionsLength(c, fs, funs, map[], 4);
    ImageStands(prefix, image.code, FunctionsHeights(fs));
    NoneEntered(c, hs);
    FunctionsFit(c, w, hs, fs, funs, map[], 4);
    assert forall i :: 0 <= i < 4 ==> hs[i] == Dead;
    PrefixChecks(c, w, hs, image.addrs);
  }

  lemma NoneEntered<W>(c: Ctx<W>, hs: seq<Slot>)
    ensures Entered(c, hs, map[])
  {
  }

  lemma ImageStands(prefix: seq<byte>, code: seq<byte>, slots: seq<Slot>)
    requires |prefix| == 4 && |code| == |slots|
    ensures Both(prefix + code, [Dead, Dead, Dead, Dead] + slots, 4, code, slots)
  {
    assert (prefix + code)[4..4 + |code|] == code;
    var hs := [Dead, Dead, Dead, Dead] + slots;
    assert hs[4..4 + |slots|] == slots;
  }

  lemma PrefixChecks<W>(c: Ctx<W>, w: seq<byte>, hs: seq<Slot>, addrs: map<string, nat>)
    requires |w| == |hs| >= 4 && FitIn(w, hs, 4, |w|) && Entered(c, hs, addrs)
    requires "main" in addrs && addrs["main"] < 0x8000 && At(w, 0, [CALL] + I16Bytes(addrs["main"])) && At(w, 3, [HALT])
    requires forall i :: 0 <= i < 4 ==> hs[i] == Dead
    ensures Checked(w, hs)
  {
    hide Fits, U16At;
    AtOpcode(w, 0, CALL, I16Bytes(addrs["main"]));
    AtOpcode(w, 3, HALT, []);
    U16RoundTrip(w, 1, addrs["main"]);
    assert Is(hs, U16At(w, 1), 0, ReturnsValue(c.defs["main"].body));
  }

  lemma {:induction false} DefIs(fs: seq<FunctionDef>, i: nat)
    requires i < |fs| && DistinctFunctions(fs)
    ensures fs[i].name in DefsOf(fs) && DefsOf(fs)[fs[i].name] == fs[i]
  {
    if i > 0 {
      assert fs[1..][i - 1] == fs[i];
      DefIs(fs[1..], i - 1);
    }
  }

  /**
   The operand height is a function of the program counter: in every tick of a compiled program of the fragment, from
   every store, wherever the budget stops it, the operand stack has exactly the size that the static heights at the
   program counter and the return addresses give.
   */
  lemma TickHeights<W(!new)>(p: Program, h: M.Handler<W>, st: Store<W>, b: nat)
    requires InScope(p, h) && |st.locals| == M.MAX_LOCALS
    ensures var r := RunTick(p, h, st, b);
            r.status != M.StackUnderflow && (r.status == M.BudgetExhausted ==> Accounted(HeightsOf(p), r.state))
  {
    hide M.Run, M.WellBehaved, Analyze, Generate, Checked, HeightsOf;
    CompiledChecks(p, h);
    RunAccounted(Compiler.Binary(p), Some(h), HeightsOf(p), Start(st), b);
  }

  /** Heights of at most 8, seen at compile time, leave room for every push of every tick. */
  lemma LowHeightsSuffice<W(!new)>(p: Program, h: M.Handler<W>, st: Store<W>, b: nat)
    requires InScope(p, h) && |st.locals| == M.MAX_LOCALS && AtMost(HeightsOf(p), 8)
    ensures RunTick(p, h, st, b).status !in {M.StackOverflow, M.StackOverrun}
  {
    hide M.Run, M.WellBehaved, Analyze, Generate, Checked, HeightsOf, AtMost;
    CompiledChecks(p, h);
    RunInRoom(Compiler.Binary(p), Some(h), HeightsOf(p), Start(st), b);
  }
}
