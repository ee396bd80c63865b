/** Generated code, run by the VM, does exactly what the big-step semantics says. */
module Correctness {
  import opened Words
  import opened Ast
  import opened Tables
  import opened Opcodes
  import M = Machine
  import opened Instructions
  import opened Semantics
  import opened Codegen

  /** A loaded program: its code, the addresses of its functions and its meaning. */
  datatype Linked<!W> = Linked(bc: M.Bytecode, addrs: map<string, nat>, ctx: Ctx<W>)

  ghost predicate FunctionAt<W>(k: Linked<W>, name: string)
    requires name in k.ctx.defs
  {
    && name in k.addrs && name in k.ctx.funs
    && k.ctx.defs[name].name == name
    && k.addrs[name] < 0x1_0000
    && SlotsFit(k, k.ctx.funs[name].locals)
    && var c := GenFunction(k.ctx.defs[name], k.ctx.funs, k.addrs);
       c.Ok? && At(k.bc.code, k.addrs[name], c.value)
  }

  /** Every function stands at its address, compiled against the final addresses. */
  ghost predicate WellLinked<W(!new)>(k: Linked<W>)
    ensures WellLinked(k) ==> M.WellBehaved(k.ctx.handler) && k.bc.localCount <= M.MAX_LOCALS
  {
    && M.WellBehaved(k.ctx.handler)
    && k.bc.localCount <= M.MAX_LOCALS
    && (forall f :: f in k.ctx.defs ==> FunctionAt(k, f))
    && ProgramInFragment(k.ctx)
  }

  ghost predicate SlotsFit<W>(k: Linked<W>, names: seq<string>)
    ensures SlotsFit(k, names) ==> Distinct(names) && |names| <= k.bc.localCount
  {
    Distinct(names) && |names| <= k.bc.localCount
  }

  function EnvOf<W>(k: Linked<W>, names: seq<string>): Env {
    Env(names, k.ctx.funs, k.addrs)
  }

  function StoreOf<W>(s: M.State<W>): Store<W> {
    Store(s.locals, s.world)
  }

  ghost function RunOn<W>(k: Linked<W>, s: M.State<W>, b: nat): M.Outcome<W>
    requires |s.locals| == M.MAX_LOCALS
  {
    M.Run(k.bc, Some(k.ctx.handler), s, b)
  }

  function Put<W>(s: M.State<W>, st: Store<W>): M.State<W> {
    s.(locals := st.locals, world := st.world)
  }

  /** The run ends as the source program does. */
  ghost predicate Ends<W>(r: M.Outcome<W>, status: M.Status, st: Store<W>, left: nat) {
    r.status == status && StoreOf(r.state) == st && r.left == left
  }

  /** Running n bytes of code from s pushes the values of the outcome. */
  ghost predicate Simulates<W>(k: Linked<W>, s: M.State<W>, b: nat, n: nat, pushed: seq<int32>, o: Out<W, ()>)
    requires |s.locals| == M.MAX_LOCALS && o.Within(b)
  {
    match o
    case Wrong => false
    case Abort(status, st, left) => Ends(RunOn(k, s, b), status, st, left)
    case Done(_, st, left) =>
      RunOn(k, s, b) == RunOn(k, Put(Moved(s, n).(stack := s.stack + pushed), st), left)
  }

  function Forget<W, T>(o: Out<W, T>): Out<W, ()> {
    match o
    case Wrong => Wrong
    case Abort(status, st, left) => Abort(status, st, left)
    case Done(_, st, left) => Done((), st, left)
  }

  ghost predicate SimExpr<W>(k: Linked<W>, s: M.State<W>, b: nat, n: nat, o: Out<W, int32>)
    requires |s.locals| == M.MAX_LOCALS && o.Within(b)
  {
    Simulates(k, s, b, n, if o.Done? then [o.value] else [], Forget(o))
  }

  ghost predicate SimExprs<W>(k: Linked<W>, s: M.State<W>, b: nat, n: nat, o: Out<W, seq<int32>>)
    requires |s.locals| == M.MAX_LOCALS && o.Within(b)
  {
    Simulates(k, s, b, n, if o.Done? then o.value else [], Forget(o))
  }

  /** Back in the caller, with the result of the call on top of the caller's operands. */
  function Resume<W>(s: M.State<W>, result: Option<int32>, st: Store<W>): M.State<W>
    requires |s.frames| > 0
  {
    Put(s.(pc := s.frames[|s.frames| - 1], frames := s.frames[..|s.frames| - 1],
           stack := s.stack + (if result.Some? then [result.value] else [])), st)
  }

  ghost predicate SimStmt<W>(k: Linked<W>, s: M.State<W>, b: nat, n: nat, o: Out<W, Flow>)
    requires |s.locals| == M.MAX_LOCALS && o.Within(b) && |s.frames| > 0
  {
    if o.Done? && o.value.Leave? then
      RunOn(k, s, b) == RunOn(k, Resume(s, o.value.result, o.st), o.left)
    else
      Simulates(k, s, b, n, [], Forget(o))
  }

  // ---- Expressions ----

  lemma SimLocalLoad<W(!new)>(k: Linked<W>, names: seq<string>, name: string, s: M.State<W>, b: nat)
    requires WellLinked(k) && SlotsFit(k, names) && Ready(s)
    requires var c := LocalCode(LOAD_LOCAL, names, name); c.Ok? && At(k.bc.code, s.pc, c.value)
    ensures SimExpr(k, s, b, 2, Eval(k.ctx, names, Var(name), StoreOf(s), |s.stack|, |s.frames|, b))
  {
    hide M.Run, WellLinked, SlotsFit, At;
    var slot := SlotOf(names, name).value;
    RunLoad(k.bc, Some(k.ctx.handler), s, b, slot);
  }

  lemma SimDefine<W(!new)>(k: Linked<W>, names: seq<string>, name: string, s: M.State<W>, b: nat, v: int32,
                           below: seq<int32>)
    requires WellLinked(k) && SlotsFit(k, names) && Ready(s) && s.stack == below + [v]
    requires var c := LocalCode(STORE_LOCAL, names, name); c.Ok? && At(k.bc.code, s.pc, c.value)
    ensures var o := Define(k.ctx, names, name, Done(v, StoreOf(s), b));
            match o
            case Wrong => false
            case Abort(status, st, left) => Ends(RunOn(k, s, b), status, st, left)
            case Done(flow, st, left) =>
              flow == Next && RunOn(k, s, b) == RunOn(k, Put(Moved(s, 2).(stack := below), st), left)
  {
    hide M.Run, WellLinked, SlotsFit, At;
    var slot := SlotOf(names, name).value;
    RunStore(k.bc, Some(k.ctx.handler), s, b, slot);
    assert Below(s.stack) == below;
  }

  /** One or two instructions compute the meaning of a binary operator. */
  lemma SimBinary<W(!new)>(k: Linked<W>, op: BinOp, s: M.State<W>, b: nat, below: seq<int32>, x: int32, y: int32)
    requires WellLinked(k) && Ready(s) && s.stack == below + [x, y] && At(k.bc.code, s.pc, BinaryCode(op))
    ensures var o := Combine(op, x, Done(y, StoreOf(s), b));
            if o.Done? then RunOn(k, s, b) == RunOn(k, Moved(s, |BinaryCode(op)|).(stack := below + [o.value]), o.left)
            else Ends(RunOn(k, s, b), o.status, o.st, o.left)
  {
    hide M.Run, M.Step, Wrap, TruncDiv, TruncMod, WellLinked, At;
    var h := Some(k.ctx.handler);
    if BinaryCost(op) == 2 {
      var op1 := BinaryCode(op)[0];
      assert BinaryCode(op) == [op1] + [NOT];
      AtSplit(k.bc.code, s.pc, [op1], [NOT]);
      RunBinary(k.bc, h, s, b, op1, below, x, y);
      if b >= 1 {
        var v := M.Arith(op1, x, y).value;
        RunUnary(k.bc, h, Moved(s, 1).(stack := below + [v]), b - 1, NOT, below, v);
      }
    } else {
      var op1 := BinaryCode(op)[0];
      assert BinaryCode(op) == [op1];
      RunBinary(k.bc, h, s, b, op1, below, x, y);
    }
  }

  /** A value builtin is its intrinsic, then POPs that keep only its bottom result. */
  lemma BuiltinCodeIs(e: Expr, env: Env)
    requires e.Call? && BuiltinOf(e.callee).Some? && GenExpr(e, env).Ok?
    requires ValueIntrinsic(BuiltinOf(e.callee).value, e.args).Some?
    requires BuiltinOf(e.callee).value != MyTrait ==> e.args == []
    ensures var (i, n) := ValueIntrinsic(BuiltinOf(e.callee).value, e.args).value;
            GenExpr(e, env).value == IntrinsicBytes(i) + seq(n, _ => POP)
  {
    hide BuiltinOf;
    var (i, n) := ValueIntrinsic(BuiltinOf(e.callee).value, e.args).value;
    assert GenExprs([], env) == Ok([]);
    if n == 3 {
      assert seq(3, _ => POP) == [POP, POP, POP];
    } else {
      assert IntrinsicBytes(i) + seq(0, _ => POP) == IntrinsicBytes(i);
      assert [] + IntrinsicBytes(i) == IntrinsicBytes(i);
    }
  }

  lemma SimBuiltin<W(!new)>(k: Linked<W>, names: seq<string>, e: Expr, s: M.State<W>, b: nat)
    requires WellLinked(k) && Ready(s) && e.Call? && BuiltinOf(e.callee).Some? && ValueExpr(k.ctx, e)
    requires var c := GenExpr(e, EnvOf(k, names)); c.Ok? && At(k.bc.code, s.pc, c.value)
    ensures SimExpr(k, s, b, |GenExpr(e, EnvOf(k, names)).value|,
                    Eval(k.ctx, names, e, StoreOf(s), |s.stack|, |s.frames|, b))
  {
    hide M.Run, BuiltinOf, WellLinked, SlotsFit, At, GenExpr;
    var (i, n) := ValueIntrinsic(BuiltinOf(e.callee).value, e.args).value;
    var code := IntrinsicBytes(i);
    var pops := seq(n, _ => POP);
    BuiltinCodeIs(e, EnvOf(k, names));
    AtSplit(k.bc.code, s.pc, code, pops);
    RunIntrinsic(k.bc, k.ctx.handler, s, b, i);
    if b >= M.INTRINSIC_COST && |s.stack| + |k.ctx.handler(i, s.world).pushed| <= M.MAX_STACK {
      var reply := k.ctx.handler(i, s.world);
      var s1 := Moved(s, |code|).(stack := s.stack + reply.pushed, world := reply.world);
      assert |reply.pushed| == M.PushCount(i) == n + 1;
      RunPops(k.bc, Some(k.ctx.handler), s1, b - M.INTRINSIC_COST, n);
      assert s1.stack[..|s1.stack| - n] == s.stack + [reply.pushed[0]];
    }
  }

  lemma SimPassOne<W(!new)>(k: Linked<W>, names: seq<string>, s: M.State<W>, b: nat, below: seq<int32>, vs: seq<int32>)
    requires WellLinked(k) && SlotsFit(k, names) && Ready(s) && s.stack == below + vs && 0 < |vs|
    requires var c := StoreArgs(names, |vs|); c.Ok? && At(k.bc.code, s.pc, c.value)
    ensures |vs| <= M.MAX_LOCALS && StoreArgs(names, |vs| - 1).Ok?
    ensures var rest := StoreArgs(names, |vs| - 1).value;
            At(k.bc.code, s.pc + 2, rest) && |StoreArgs(names, |vs|).value| == 2 + |rest|
    ensures var last := |vs| - 1;
            RunOn(k, s, b) == if b < 1 then Broke(s, b)
                              else
                                var s' := Moved(s, 2);
                                RunOn(k, s'.(stack := below + vs[..last], locals := s.locals[last := vs[last]]), b - 1)
  {
    hide M.Run, WellLinked, SlotsFit, At;
    var last := |vs| - 1;
    SlotIsIndex(names, last);
    var rest := StoreArgs(names, last).value;
    assert StoreArgs(names, |vs|).value == [STORE_LOCAL, last] + rest;
    AtSplit(k.bc.code, s.pc, [STORE_LOCAL, last], rest);
    RunStore(k.bc, Some(k.ctx.handler), s, b, last);
    assert Below(s.stack) == below + vs[..last];
  }

  /** The stores before a CALL move the arguments from the stack into slots 0, 1, and so on. */
  lemma SimPass<W(!new)>(k: Linked<W>, names: seq<string>, s: M.State<W>, b: nat, below: seq<int32>, vs: seq<int32>)
    requires WellLinked(k) && SlotsFit(k, names) && Ready(s) && s.stack == below + vs
    requires var c := StoreArgs(names, |vs|); c.Ok? && At(k.bc.code, s.pc, c.value)
    ensures |vs| <= M.MAX_LOCALS
    ensures var o := Pass(vs, StoreOf(s), b);
            var r := RunOn(k, s, b);
            if o.Done? then r == RunOn(k, Put(Moved(s, |StoreArgs(names, |vs|).value|).(stack := below), o.st), o.left)
            else o.Abort? && Ends(r, o.status, o.st, o.left)
    decreases |vs|
  {
    hide M.Run, WellLinked, SlotsFit, At, StoreArgs;
    if vs == [] {
      StoreNoArgs(names);
      assert s.stack == below && Moved(s, 0).(stack := below) == s;
    } else {
      SimPassOne(k, names, s, b, below, vs);
      if b >= 1 {
        var last := |vs| - 1;
        var s1 := Moved(s, 2).(stack := below + vs[..last], locals := s.locals[last := vs[last]]);
        SimPass(k, names, s1, b - 1, below, vs[..last]);
      }
    }
  }

  lemma StoreNoArgs(names: seq<string>)
    ensures StoreArgs(names, 0) == Ok([])
  {
  }

  lemma {:induction false} ExprCorrect<W(!new)>(k: Linked<W>, names: seq<string>, e: Expr, s: M.State<W>, b: nat)
    requires WellLinked(k) && SlotsFit(k, names) && Ready(s) && ValueExpr(k.ctx, e)
    requires var c := GenExpr(e, EnvOf(k, names)); c.Ok? && At(k.bc.code, s.pc, c.value)
    ensures SimExpr(k, s, b, |GenExpr(e, EnvOf(k, names)).value|,
                    Eval(k.ctx, names, e, StoreOf(s), |s.stack|, |s.frames|, b))
    decreases b, e, 2
  {
    hide M.Run, BuiltinOf, Combine, UnaryMeaning, SlotOf, I32Bytes, WellLinked, SlotsFit;
    var h := Some(k.ctx.handler);
    match e
    case IntLit(n) =>
      RunPushInt(k.bc, h, s, b, n);
    case BoolLit(v) =>
      RunPushBool(k.bc, h, s, b, v);
    case Var(name) =>
      SimLocalLoad(k, names, name, s, b);
    case Binary(op, left, right) =>
      BinaryCorrect(k, names, e, s, b);
    case Unary(op, operand) =>
      UnaryCorrect(k, names, e, s, b);
    case Call(name, args) =>
      if BuiltinOf(name).Some? {
        SimBuiltin(k, names, e, s, b);
      } else {
        CallCorrect(k, names, e, s, b);
      }
  }

  lemma UnaryAgrees(op: UnOp, x: int32)
    ensures UnaryMeaning(op, x) == if UnaryCode(op) == NEG then Wrap(-(x as int)) else M.Truth(x == 0)
  {
  }

  lemma UnaryParts<W>(c: Ctx<W>, e: Expr, env: Env)
    requires e.Unary? && GenExpr(e, env).Ok? && ValueExpr(c, e)
    ensures GenExpr(e.operand, env).Ok? && ValueExpr(c, e.operand) && UnaryCode(e.uop) in {NEG, NOT}
    ensures GenExpr(e, env).value == GenExpr(e.operand, env).value + [UnaryCode(e.uop)]
  {
  }

  lemma BinaryParts<W>(c: Ctx<W>, e: Expr, env: Env)
    requires e.Binary? && GenExpr(e, env).Ok? && ValueExpr(c, e)
    ensures GenExpr(e.left, env).Ok? && GenExpr(e.right, env).Ok? && ValueExpr(c, e.left) && ValueExpr(c, e.right)
    ensures GenExpr(e, env).value == GenExpr(e.left, env).value + GenExpr(e.right, env).value + BinaryCode(e.op)
  {
  }

  lemma ExprsParts<W>(c: Ctx<W>, es: seq<Expr>, env: Env)
    requires es != [] && GenExprs(es, env).Ok? && ValueExprs(c, es)
    ensures GenExpr(es[0], env).Ok? && GenExprs(es[1..], env).Ok? && ValueExpr(c, es[0]) && ValueExprs(c, es[1..])
    ensures GenExprs(es, env).value == GenExpr(es[0], env).value + GenExprs(es[1..], env).value
  {
  }

  lemma {:induction false} UnaryCorrect<W(!new)>(k: Linked<W>, names: seq<string>, e: Expr, s: M.State<W>, b: nat)
    requires WellLinked(k) && SlotsFit(k, names) && Ready(s) && ValueExpr(k.ctx, e) && e.Unary?
    requires var c := GenExpr(e, EnvOf(k, names)); c.Ok? && At(k.bc.code, s.pc, c.value)
    ensures SimExpr(k, s, b, |GenExpr(e, EnvOf(k, names)).value|,
                    Eval(k.ctx, names, e, StoreOf(s), |s.stack|, |s.frames|, b))
    decreases b, e, 0
  {
    hide M.Run, UnaryMeaning, WellLinked, SlotsFit, At, GenExpr, ValueExpr, UnaryCode;
    UnaryParts(k.ctx, e, EnvOf(k, names));
    var c := GenExpr(e.operand, EnvOf(k, names)).value;
    AtSplit(k.bc.code, s.pc, c, [UnaryCode(e.uop)]);
    ExprCorrect(k, names, e.operand, s, b);
    var o := Eval(k.ctx, names, e.operand, StoreOf(s), |s.stack|, |s.frames|, b);
    if o.Done? {
      var s1 := Put(Moved(s, |c|).(stack := s.stack + [o.value]), o.st);
      RunUnary(k.bc, Some(k.ctx.handler), s1, o.left, UnaryCode(e.uop), s.stack, o.value);
      UnaryAgrees(e.uop, o.value);
    }
  }

  lemma {:induction false} BinaryCorrect<W(!new)>(k: Linked<W>, names: seq<string>, e: Expr, s: M.State<W>, b: nat)
    requires WellLinked(k) && SlotsFit(k, names) && Ready(s) && ValueExpr(k.ctx, e) && e.Binary?
    requires var c := GenExpr(e, EnvOf(k, names)); c.Ok? && At(k.bc.code, s.pc, c.value)
    ensures SimExpr(k, s, b, |GenExpr(e, EnvOf(k, names)).value|,
                    Eval(k.ctx, names, e, StoreOf(s), |s.stack|, |s.frames|, b))
    decreases b, e, 0
  {
    hide M.Run, Combine, BinaryCode, WellLinked, SlotsFit, At, GenExpr, ValueExpr;
    var env := EnvOf(k, names);
    BinaryParts(k.ctx, e, env);
    var c1 := GenExpr(e.left, env).value;
    var c2 := GenExpr(e.right, env).value;
    AtSplit(k.bc.code, s.pc, c1 + c2, BinaryCode(e.op));
    AtSplit(k.bc.code, s.pc, c1, c2);
    ExprCorrect(k, names, e.left, s, b);
    var o1 := Eval(k.ctx, names, e.left, StoreOf(s), |s.stack|, |s.frames|, b);
    if o1.Done? {
      var s1 := Put(Moved(s, |c1|).(stack := s.stack + [o1.value]), o1.st);
      ExprCorrect(k, names, e.right, s1, o1.left);
      var o2 := Eval(k.ctx, names, e.right, StoreOf(s1), |s1.stack|, |s1.frames|, o1.left);
      if o2.Done? {
        var s2 := Put(Moved(s1, |c2|).(stack := s1.stack + [o2.value]), o2.st);
        assert s2.stack == s.stack + [o1.value, o2.value];
        SimBinary(k, e.op, s2, o2.left, s.stack, o1.value, o2.value);
      }
    }
  }

  lemma {:induction false} ExprsCorrect<W(!new)>(k: Linked<W>, names: seq<string>, es: seq<Expr>, s: M.State<W>, b: nat)
    requires WellLinked(k) && SlotsFit(k, names) && Ready(s) && ValueExprs(k.ctx, es)
    requires var c := GenExprs(es, EnvOf(k, names)); c.Ok? && At(k.bc.code, s.pc, c.value)
    ensures SimExprs(k, s, b, |GenExprs(es, EnvOf(k, names)).value|,
                     EvalArgs(k.ctx, names, es, StoreOf(s), |s.stack|, |s.frames|, b))
    decreases b, es, 0
  {
    hide M.Run, WellLinked, SlotsFit, At, GenExpr, ValueExpr, Eval;
    if es == [] {
      assert Put(Moved(s, 0).(stack := s.stack + []), StoreOf(s)) == s;
    } else {
      var env := EnvOf(k, names);
      ExprsParts(k.ctx, es, env);
      var c1 := GenExpr(es[0], env).value;
      var c2 := GenExprs(es[1..], env).value;
      AtSplit(k.bc.code, s.pc, c1, c2);
      ExprCorrect(k, names, es[0], s, b);
      var o1 := Eval(k.ctx, names, es[0], StoreOf(s), |s.stack|, |s.frames|, b);
      if o1.Done? {
        var s1 := Put(Moved(s, |c1|).(stack := s.stack + [o1.value]), o1.st);
        ExprsCorrect(k, names, es[1..], s1, o1.left);
        var o2 := EvalArgs(k.ctx, names, es[1..], o1.st, |s.stack| + 1, |s.frames|, o1.left);
        if o2.Done? {
          assert s1.stack + o2.value == s.stack + ([o1.value] + o2.value);
        }
      }
    }
  }

  lemma CallParts<W>(c: Ctx<W>, e: Expr, env: Env)
    requires e.Call? && BuiltinOf(e.callee).None? && GenExpr(e, env).Ok? && ValueExpr(c, e)
    ensures e.callee in c.defs && ReturnsValue(c.defs[e.callee].body) && ValueExprs(c, e.args)
    ensures e.callee in env.funs && e.callee in env.addrs && 0 <= env.addrs[e.callee] < 0x1_0000
    ensures GenExprs(e.args, env).Ok? && StoreArgs(env.funs[e.callee].locals, |e.args|).Ok?
    ensures GenExpr(e, env).value == GenExprs(e.args, env).value
         + (StoreArgs(env.funs[e.callee].locals, |e.args|).value + ([CALL] + U16Bytes(env.addrs[e.callee])))
  {
    hide BuiltinOf, U16Bytes;
    var stores := StoreArgs(env.funs[e.callee].locals, |e.args|).value;
    assert stores + [CALL] + U16Bytes(env.addrs[e.callee]) == stores + ([CALL] + U16Bytes(env.addrs[e.callee]));
  }

  /**
   A call of a value-returning function: arguments left to right, argument i into slot i, the body on the
   shared slots, and back after the CALL with one new value above the operands that were there before.
   */
  lemma {:induction false} CallCorrect<W(!new)>(k: Linked<W>, names: seq<string>, e: Expr, s: M.State<W>, b: nat)
    requires WellLinked(k) && SlotsFit(k, names) && Ready(s) && ValueExpr(k.ctx, e)
    requires e.Call? && BuiltinOf(e.callee).None?
    requires var c := GenExpr(e, EnvOf(k, names)); c.Ok? && At(k.bc.code, s.pc, c.value)
    ensures SimExpr(k, s, b, |GenExpr(e, EnvOf(k, names)).value|,
                    Eval(k.ctx, names, e, StoreOf(s), |s.stack|, |s.frames|, b))
    decreases b, e, 1
  {
    hide M.Run, BuiltinOf, GenExpr, GenExprs, U16Bytes, StoreArgs, EvalArgs, Enter, ValueExpr, ValueExprs, At;
    var f := e.callee;
    var env := EnvOf(k, names);
    CallParts(k.ctx, e, env);
    var args := GenExprs(e.args, env).value;
    assert FunctionAt(k, f) && k.addrs[f] <= |k.bc.code|;
    var callee := k.ctx.funs[f].locals;
    var stores := StoreArgs(callee, |e.args|).value;
    var call := [CALL] + U16Bytes(k.addrs[f]);
    AtSplit(k.bc.code, s.pc, args, stores + call);
    AtSplit(k.bc.code, s.pc + |args|, stores, call);
    ExprsCorrect(k, names, e.args, s, b);
    var o1 := EvalArgs(k.ctx, names, e.args, StoreOf(s), |s.stack|, |s.frames|, b);
    if o1.Done? {
      var s1 := Put(Moved(s, |args|).(stack := s.stack + o1.value), o1.st);
      SimPass(k, callee, s1, o1.left, s.stack, o1.value);
      var o2 := Pass(o1.value, o1.st, o1.left);
      if o2.Done? {
        EnterCorrect(k, e, Put(Moved(s1, |stores|).(stack := s.stack), o2.st), o2.left);
      }
    }
  }

  /** From the CALL on: the body one frame deeper, and back with its result. */
  lemma {:induction false} EnterCorrect<W(!new)>(k: Linked<W>, e: Expr, s: M.State<W>, b: nat)
    requires WellLinked(k) && Ready(s) && e.Call? && e.callee in k.ctx.defs && ReturnsValue(k.ctx.defs[e.callee].body)
    requires e.callee in k.ctx.funs && e.callee in k.addrs && 0 <= k.addrs[e.callee] < 0x1_0000
    requires At(k.bc.code, s.pc, [CALL] + U16Bytes(k.addrs[e.callee]))
    ensures SimExpr(k, s, b, 3, Enter(k.ctx, e, StoreOf(s), |s.stack|, |s.frames|, b))
    decreases b, e, 0
  {
    hide M.Run, U16Bytes, Exec, NoVoidReturns, At;
    var f := e.callee;
    assert FunctionAt(k, f) && k.addrs[f] <= |k.bc.code|;
    RunCall(k.bc, Some(k.ctx.handler), s, b, k.addrs[f]);
    if b >= 1 && |s.frames| < M.MAX_CALL_DEPTH {
      var callee := k.ctx.funs[f].locals;
      var entered := s.(pc := k.addrs[f], frames := s.frames + [s.pc + 3]);
      BodyCorrect(k, f, entered, b - 1);
      LeavesWithValue(k.ctx, callee, k.ctx.defs[f].body, StoreOf(s), |s.stack|, |s.frames| + 1, b - 1);
      assert entered.frames[..|entered.frames| - 1] == s.frames;
    }
  }

  /** A body that returns a value never falls off its end and never returns without one. */
  lemma {:induction false} LeavesWithValue<W(!new)>(c: Ctx<W>, names: seq<string>, ss: seq<Stmt>, st: Store<W>,
                                                    h: nat, d: nat, b: nat)
    requires |st.locals| == M.MAX_LOCALS && NoVoidReturns(ss)
    ensures var o := Exec(c, names, ss, st, h, d, b);
            && (o.Done? && o.value.Leave? ==> o.value.result.Some?)
            && (o.Done? && |ss| > 0 && ss[|ss| - 1].Return? ==> o.value.Leave?)
    decreases b, ss, 0
  {
    hide Eval;
    if ss != [] {
      StmtLeavesWithValue(c, names, ss[0], st, h, d, b);
      var o := ExecStmt(c, names, ss[0], st, h, d, b);
      if o.Done? && o.value == Next {
        LeavesWithValue(c, names, ss[1..], o.st, h, d, o.left);
        assert |ss| > 1 ==> ss[1..][|ss| - 2] == ss[|ss| - 1];
      }
    }
  }

  lemma {:induction false} StmtLeavesWithValue<W(!new)>(c: Ctx<W>, names: seq<string>, s: Stmt, st: Store<W>, h: nat,
                                                        d: nat, b: nat)
    requires |st.locals| == M.MAX_LOCALS && NoVoidReturn(s)
    ensures var o := ExecStmt(c, names, s, st, h, d, b);
            && (o.Done? && o.value.Leave? ==> o.value.result.Some?)
            && (o.Done? && s.Return? ==> o.value.Leave?)
    decreases b, s, 1
  {
    hide Eval, Exec, BuiltinOf;
    match s
    case IfThen(cond, thn) =>
      var o := Eval(c, names, cond, st, h, d, b);
      if o.Done? && o.left >= 1 {
        LeavesWithValue(c, names, thn, o.st, h, d, o.left - 1);
      }
    case IfElse(cond, thn, els) =>
      var o := Eval(c, names, cond, st, h, d, b);
      if o.Done? && o.left >= 1 {
        LeavesWithValue(c, names, thn, o.st, h, d, o.left - 1);
        LeavesWithValue(c, names, els, o.st, h, d, o.left - 1);
      }
    case While(_, _) => WhileLeavesWithValue(c, names, s, st, h, d, b);
    case _ =>
  }

  lemma {:induction false} WhileLeavesWithValue<W(!new)>(c: Ctx<W>, names: seq<string>, s: Stmt, st: Store<W>, h: nat,
                                                         d: nat, b: nat)
    requires |st.locals| == M.MAX_LOCALS && NoVoidReturn(s) && s.While?
    ensures var o := ExecStmt(c, names, s, st, h, d, b);
            o.Done? && o.value.Leave? ==> o.value.result.Some?
    decreases b, s, 0
  {
    hide Eval, Exec;
    var o := Eval(c, names, s.cond, st, h, d, b);
    if o.Done? && o.left >= 1 && o.value != 0 {
      LeavesWithValue(c, names, s.body, o.st, h, d, o.left - 1);
      var o2 := Exec(c, names, s.body, o.st, h, d, o.left - 1);
      if o2.Done? && o2.value == Next && o2.left >= 1 {
        StmtLeavesWithValue(c, names, s, o2.st, h, d, o2.left - 1);
      }
    }
  }

  // ---- Statements ----

  /** A function body with its implicit RETURN, entered from a CALL. */
  lemma {:induction false} BodyCorrect<W(!new)>(k: Linked<W>, f: string, s: M.State<W>, b: nat)
    requires WellLinked(k) && f in k.ctx.defs && Ready(s) && s.pc == k.addrs[f] && |s.frames| > 0
    ensures f in k.ctx.funs
    ensures var o := Exec(k.ctx, k.ctx.funs[f].locals, k.ctx.defs[f].body, StoreOf(s), |s.stack|, |s.frames|, b);
            match o
            case Wrong => false
            case Abort(status, st, left) => Ends(RunOn(k, s, b), status, st, left)
            case Done(flow, st, left) =>
              if flow.Leave? then RunOn(k, s, b) == RunOn(k, Resume(s, flow.result, st), left)
              else if left < 1 then Ends(RunOn(k, s, b), M.BudgetExhausted, st, left)
              else RunOn(k, s, b) == RunOn(k, Resume(s, None, st), left - 1)
    decreases b, k.ctx.defs[f].body, 1
  {
    hide M.Run, GenStmts, Exec, AllInFragment;
    assert FunctionAt(k, f);
    var names := k.ctx.funs[f].locals;
    var body := k.ctx.defs[f].body;
    var c := GenStmts(body, EnvOf(k, names)).value;
    AtSplit(k.bc.code, s.pc, c, [RETURN]);
    StmtsCorrect(k, names, body, s, b);
    var o := Exec(k.ctx, names, body, StoreOf(s), |s.stack|, |s.frames|, b);
    if o.Done? && o.value == Next {
      var s1 := Put(Moved(s, |c|).(stack := s.stack + []), o.st);
      RunReturn(k.bc, Some(k.ctx.handler), s1, o.left);
    }
  }

  lemma {:induction false} StmtsCorrect<W(!new)>(k: Linked<W>, names: seq<string>, ss: seq<Stmt>, s: M.State<W>, b: nat)
    requires WellLinked(k) && SlotsFit(k, names) && Ready(s) && AllInFragment(k.ctx, ss) && |s.frames| > 0
    requires var c := GenStmts(ss, EnvOf(k, names)); c.Ok? && At(k.bc.code, s.pc, c.value)
    ensures SimStmt(k, s, b, |GenStmts(ss, EnvOf(k, names)).value|,
                    Exec(k.ctx, names, ss, StoreOf(s), |s.stack|, |s.frames|, b))
    decreases b, ss, 0
  {
    hide M.Run, GenStmt, ExecStmt, InFragment, WellLinked, SlotsFit, At;
    if ss == [] {
      assert Put(Moved(s, 0).(stack := s.stack + []), StoreOf(s)) == s;
    } else {
      var env := EnvOf(k, names);
      var c1 := GenStmt(ss[0], env).value;
      var c2 := GenStmts(ss[1..], env).value;
      AtSplit(k.bc.code, s.pc, c1, c2);
      StmtCorrect(k, names, ss[0], s, b);
      var o := ExecStmt(k.ctx, names, ss[0], StoreOf(s), |s.stack|, |s.frames|, b);
      if o.Done? && o.value == Next {
        assert s.stack + [] == s.stack;
        StmtsCorrect(k, names, ss[1..], Put(Moved(s, |c1|), o.st), o.left);
      }
    }
  }

  lemma {:induction false} StmtCorrect<W(!new)>(k: Linked<W>, names: seq<string>, t: Stmt, s: M.State<W>, b: nat)
    requires WellLinked(k) && SlotsFit(k, names) && Ready(s) && InFragment(k.ctx, t) && |s.frames| > 0
    requires var c := GenStmt(t, EnvOf(k, names)); c.Ok? && At(k.bc.code, s.pc, c.value)
    ensures SimStmt(k, s, b, |GenStmt(t, EnvOf(k, names)).value|,
                    ExecStmt(k.ctx, names, t, StoreOf(s), |s.stack|, |s.frames|, b))
    decreases b, t, 1
  {
    hide M.Run, GenExpr, Eval, ValueExpr, GenStmts, Exec, AllInFragment, LocalCode, Define, ActionOf, I16Bytes;
    hide WellLinked, SlotsFit, At;
    assert s.stack + [] == s.stack;
    match t
    case VarDecl(name, init) => SimStoreStmt(k, names, t, name, init, s, b);
    case Assign(name, val) => SimStoreStmt(k, names, t, name, val, s, b);
    case ExprStmt(e) => SimExprStmt(k, names, e, s, b);
    case IfThen(cond, thn) => IfThenCorrect(k, names, t, s, b);
    case IfElse(cond, thn, els) => IfElseCorrect(k, names, t, s, b);
    case While(cond, body) => WhileCorrect(k, names, t, s, b);
    case ReturnVoid =>
      RunReturn(k.bc, Some(k.ctx.handler), s, b);
    case Return(res) =>
      var c := GenExpr(res, EnvOf(k, names)).value;
      AtSplit(k.bc.code, s.pc, c, [RETURN]);
      ExprCorrect(k, names, res, s, b);
      var o := Eval(k.ctx, names, res, StoreOf(s), |s.stack|, |s.frames|, b);
      if o.Done? {
        RunReturn(k.bc, Some(k.ctx.handler), Put(Moved(s, |c|).(stack := s.stack + [o.value]), o.st), o.left);
      }
  }

  lemma {:induction false} SimStoreStmt<W(!new)>(k: Linked<W>, names: seq<string>, t: Stmt, name: string, e: Expr,
                                                 s: M.State<W>, b: nat)
    requires WellLinked(k) && SlotsFit(k, names) && Ready(s) && InFragment(k.ctx, t) && |s.frames| > 0
    requires t == VarDecl(name, e) || t == Assign(name, e)
    requires var c := GenStmt(t, EnvOf(k, names)); c.Ok? && At(k.bc.code, s.pc, c.value)
    ensures SimStmt(k, s, b, |GenStmt(t, EnvOf(k, names)).value|,
                    ExecStmt(k.ctx, names, t, StoreOf(s), |s.stack|, |s.frames|, b))
    decreases b, t, 0
  {
    hide M.Run, GenExpr, Eval, ValueExpr, SlotOf, WellLinked, SlotsFit, At;
    var c := GenExpr(e, EnvOf(k, names)).value;
    var store := LocalCode(STORE_LOCAL, names, name).value;
    AtSplit(k.bc.code, s.pc, c, store);
    ExprCorrect(k, names, e, s, b);
    var o := Eval(k.ctx, names, e, StoreOf(s), |s.stack|, |s.frames|, b);
    if o.Done? {
      var s1 := Put(Moved(s, |c|).(stack := s.stack + [o.value]), o.st);
      SimDefine(k, names, name, s1, o.left, o.value, s.stack);
      assert s.stack + [] == s.stack;
    }
  }

  lemma ActionCodeIs(e: Expr, env: Env)
    requires ActionOf(e).Some? && e.args == []
    ensures GenExpr(e, env) == Ok(IntrinsicBytes(ActionOf(e).value)) && !ExprPushes(e)
  {
    hide BuiltinOf;
    assert GenExprs([], env) == Ok([]);
    var b := BuiltinOf(e.callee).value;
    assert [] + [IntrinsicCode(b)] == IntrinsicBytes(ActionOf(e).value);
  }

  lemma {:induction false} SimExprStmt<W(!new)>(k: Linked<W>, names: seq<string>, e: Expr, s: M.State<W>, b: nat)
    requires WellLinked(k) && SlotsFit(k, names) && Ready(s) && InFragment(k.ctx, ExprStmt(e)) && |s.frames| > 0
    requires var c := GenStmt(ExprStmt(e), EnvOf(k, names)); c.Ok? && At(k.bc.code, s.pc, c.value)
    ensures SimStmt(k, s, b, |GenStmt(ExprStmt(e), EnvOf(k, names)).value|,
                    ExecStmt(k.ctx, names, ExprStmt(e), StoreOf(s), |s.stack|, |s.frames|, b))
    decreases b, ExprStmt(e), 0
  {
    hide *;
    if ActionOf(e).Some? {
      SimAction(k, names, e, s, b);
    } else {
      SimPopped(k, names, e, s, b);
    }
  }

  lemma SimAction<W(!new)>(k: Linked<W>, names: seq<string>, e: Expr, s: M.State<W>, b: nat)
    requires WellLinked(k) && SlotsFit(k, names) && Ready(s) && InFragment(k.ctx, ExprStmt(e)) && |s.frames| > 0
    requires var c := GenStmt(ExprStmt(e), EnvOf(k, names)); c.Ok? && At(k.bc.code, s.pc, c.value)
    requires ActionOf(e).Some?
    ensures SimStmt(k, s, b, |GenStmt(ExprStmt(e), EnvOf(k, names)).value|,
                    ExecStmt(k.ctx, names, ExprStmt(e), StoreOf(s), |s.stack|, |s.frames|, b))
  {
    hide M.Run, GenExpr, BuiltinOf, SlotsFit, At;
    var i := ActionOf(e).value;
    assert s.stack + [] == s.stack;
    ActionCodeIs(e, EnvOf(k, names));
    RunIntrinsic(k.bc, k.ctx.handler, s, b, i);
    if b >= M.INTRINSIC_COST {
      assert |k.ctx.handler(i, s.world).pushed| == M.PushCount(i) == 0;
    }
  }

  lemma {:induction false} SimPopped<W(!new)>(k: Linked<W>, names: seq<string>, e: Expr, s: M.State<W>, b: nat)
    requires WellLinked(k) && SlotsFit(k, names) && Ready(s) && InFragment(k.ctx, ExprStmt(e)) && |s.frames| > 0
    requires var c := GenStmt(ExprStmt(e), EnvOf(k, names)); c.Ok? && At(k.bc.code, s.pc, c.value)
    requires ActionOf(e).None?
    ensures SimStmt(k, s, b, |GenStmt(ExprStmt(e), EnvOf(k, names)).value|,
                    ExecStmt(k.ctx, names, ExprStmt(e), StoreOf(s), |s.stack|, |s.frames|, b))
    decreases b, e, 3
  {
    hide M.Run, GenExpr, Eval, ValueExpr, BuiltinOf, WellLinked, SlotsFit, At;
    var c := GenExpr(e, EnvOf(k, names)).value;
    assert s.stack + [] == s.stack;
    assert ExprPushes(e);
    AtSplit(k.bc.code, s.pc, c, [POP]);
    ExprCorrect(k, names, e, s, b);
    var o := Eval(k.ctx, names, e, StoreOf(s), |s.stack|, |s.frames|, b);
    if o.Done? {
      var s1 := Put(Moved(s, |c|).(stack := s.stack + [o.value]), o.st);
      RunPop(k.bc, Some(k.ctx.handler), s1, o.left);
      assert Below(s1.stack) == s.stack;
    }
  }

  /** A condition followed by JMP_IF_FALSE. */
  lemma {:induction false} SimCondition<W(!new)>(k: Linked<W>, names: seq<string>, cond: Expr, s: M.State<W>, b: nat,
                                                 offset: int)
    requires WellLinked(k) && SlotsFit(k, names) && Ready(s) && ValueExpr(k.ctx, cond)
    requires GenExpr(cond, EnvOf(k, names)).Ok? && 2 <= offset < 0x8000
    requires var c := GenExpr(cond, EnvOf(k, names)).value;
             At(k.bc.code, s.pc, c + ([JMP_IF_FALSE] + I16Bytes(offset))) && s.pc + |c| + 1 + offset <= |k.bc.code|
    ensures var n := |GenExpr(cond, EnvOf(k, names)).value|;
            var o := Eval(k.ctx, names, cond, StoreOf(s), |s.stack|, |s.frames|, b);
            match o
            case Wrong => false
            case Abort(status, st, left) => Ends(RunOn(k, s, b), status, st, left)
            case Done(v, st, left) =>
              if left < 1 then Ends(RunOn(k, s, b), M.BudgetExhausted, st, 0)
              else RunOn(k, s, b) == RunOn(k, Put(Moved(s, if v == 0 then n + 1 + offset else n + 3), st), left - 1)
    decreases b, cond, 3
  {
    hide M.Run, GenExpr, Eval, ValueExpr, I16Bytes, WellLinked, SlotsFit, At;
    var c := GenExpr(cond, EnvOf(k, names)).value;
    AtSplit(k.bc.code, s.pc, c, [JMP_IF_FALSE] + I16Bytes(offset));
    ExprCorrect(k, names, cond, s, b);
    var o := Eval(k.ctx, names, cond, StoreOf(s), |s.stack|, |s.frames|, b);
    if o.Done? {
      var s1 := Put(Moved(s, |c|).(stack := s.stack + [o.value]), o.st);
      RunJumpIfFalse(k.bc, Some(k.ctx.handler), s1, o.left, offset);
      assert Below(s1.stack) == s.stack;
    }
  }

  lemma {:induction false} IfThenCorrect<W(!new)>(k: Linked<W>, names: seq<string>, t: Stmt, s: M.State<W>, b: nat)
    requires WellLinked(k) && SlotsFit(k, names) && Ready(s) && InFragment(k.ctx, t) && |s.frames| > 0 && t.IfThen?
    requires var c := GenStmt(t, EnvOf(k, names)); c.Ok? && At(k.bc.code, s.pc, c.value)
    ensures SimStmt(k, s, b, |GenStmt(t, EnvOf(k, names)).value|,
                    ExecStmt(k.ctx, names, t, StoreOf(s), |s.stack|, |s.frames|, b))
    decreases b, t, 0
  {
    hide M.Run, GenExpr, Eval, ValueExpr, GenStmts, Exec, AllInFragment, I16Bytes, WellLinked, SlotsFit, At;
    assert s.stack + [] == s.stack;
    var env := EnvOf(k, names);
    var c := GenExpr(t.cond, env).value;
    var body := GenStmts(t.thn, env).value;
    var skip := [JMP_IF_FALSE] + I16Bytes(2 + |body|);
    AtSplit(k.bc.code, s.pc, c + skip, body);
    SimCondition(k, names, t.cond, s, b, 2 + |body|);
    var o := Eval(k.ctx, names, t.cond, StoreOf(s), |s.stack|, |s.frames|, b);
    if o.Done? && o.left >= 1 && o.value != 0 {
      StmtsCorrect(k, names, t.thn, Put(Moved(s, |c| + 3), o.st), o.left - 1);
    }
  }

  /** Where the parts of an if with else lie. */
  lemma IfElseLayout(code: seq<byte>, pc: nat, t: Stmt, env: Env)
    requires t.IfElse? && GenStmt(t, env).Ok? && At(code, pc, GenStmt(t, env).value)
    ensures GenExpr(t.cond, env).Ok? && GenStmts(t.thn, env).Ok? && GenStmts(t.els, env).Ok?
    ensures var c, thn, els := GenExpr(t.cond, env).value, GenStmts(t.thn, env).value, GenStmts(t.els, env).value;
            && 2 + |thn| + 3 < 0x8000 && 2 + |els| < 0x8000
            && |GenStmt(t, env).value| == |c| + 3 + |thn| + 3 + |els|
            && At(code, pc, c + ([JMP_IF_FALSE] + I16Bytes(2 + |thn| + 3)))
            && At(code, pc + |c| + 3, thn)
            && At(code, pc + |c| + 3 + |thn|, [JMP] + I16Bytes(2 + |els|))
            && At(code, pc + |c| + 3 + |thn| + 3, els)
  {
    hide GenExpr, GenStmts, I16Bytes, At;
    var c, thn, els := GenExpr(t.cond, env).value, GenStmts(t.thn, env).value, GenStmts(t.els, env).value;
    var skip := [JMP_IF_FALSE] + I16Bytes(2 + |thn| + 3);
    var over := [JMP] + I16Bytes(2 + |els|);
    AtSplit(code, pc, c + skip + thn + over, els);
    AtSplit(code, pc, c + skip + thn, over);
    AtSplit(code, pc, c + skip, thn);
  }

  /** Where the parts of a loop lie. */
  lemma WhileLayout(code: seq<byte>, pc: nat, t: Stmt, env: Env)
    requires t.While? && GenStmt(t, env).Ok? && At(code, pc, GenStmt(t, env).value)
    ensures GenExpr(t.cond, env).Ok? && GenStmts(t.body, env).Ok?
    ensures var c, body := GenExpr(t.cond, env).value, GenStmts(t.body, env).value;
            var back := -(|c| + 3 + |body| + 1);
            && 2 + |body| + 3 < 0x8000 && -0x8000 <= back
            && |GenStmt(t, env).value| == |c| + 3 + |body| + 3
            && At(code, pc, c + ([JMP_IF_FALSE] + I16Bytes(2 + |body| + 3)))
            && At(code, pc + |c| + 3, body)
            && At(code, pc + |c| + 3 + |body|, [JMP] + I16Bytes(back))
  {
    hide GenExpr, GenStmts, I16Bytes, At;
    var c, body := GenExpr(t.cond, env).value, GenStmts(t.body, env).value;
    var skip := [JMP_IF_FALSE] + I16Bytes(2 + |body| + 3);
    var back := [JMP] + I16Bytes(-(|c| + 3 + |body| + 1));
    AtSplit(code, pc, c + skip + body, back);
    AtSplit(code, pc, c + skip, body);
  }

  lemma {:induction false} IfElseCorrect<W(!new)>(k: Linked<W>, names: seq<string>, t: Stmt, s: M.State<W>, b: nat)
    requires WellLinked(k) && SlotsFit(k, names) && Ready(s) && InFragment(k.ctx, t) && |s.frames| > 0 && t.IfElse?
    requires var c := GenStmt(t, EnvOf(k, names)); c.Ok? && At(k.bc.code, s.pc, c.value)
    ensures SimStmt(k, s, b, |GenStmt(t, EnvOf(k, names)).value|,
                    ExecStmt(k.ctx, names, t, StoreOf(s), |s.stack|, |s.frames|, b))
    decreases b, t, 0
  {
    hide M.Run, GenExpr, Eval, ValueExpr, GenStmt, GenStmts, Exec, AllInFragment, I16Bytes, WellLinked, SlotsFit, At;
    assert s.stack + [] == s.stack;
    var env := EnvOf(k, names);
    IfElseLayout(k.bc.code, s.pc, t, env);
    var c := GenExpr(t.cond, env).value;
    var thn := GenStmts(t.thn, env).value;
    var els := GenStmts(t.els, env).value;
    SimCondition(k, names, t.cond, s, b, 2 + |thn| + 3);
    var o := Eval(k.ctx, names, t.cond, StoreOf(s), |s.stack|, |s.frames|, b);
    if o.Done? && o.left >= 1 {
      if o.value == 0 {
        StmtsCorrect(k, names, t.els, Put(Moved(s, |c| + 3 + |thn| + 3), o.st), o.left - 1);
      } else {
        StmtsCorrect(k, names, t.thn, Put(Moved(s, |c| + 3), o.st), o.left - 1);
        var o2 := Exec(k.ctx, names, t.thn, o.st, |s.stack|, |s.frames|, o.left - 1);
        if o2.Done? && o2.value == Next {
          RunJump(k.bc, Some(k.ctx.handler), Put(Moved(s, |c| + 3 + |thn|), o2.st), o2.left, 2 + |els|);
        }
      }
    }
  }

  lemma {:induction false} WhileCorrect<W(!new)>(k: Linked<W>, names: seq<string>, t: Stmt, s: M.State<W>, b: nat)
    requires WellLinked(k) && SlotsFit(k, names) && Ready(s) && InFragment(k.ctx, t) && |s.frames| > 0 && t.While?
    requires var c := GenStmt(t, EnvOf(k, names)); c.Ok? && At(k.bc.code, s.pc, c.value)
    ensures SimStmt(k, s, b, |GenStmt(t, EnvOf(k, names)).value|,
                    ExecStmt(k.ctx, names, t, StoreOf(s), |s.stack|, |s.frames|, b))
    decreases b, t, 0
  {
    hide M.Run, GenExpr, Eval, ValueExpr, GenStmt, GenStmts, Exec, AllInFragment, I16Bytes, WellLinked, SlotsFit, At;
    assert s.stack + [] == s.stack;
    var env := EnvOf(k, names);
    WhileLayout(k.bc.code, s.pc, t, env);
    var c := GenExpr(t.cond, env).value;
    var body := GenStmts(t.body, env).value;
    var offset := -(|c| + 3 + |body| + 1);
    SimCondition(k, names, t.cond, s, b, 2 + |body| + 3);
    var o := Eval(k.ctx, names, t.cond, StoreOf(s), |s.stack|, |s.frames|, b);
    if o.Done? && o.left >= 1 && o.value != 0 {
      StmtsCorrect(k, names, t.body, Put(Moved(s, |c| + 3), o.st), o.left - 1);
      var o2 := Exec(k.ctx, names, t.body, o.st, |s.stack|, |s.frames|, o.left - 1);
      if o2.Done? && o2.value == Next {
        RunJump(k.bc, Some(k.ctx.handler), Put(Moved(s, |c| + 3 + |body|), o2.st), o2.left, offset);
        if o2.left >= 1 {
          StmtCorrect(k, names, t, Put(s, o2.st), o2.left - 1);
        }
      }
    }
  }
}
