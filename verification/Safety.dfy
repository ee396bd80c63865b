/** Static safety of all generated code: every run stays on instruction boundaries and never meets a bad instruction. */
module Safety {
  import opened Words
  import opened Ast
  import opened Tables
  import opened Opcodes
  import M = Machine
  import opened Instructions
  import opened Codegen
  import Linking
  import MachineLaws

  /** The length of an instruction; 0 for bytes that are no opcode. */
  function InstrLen(op: byte): nat {
    if op == PUSH_INT then 5
    else if op in {JMP, JMP_IF_FALSE, CALL, LOAD_CONST} then 3
    else if op in {PUSH_BOOL, LOAD_LOCAL, STORE_LOCAL, MY_TRAIT} then 2
    else if op in {HALT, POP, DUP, SWAP, NEG, NOT, RETURN, NOP} || IsBinary(op) || PERCEIVE <= op <= MY_HYDRATION then 1
    else 0
  }

  /** Decoding c from its first byte, position i is reached: it starts an instruction or ends the code. */
  ghost predicate Boundary(c: seq<byte>, i: nat)
    ensures Boundary(c, i) ==> i <= |c|
    ensures i == 0 ==> Boundary(c, i)
    decreases |c|
  {
    i == 0 ||
    (c != [] && var n := InstrLen(c[0]); 0 < n <= |c| && n <= i && Boundary(c[n..], i - n))
  }

  /** The code decodes into whole instructions. */
  ghost predicate Whole(c: seq<byte>) {
    Boundary(c, |c|)
  }

  /** Where the jump at i goes. */
  function JumpTarget(c: seq<byte>, i: nat): int
    requires i + 3 <= |c|
  {
    i + 1 + I16At(c, i + 1)
  }

  /** The instruction at i has a valid operand: a local below the count, a jump to a boundary, a call to a function. */
  ghost predicate GoodInstr(c: seq<byte>, i: nat, localCount: nat, entries: set<int>)
    requires i < |c|
  {
    var op := c[i];
    && 0 < InstrLen(op) && i + InstrLen(op) <= |c|
    && Boundary(c, i + InstrLen(op))
    && op != LOAD_CONST
    && (op in {LOAD_LOCAL, STORE_LOCAL} ==> c[i + 1] < localCount)
    && (op in {JMP, JMP_IF_FALSE} ==> var t := JumpTarget(c, i); 0 <= t && Boundary(c, t))
    && (op == CALL ==> U16At(c, i + 1) in entries)
  }

  /** Whole code whose jumps stay inside it and whose calls go to known entries. */
  ghost predicate Closed(c: seq<byte>, localCount: nat, entries: set<int>) {
    && Whole(c)
    && forall i: nat :: Boundary(c, i) && i < |c| ==> GoodInstr(c, i, localCount, entries)
  }

  // ---- Boundaries of a concatenation ----

  lemma {:induction false} BoundaryAppend(a: seq<byte>, b: seq<byte>, i: nat)
    requires Whole(a)
    ensures Boundary(a + b, i) <==> if i <= |a| then Boundary(a, i) else Boundary(b, i - |a|)
    ensures Boundary(a + b, |a|)
    decreases |a|
  {
    hide InstrLen;
    if a == [] {
      assert a + b == b;
    } else {
      var n := InstrLen(a[0]);
      assert (a + b)[0] == a[0];
      assert (a + b)[n..] == a[n..] + b;
      BoundaryAppend(a[n..], b, if i >= n then i - n else 0);
      assert |a[n..]| == |a| - n;
    }
  }

  /** A good instruction of a part is good in the whole. */
  lemma GoodShift(a: seq<byte>, b: seq<byte>, c: seq<byte>, i: nat, lc: nat, entries: set<int>)
    requires Whole(a) && Whole(b) && i < |b| && GoodInstr(b, i, lc, entries)
    ensures GoodInstr(a + b + c, |a| + i, lc, entries)
  {
    hide Boundary;
    var w := a + b + c;
    var n := InstrLen(b[i]);
    assert forall k :: 0 <= k < |b| ==> b[k] == w[|a| + k];
    BoundaryMiddle(a, b, c, i + n);
    if b[i] in {JMP, JMP_IF_FALSE} {
      BoundaryMiddle(a, b, c, JumpTarget(b, i));
    }
  }

  lemma BoundaryMiddle(a: seq<byte>, b: seq<byte>, c: seq<byte>, i: nat)
    requires Whole(a) && Whole(b) && i <= |b|
    ensures Boundary(a + b + c, |a| + i) <==> Boundary(b, i)
    ensures Whole(a + b)
  {
    BoundaryAppend(a, b, |a| + |b|);
    BoundaryAppend(a + b, c, |a| + i);
    BoundaryAppend(a, b, |a| + i);
  }

  lemma ClosedAppend(a: seq<byte>, b: seq<byte>, lc: nat, entries: set<int>)
    requires Closed(a, lc, entries) && Closed(b, lc, entries)
    ensures Closed(a + b, lc, entries)
  {
    hide GoodInstr, Boundary, InstrLen;
    BoundaryMiddle(a, b, [], |b|);
    assert a + b + [] == a + b;
    forall i: nat | Boundary(a + b, i) && i < |a + b|
      ensures GoodInstr(a + b, i, lc, entries)
    {
      BoundaryAppend(a, b, i);
      if i < |a| {
        GoodShift([], a, b, i, lc, entries);
        assert [] + a + b == a + b;
      } else {
        GoodShift(a, b, [], i - |a|, lc, entries);
      }
    }
  }

  /** One instruction without a jump. */
  lemma ClosedInstr(c: seq<byte>, lc: nat, entries: set<int>)
    requires c != [] && InstrLen(c[0]) == |c| && c[0] !in {JMP, JMP_IF_FALSE, LOAD_CONST}
    requires c[0] in {LOAD_LOCAL, STORE_LOCAL} ==> c[1] < lc
    requires c[0] == CALL ==> U16At(c, 1) in entries
    ensures Closed(c, lc, entries)
  {
    assert c[|c|..] == [];
    assert Boundary(c[|c|..], 0);
    forall i: nat | Boundary(c, i) && i < |c|
      ensures GoodInstr(c, i, lc, entries)
    {
      assert i == 0;
    }
  }

  lemma ClosedEmpty(lc: nat, entries: set<int>)
    ensures Closed([], lc, entries)
  {
  }

  /** Plain one-byte instructions in a row. */
  lemma {:induction false} ClosedPlain(c: seq<byte>, lc: nat, entries: set<int>)
    requires forall i :: 0 <= i < |c| ==> InstrLen(c[i]) == 1
    ensures Closed(c, lc, entries)
  {
    if c != [] {
      assert c == [c[0]] + c[1..];
      ClosedInstr([c[0]], lc, entries);
      ClosedPlain(c[1..], lc, entries);
      ClosedAppend([c[0]], c[1..], lc, entries);
    }
  }

  /** A jump is a whole instruction; it is good wherever its target is a boundary. */
  lemma JumpWhole(op: byte, offset: int)
    requires op in {JMP, JMP_IF_FALSE} && -0x8000 <= offset < 0x8000
    ensures Whole([op] + I16Bytes(offset))
    ensures forall i: nat :: Boundary([op] + I16Bytes(offset), i) && i < 3 ==> i == 0
  {
    var c := [op] + I16Bytes(offset);
    assert c[3..] == [] && Boundary(c[3..], 0);
  }

  /** A jump between two pieces of code, in the middle of more code. */
  lemma GoodJump(a: seq<byte>, op: byte, offset: int, b: seq<byte>, lc: nat, entries: set<int>)
    requires Whole(a) && op in {JMP, JMP_IF_FALSE} && -0x8000 <= offset < 0x8000
    requires var w := a + ([op] + I16Bytes(offset)) + b;
             0 <= |a| + 1 + offset && Boundary(w, |a| + 1 + offset)
    ensures GoodInstr(a + ([op] + I16Bytes(offset)) + b, |a|, lc, entries)
  {
    hide Boundary, I16Bytes;
    var j := [op] + I16Bytes(offset);
    var w := a + j + b;
    JumpWhole(op, offset);
    BoundaryMiddle(a, j, b, 3);
    assert w[|a|..|a| + 3] == j;
    assert w[|a|] == j[0] && w[|a| + 1..|a| + 3] == I16Bytes(offset);
    I16RoundTrip(w, |a| + 1, offset);
  }

  /** Condition, skip, body: the shape of an if without else. */
  lemma ClosedIfThen(c: seq<byte>, t: seq<byte>, lc: nat, entries: set<int>)
    requires Closed(c, lc, entries) && Closed(t, lc, entries) && 2 + |t| < 0x8000
    ensures Closed(c + ([JMP_IF_FALSE] + I16Bytes(2 + |t|)) + t, lc, entries)
  {
    hide GoodInstr, Boundary, InstrLen, I16Bytes;
    var j := [JMP_IF_FALSE] + I16Bytes(2 + |t|);
    var w := c + j + t;
    JumpWhole(JMP_IF_FALSE, 2 + |t|);
    Whole3(c, j, t);
    GoodJump(c, JMP_IF_FALSE, 2 + |t|, t, lc, entries);
    forall i: nat | Boundary(w, i) && i < |w|
      ensures GoodInstr(w, i, lc, entries)
    {
      Boundary3(c, j, t, i);
      if i < |c| {
        GoodShift([], c, j + t, i, lc, entries);
        assert [] + c + (j + t) == w;
      } else if i > |c| {
        GoodShift(c + j, t, [], i - |c + j|, lc, entries);
        assert c + j + t + [] == w;
      }
    }
  }

  lemma Whole3(a: seq<byte>, b: seq<byte>, c: seq<byte>)
    requires Whole(a) && Whole(b) && Whole(c)
    ensures Whole(a + b) && Whole(a + b + c)
  {
    BoundaryMiddle(a, b, [], |b|);
    BoundaryMiddle(a + b, c, [], |c|);
    assert a + b + [] == a + b && a + b + c + [] == a + b + c;
  }

  lemma Boundary3(a: seq<byte>, b: seq<byte>, c: seq<byte>, i: nat)
    requires Whole(a) && Whole(b) && Boundary(a + b + c, i)
    ensures Whole(a + b)
    ensures i <= |a| ==> Boundary(a, i)
    ensures |a| <= i <= |a| + |b| ==> Boundary(b, i - |a|)
    ensures |a| + |b| <= i ==> Boundary(c, i - |a| - |b|)
  {
    BoundaryMiddle(a, b, [], |b|);
    BoundaryAppend(a + b, c, i);
    BoundaryAppend(a, b, i);
  }

  /** Two closed pieces, each followed by a jump into the result: if with else, and while. */
  lemma ClosedTwoJumps(c: seq<byte>, off1: int, t: seq<byte>, off2: int, e: seq<byte>, lc: nat, entries: set<int>)
    requires Closed(c, lc, entries) && Closed(t, lc, entries) && Closed(e, lc, entries)
    requires -0x8000 <= off1 < 0x8000 && -0x8000 <= off2 < 0x8000
    requires |c| + 1 + off1 == |c| + 3 + |t| + 3
    requires |c| + 3 + |t| + 1 + off2 in {0, |c| + 3 + |t| + 3 + |e|}
    ensures Closed(c + ([JMP_IF_FALSE] + I16Bytes(off1)) + t + ([JMP] + I16Bytes(off2)) + e, lc, entries)
  {
    hide GoodInstr, Boundary, InstrLen, I16Bytes;
    var j1 := [JMP_IF_FALSE] + I16Bytes(off1);
    var j2 := [JMP] + I16Bytes(off2);
    var a := c + j1;
    var w := a + t + j2 + e;
    JumpWhole(JMP_IF_FALSE, off1);
    JumpWhole(JMP, off2);
    Whole3(c, j1, t);
    Whole3(a + t, j2, e);
    BoundaryAppend(a + t + j2, e, |a + t + j2|);
    GoodJump(a + t, JMP, off2, e, lc, entries);
    assert w == c + j1 + (t + j2 + e);
    GoodJump(c, JMP_IF_FALSE, off1, t + j2 + e, lc, entries);
    forall i: nat | Boundary(w, i) && i < |w|
      ensures GoodInstr(w, i, lc, entries)
    {
      Boundary3(a + t, j2, e, i);
      if i < |a + t| {
        assert Boundary(a + t, i);
        Boundary3(c, j1, t, i);
        if i < |c| {
          GoodShift([], c, j1 + t + j2 + e, i, lc, entries);
          assert [] + c + (j1 + t + j2 + e) == w;
        } else if i > |c| {
          GoodShift(a, t, j2 + e, i - |a|, lc, entries);
          assert a + t + (j2 + e) == w;
        }
      } else if i > |a + t| {
        GoodShift(a + t + j2, e, [], i - |a + t + j2|, lc, entries);
        assert a + t + j2 + e + [] == w;
      }
    }
  }

  // ---- Generated code is closed ----

  /** The slots fit in a byte and below the local count; calls go to the known entries. */
  ghost predicate EnvFits(env: Env, lc: nat, entries: set<int>) {
    && lc <= 256 && |env.locals| <= lc
    && (forall f :: f in env.funs ==> |env.funs[f].locals| <= lc)
    && (forall f :: f in env.addrs ==> env.addrs[f] in entries)
  }

  lemma LocalClosed(op: byte, locals: seq<string>, name: string, lc: nat, entries: set<int>)
    requires op in {LOAD_LOCAL, STORE_LOCAL} && |locals| <= lc <= 256 && LocalCode(op, locals, name).Ok?
    ensures Closed(LocalCode(op, locals, name).value, lc, entries)
  {
    ClosedInstr(LocalCode(op, locals, name).value, lc, entries);
  }

  lemma {:induction false} StoreArgsClosed(locals: seq<string>, n: nat, lc: nat, entries: set<int>)
    requires |locals| <= lc <= 256 && StoreArgs(locals, n).Ok?
    ensures Closed(StoreArgs(locals, n).value, lc, entries)
  {
    hide Closed;
    if n == 0 {
      ClosedEmpty(lc, entries);
    } else {
      LocalClosed(STORE_LOCAL, locals, locals[n - 1], lc, entries);
      StoreArgsClosed(locals, n - 1, lc, entries);
      ClosedAppend(LocalCode(STORE_LOCAL, locals, locals[n - 1]).value, StoreArgs(locals, n - 1).value, lc, entries);
    }
  }

  lemma CallClosed(name: string, argCount: nat, env: Env, lc: nat, entries: set<int>)
    requires EnvFits(env, lc, entries) && CallCode(name, argCount, env).Ok?
    ensures Closed(CallCode(name, argCount, env).value, lc, entries)
  {
    hide Closed;
    var stores := StoreArgs(env.funs[name].locals, argCount).value;
    var call := [CALL] + U16Bytes(env.addrs[name]);
    StoreArgsClosed(env.funs[name].locals, argCount, lc, entries);
    assert call[1..1 + 2] == U16Bytes(env.addrs[name]);
    U16RoundTrip(call, 1, env.addrs[name]);
    ClosedInstr(call, lc, entries);
    ClosedAppend(stores, call, lc, entries);
    assert stores + [CALL] + U16Bytes(env.addrs[name]) == stores + call;
  }

  lemma {:induction false} ExprClosed(e: Expr, env: Env, lc: nat, entries: set<int>)
    requires EnvFits(env, lc, entries) && GenExpr(e, env).Ok?
    ensures Closed(GenExpr(e, env).value, lc, entries)
    decreases e, 1
  {
    hide Closed, BuiltinOf, EnvFits, CallCode;
    match e
    case IntLit(n) => ClosedInstr(GenExpr(e, env).value, lc, entries);
    case BoolLit(_) => ClosedInstr(GenExpr(e, env).value, lc, entries);
    case Var(name) => LocalClosedIn(LOAD_LOCAL, env, name, lc, entries);
    case Binary(op, left, right) =>
      ExprClosed(left, env, lc, entries);
      ExprClosed(right, env, lc, entries);
      var l, r := GenExpr(left, env).value, GenExpr(right, env).value;
      ClosedPlain(BinaryCode(op), lc, entries);
      ClosedAppend(l, r, lc, entries);
      ClosedAppend(l + r, BinaryCode(op), lc, entries);
    case Unary(op, operand) =>
      ExprClosed(operand, env, lc, entries);
      ClosedPlain([UnaryCode(op)], lc, entries);
      ClosedAppend(GenExpr(operand, env).value, [UnaryCode(op)], lc, entries);
    case Call(name, args) =>
      if BuiltinOf(name).Some? {
        BuiltinClosed(e, env, lc, entries);
      } else {
        ExprsClosed(args, env, lc, entries);
        CallClosed(name, |args|, env, lc, entries);
        ClosedAppend(GenExprs(args, env).value, CallCode(name, |args|, env).value, lc, entries);
      }
  }

  lemma LocalClosedIn(op: byte, env: Env, name: string, lc: nat, entries: set<int>)
    requires op in {LOAD_LOCAL, STORE_LOCAL} && EnvFits(env, lc, entries) && LocalCode(op, env.locals, name).Ok?
    ensures Closed(LocalCode(op, env.locals, name).value, lc, entries)
  {
    LocalClosed(op, env.locals, name, lc, entries);
  }

  lemma {:induction false} BuiltinClosed(e: Expr, env: Env, lc: nat, entries: set<int>)
    requires EnvFits(env, lc, entries) && GenExpr(e, env).Ok? && e.Call? && BuiltinOf(e.callee).Some?
    ensures Closed(GenExpr(e, env).value, lc, entries)
    decreases e, 0
  {
    hide Closed, BuiltinOf, EnvFits;
    var b := BuiltinOf(e.callee).value;
    if SugarCode(b).Some? {
      ClosedPlain(SugarCode(b).value, lc, entries);
    } else if b == MyTrait {
      ClosedInstr(GenExpr(e, env).value, lc, entries);
    } else {
      ExprsClosed(e.args, env, lc, entries);
      ClosedPlain([IntrinsicCode(b)], lc, entries);
      ClosedAppend(GenExprs(e.args, env).value, [IntrinsicCode(b)], lc, entries);
    }
  }

  lemma {:induction false} ExprsClosed(es: seq<Expr>, env: Env, lc: nat, entries: set<int>)
    requires EnvFits(env, lc, entries) && GenExprs(es, env).Ok?
    ensures Closed(GenExprs(es, env).value, lc, entries)
    decreases es, 0
  {
    hide Closed, EnvFits;
    if es == [] {
      ClosedEmpty(lc, entries);
    } else {
      ExprClosed(es[0], env, lc, entries);
      ExprsClosed(es[1..], env, lc, entries);
      ClosedAppend(GenExpr(es[0], env).value, GenExprs(es[1..], env).value, lc, entries);
    }
  }

  lemma {:induction false} StmtClosed(s: Stmt, env: Env, lc: nat, entries: set<int>)
    requires EnvFits(env, lc, entries) && GenStmt(s, env).Ok?
    ensures Closed(GenStmt(s, env).value, lc, entries)
    decreases s, 1
  {
    hide Closed, EnvFits, GenExpr, LocalCode, ExprPushes, I16Bytes;
    match s
    case VarDecl(name, init) =>
      ExprClosed(init, env, lc, entries);
      LocalClosedIn(STORE_LOCAL, env, name, lc, entries);
      ClosedAppend(GenExpr(init, env).value, LocalCode(STORE_LOCAL, env.locals, name).value, lc, entries);
    case Assign(name, val) =>
      ExprClosed(val, env, lc, entries);
      LocalClosedIn(STORE_LOCAL, env, name, lc, entries);
      ClosedAppend(GenExpr(val, env).value, LocalCode(STORE_LOCAL, env.locals, name).value, lc, entries);
    case ExprStmt(e) =>
      ExprClosed(e, env, lc, entries);
      ClosedPlain([POP], lc, entries);
      ClosedAppend(GenExpr(e, env).value, [POP], lc, entries);
    case IfThen(cond, thn) =>
      ExprClosed(cond, env, lc, entries);
      StmtsClosed(thn, env, lc, entries);
      ClosedIfThen(GenExpr(cond, env).value, GenStmts(thn, env).value, lc, entries);
    case IfElse(cond, thn, els) =>
      ExprClosed(cond, env, lc, entries);
      StmtsClosed(thn, env, lc, entries);
      StmtsClosed(els, env, lc, entries);
      var c, t, e := GenExpr(cond, env).value, GenStmts(thn, env).value, GenStmts(els, env).value;
      ClosedTwoJumps(c, 2 + |t| + 3, t, 2 + |e|, e, lc, entries);
    case While(cond, body) =>
      ExprClosed(cond, env, lc, entries);
      StmtsClosed(body, env, lc, entries);
      ClosedEmpty(lc, entries);
      var c, b := GenExpr(cond, env).value, GenStmts(body, env).value;
      ClosedTwoJumps(c, 2 + |b| + 3, b, -(|c| + 3 + |b| + 1), [], lc, entries);
      var w := GenStmt(s, env).value;
      assert w + [] == w;
    case ReturnVoid =>
      ClosedPlain([RETURN], lc, entries);
    case Return(res) =>
      ExprClosed(res, env, lc, entries);
      ClosedPlain([RETURN], lc, entries);
      ClosedAppend(GenExpr(res, env).value, [RETURN], lc, entries);
  }

  lemma {:induction false} StmtsClosed(ss: seq<Stmt>, env: Env, lc: nat, entries: set<int>)
    requires EnvFits(env, lc, entries) && GenStmts(ss, env).Ok?
    ensures Closed(GenStmts(ss, env).value, lc, entries)
    decreases ss, 0
  {
    hide Closed, EnvFits, GenStmt;
    if ss == [] {
      ClosedEmpty(lc, entries);
    } else {
      StmtClosed(ss[0], env, lc, entries);
      StmtsClosed(ss[1..], env, lc, entries);
      ClosedAppend(GenStmt(ss[0], env).value, GenStmts(ss[1..], env).value, lc, entries);
    }
  }

  // ---- Functions and programs ----

  /** Control cannot run off the end of the code. */
  ghost predicate Stays(c: seq<byte>, i: nat)
    requires i < |c|
  {
    var op := c[i];
    && (op in {JMP, JMP_IF_FALSE} && i + 3 <= |c| ==> JumpTarget(c, i) < |c|)
    && (op !in {JMP, RETURN, HALT} ==> i + InstrLen(op) < |c|)
  }

  ghost predicate Tight(c: seq<byte>, localCount: nat, entries: set<int>) {
    && Closed(c, localCount, entries)
    && forall i: nat :: Boundary(c, i) && i < |c| ==> Stays(c, i)
  }

  lemma TightFunction(body: seq<byte>, lc: nat, entries: set<int>)
    requires Closed(body, lc, entries)
    ensures Tight(body + [RETURN], lc, entries)
  {
    hide Boundary;
    var c := body + [RETURN];
    ClosedPlain([RETURN], lc, entries);
    ClosedAppend(body, [RETURN], lc, entries);
    forall i: nat | Boundary(c, i) && i < |c|
      ensures Stays(c, i)
    {
      BoundaryAppend(body, [RETURN], i);
      if i < |body| {
        assert GoodInstr(body, i, lc, entries);
        assert forall k :: 0 <= k < |body| ==> body[k] == c[k];
      }
    }
  }

  lemma StaysShift(a: seq<byte>, b: seq<byte>, c: seq<byte>, i: nat, lc: nat, entries: set<int>)
    requires i < |b| && Stays(b, i) && GoodInstr(b, i, lc, entries)
    ensures Stays(a + b + c, |a| + i)
  {
    hide Boundary;
    var w := a + b + c;
    assert forall k :: 0 <= k < |b| ==> b[k] == w[|a| + k];
  }

  lemma TightAppend(a: seq<byte>, b: seq<byte>, lc: nat, entries: set<int>)
    requires Tight(a, lc, entries) && Tight(b, lc, entries)
    ensures Tight(a + b, lc, entries)
  {
    hide GoodInstr, Boundary, InstrLen, Stays;
    ClosedAppend(a, b, lc, entries);
    forall i: nat | Boundary(a + b, i) && i < |a + b|
      ensures Stays(a + b, i)
    {
      BoundaryAppend(a, b, i);
      if i < |a| {
        StaysShift([], a, b, i, lc, entries);
        assert [] + a + b == a + b;
      } else {
        StaysShift(a, b, [], i - |a|, lc, entries);
        assert a + b + [] == a + b;
      }
    }
  }

  ghost predicate TablesFit(funs: map<string, FunInfo>, lc: nat) {
    lc <= 256 && forall f :: f in funs ==> |funs[f].locals| <= lc
  }

  function Entries(addrs: map<string, nat>): set<int> {
    set f | f in addrs :: addrs[f]
  }

  lemma FunctionTight(f: FunctionDef, funs: map<string, FunInfo>, near: map<string, nat>, lc: nat, entries: set<int>)
    requires TablesFit(funs, lc) && GenFunction(f, funs, near).Ok?
    requires forall g :: g in near ==> near[g] in entries
    ensures Tight(GenFunction(f, funs, near).value, lc, entries)
    ensures |GenFunction(f, funs, near).value| > 0
  {
    hide Closed, Tight;
    var env := Env(funs[f.name].locals, funs, near);
    StmtsClosed(f.body, env, lc, entries);
    TightFunction(GenStmts(f.body, env).value, lc, entries);
  }

  lemma {:induction false} FunctionsTight(fs: seq<FunctionDef>, funs: map<string, FunInfo>, near: map<string, nat>,
                                          prefix: seq<byte>, lc: nat, entries: set<int>)
    requires TablesFit(funs, lc) && Linking.DistinctFunctions(fs) && (forall i :: 0 <= i < |fs| ==> fs[i].name !in near)
    requires GenFunctions(fs, funs, near, |prefix|).Ok?
    requires entries == Entries(GenFunctions(fs, funs, near, |prefix|).value.addrs)
    requires Tight(prefix, lc, entries)
    ensures var image := GenFunctions(fs, funs, near, |prefix|).value;
            && Tight(prefix + image.code, lc, entries)
            && forall f :: f in image.addrs && f !in near ==>
                 Boundary(prefix + image.code, image.addrs[f]) && image.addrs[f] < |prefix + image.code|
  {
    hide Tight, Boundary, GenFunction, InstrLen;
    if fs == [] {
      assert prefix + [] == prefix;
    } else {
      var near' := near[fs[0].name := |prefix|];
      var c := GenFunction(fs[0], funs, near').value;
      var image := GenFunctions(fs, funs, near, |prefix|).value;
      var rest := GenFunctions(fs[1..], funs, near', |prefix| + |c|).value;
      assert |prefix + c| == |prefix| + |c|;
      assert GenFunctions(fs[1..], funs, near', |prefix + c|).value == rest;
      Linking.LaidOut(fs[1..], funs, near', prefix + c);
      assert forall g :: g in near' ==> near'[g] == image.addrs[g] && near'[g] in entries;
      FunctionTight(fs[0], funs, near', lc, entries);
      TightAppend(prefix, c, lc, entries);
      FunctionsTight(fs[1..], funs, near', prefix + c, lc, entries);
      assert prefix + image.code == (prefix + c) + rest.code;
      TightIsWhole(prefix, lc, entries);
      BoundaryAppend(prefix, c + rest.code, |prefix|);
      assert prefix + (c + rest.code) == prefix + image.code;
    }
  }

  lemma TightIsWhole(c: seq<byte>, lc: nat, entries: set<int>)
    requires Tight(c, lc, entries)
    ensures Whole(c)
  {
  }

  /** Program counter and return addresses start instructions inside the code. */
  ghost predicate OnTrack<W>(c: seq<byte>, s: M.State<W>) {
    && Boundary(c, s.pc) && s.pc < |c| && |s.locals| == M.MAX_LOCALS
    && forall i :: 0 <= i < |s.frames| ==> Boundary(c, s.frames[i]) && s.frames[i] < |c|
  }

  ghost predicate SafeCode(bc: M.Bytecode, entries: set<int>) {
    && Tight(bc.code, bc.localCount, entries)
    && bc.localCount <= M.MAX_LOCALS
    && forall e :: e in entries ==> 0 <= e < |bc.code| && Boundary(bc.code, e)
  }

  const BAD := {M.InvalidOpcode, M.OutOfBoundsJump, M.OutOfBoundsLocal}

  lemma InstrFacts<W>(bc: M.Bytecode, entries: set<int>, s: M.State<W>)
    requires SafeCode(bc, entries) && OnTrack(bc.code, s)
    ensures GoodInstr(bc.code, s.pc, bc.localCount, entries) && Stays(bc.code, s.pc)
  {
    hide Boundary;
  }

  /** Jumps, calls and returns of safe code; s is past the opcode. */
  lemma ControlSafe<W>(bc: M.Bytecode, entries: set<int>, s: M.State<W>)
    requires SafeCode(bc, entries) && OnTrack(bc.code, s) && bc.code[s.pc] in {JMP, JMP_IF_FALSE, CALL, RETURN}
    ensures var (s', status) := M.StepControl(bc, bc.code[s.pc], s.(pc := s.pc + 1));
            status !in BAD && (status == M.Running ==> OnTrack(bc.code, s'))
  {
    hide Boundary, I16At, U16At, Tight;
    InstrFacts(bc, entries, s);
  }

  /** Pushes and local accesses of safe code; s is past the opcode. */
  lemma OperandSafe<W>(bc: M.Bytecode, entries: set<int>, s: M.State<W>)
    requires SafeCode(bc, entries) && OnTrack(bc.code, s)
    ensures var op := bc.code[s.pc];
            && (op in {PUSH_INT, PUSH_BOOL} ==>
                  var (s', status) := M.StepPush(bc, op, s.(pc := s.pc + 1));
                  status !in BAD && (status == M.Running ==> OnTrack(bc.code, s')))
            && (op in {LOAD_LOCAL, STORE_LOCAL} ==>
                  var (s', status) := M.StepLocal(bc, op, s.(pc := s.pc + 1));
                  status !in BAD && (status == M.Running ==> OnTrack(bc.code, s')))
  {
    hide Boundary, I32At, Tight;
    InstrFacts(bc, entries, s);
  }

  /** One step of safe code is never at fault for the code, and stays on track. */
  lemma StepSafe<W>(bc: M.Bytecode, entries: set<int>, h: Option<M.Handler<W>>, s: M.State<W>)
    requires SafeCode(bc, entries) && OnTrack(bc.code, s)
    ensures M.Step(bc, h, s).1 !in BAD
    ensures M.Step(bc, h, s).1 == M.Running ==> OnTrack(bc.code, M.Step(bc, h, s).0)
  {
    hide Boundary, M.StepControl, M.StepPush, M.StepLocal, M.Arith, SafeCode;
    var op := bc.code[s.pc];
    OperandSafe(bc, entries, s);
    if op in {JMP, JMP_IF_FALSE, CALL, RETURN} {
      ControlSafe(bc, entries, s);
    } else if op !in {PUSH_INT, PUSH_BOOL, LOAD_LOCAL, STORE_LOCAL} {
      InstrFacts(bc, entries, s);
    }
  }

  /**
   In every run of safe code, with any handler and any budget, no status blames the code, and wherever the budget
   stops the run, the program counter and all return addresses are instruction boundaries inside the code.
   */
  lemma {:induction false} RunSafe<W>(bc: M.Bytecode, entries: set<int>, h: Option<M.Handler<W>>, s: M.State<W>, b: nat)
    requires SafeCode(bc, entries) && OnTrack(bc.code, s)
    ensures var r := M.Run(bc, h, s, b);
            r.status !in BAD && (r.status == M.BudgetExhausted ==> OnTrack(bc.code, r.state))
    decreases b
  {
    hide M.Step, SafeCode, OnTrack;
    OnTrackLocals(bc.code, s);
    StepSafe(bc, entries, h, s);
    MachineLaws.StepNeverExhausts(bc, h, s);
    var cost := M.CostAt(bc.code, s.pc);
    if cost <= b && M.Step(bc, h, s).1 == M.Running {
      RunSafe(bc, entries, h, M.Step(bc, h, s).0, b - cost);
    }
  }

  lemma OnTrackLocals<W>(c: seq<byte>, s: M.State<W>)
    requires OnTrack(c, s)
    ensures |s.locals| == M.MAX_LOCALS
  {
  }

  /** All generated code is safe; its entries are exactly the function addresses. */
  lemma GeneratedSafe(p: Program, funs: map<string, FunInfo>)
    requires Linking.DistinctFunctions(p.functions) && Generate(p, funs).Ok?
    ensures var image := GenFunctions(p.functions, funs, map[], 4).value;
            SafeCode(Linking.Loaded(Generate(p, funs).value), Entries(image.addrs))
  {
    hide GenFunctions, Generate, Tight, Boundary, LocalCount;
    var prefix, image := Linking.GeneratedShape(p, funs);
    var lc := LocalCount(funs);
    var entries := Entries(image.addrs);
    PrefixTight(prefix, image.addrs["main"], lc, entries);
    FunctionsTight(p.functions, funs, map[], prefix, lc, entries);
  }

  lemma PrefixTight(prefix: seq<byte>, main: nat, lc: nat, entries: set<int>)
    requires main < 0x8000 && main in entries
    requires prefix == [CALL] + I16Bytes(main) + [HALT]
    ensures Tight(prefix, lc, entries)
  {
    var call := [CALL] + U16Bytes(main);
    assert call[1..1 + 2] == U16Bytes(main);
    U16RoundTrip(call, 1, main);
    ClosedInstr(call, lc, entries);
    ClosedPlain([HALT], lc, entries);
    ClosedAppend(call, [HALT], lc, entries);
    assert prefix == call + [HALT];
    forall i: nat | Boundary(prefix, i) && i < |prefix|
      ensures Stays(prefix, i)
    {
      BoundaryAppend(call, [HALT], i);
      assert i < 3 ==> Boundary(call, i);
      assert call[3..] == [];
    }
  }

  /** Static safety of every compiled program, with no fragment restriction. */
  lemma CompiledCodeSafe<W>(p: Program, funs: map<string, FunInfo>, h: Option<M.Handler<W>>,
                            locals: seq<int32>, world: W, b: nat)
    requires Linking.DistinctFunctions(p.functions) && Generate(p, funs).Ok? && |locals| == M.MAX_LOCALS
    ensures var bc := Linking.Loaded(Generate(p, funs).value);
            var r := M.Run(bc, h, M.State(0, [], locals, [], false, world), b);
            r.status !in BAD && (r.status == M.BudgetExhausted ==> OnTrack(bc.code, r.state))
  {
    hide Tight, Boundary, M.Run, Generate;
    GeneratedSafe(p, funs);
    var bc := Linking.Loaded(Generate(p, funs).value);
    var prefix, image := Linking.GeneratedShape(p, funs);
    RunSafe(bc, Entries(GenFunctions(p.functions, funs, map[], 4).value.addrs), h,
            M.State(0, [], locals, [], false, world), b);
  }
}
