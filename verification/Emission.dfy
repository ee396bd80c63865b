/** Code generation as the compiler does it: one growing buffer, placeholders, and patches made in place. */
module Emission {
  import opened Words
  import opened Ast
  import opened Tables
  import opened Codegen
  import Opcodes

  /** The buffer a with two bytes replaced by the patched offset, followed by b. */
  lemma PatchInPlace(a: seq<byte>, old2: seq<byte>, b: seq<byte>, new2: seq<byte>)
    requires |old2| == |new2| == 2
    ensures var c := a + old2 + b;
            c[|a| := new2[0]][|a| + 1 := new2[1]] == a + new2 + b
  {
  }

  /** The method did what the specification says: appended its code, or failed with its error. */
  ghost predicate Emitted(spec: Code, before: seq<byte>, after: seq<byte>, error: Option<GenError>) {
    match spec
    case Ok(c) => error == None && after == before + c
    case Err(e) => error == Some(e)
  }

  lemma Assoc4(a: seq<byte>, b: seq<byte>, c: seq<byte>, d: seq<byte>)
    ensures a + b + c + d == a + (b + c + d)
  {
  }

  class Emitter {
    var code: seq<byte>

    constructor ()
      ensures code == []
    {
      code := [];
    }

    method EmitU8(v: int)
      modifies this
      ensures code == old(code) + [v % 0x100]
    {
      code := code + [v % 0x100];
    }

    /** Packs a signed 16-bit operand, or fails when it does not fit. */
    method EmitI16(v: int) returns (ok: bool)
      modifies this
      ensures ok <==> -0x8000 <= v < 0x8000
      ensures ok ==> code == old(code) + I16Bytes(v)
    {
      ok := -0x8000 <= v < 0x8000;
      if ok {
        code := code + I16Bytes(v);
      }
    }

    method EmitU16(v: int) returns (ok: bool)
      modifies this
      ensures ok <==> 0 <= v < 0x1_0000
      ensures ok ==> code == old(code) + U16Bytes(v)
    {
      ok := 0 <= v < 0x1_0000;
      if ok {
        code := code + U16Bytes(v);
      }
    }

    method EmitI32(v: int) returns (ok: bool)
      modifies this
      ensures ok <==> -0x8000_0000 <= v < 0x8000_0000
      ensures ok ==> code == old(code) + I32Bytes(v)
    {
      ok := -0x8000_0000 <= v < 0x8000_0000;
      if ok {
        code := code + I32Bytes(v);
      }
    }

    function Pos(): nat
      reads this
    {
      |code|
    }

    method PatchI16(offset: nat, v: int) returns (ok: bool)
      requires offset + 2 <= |code|
      modifies this
      ensures ok <==> -0x8000 <= v < 0x8000
      ensures ok ==> code == old(code)[..offset] + I16Bytes(v) + old(code)[offset + 2..]
    {
      ok := -0x8000 <= v < 0x8000;
      if ok {
        var data := I16Bytes(v);
        PatchInPlace(code[..offset], code[offset..offset + 2], code[offset + 2..], data);
        assert code == code[..offset] + code[offset..offset + 2] + code[offset + 2..];
        code := code[offset := data[0]];
        code := code[offset + 1 := data[1]];
      }
    }

    method EmitBytes(s: seq<byte>)
      modifies this
      ensures code == old(code) + s
    {
      for i := 0 to |s|
        invariant code == old(code) + s[..i]
      {
        EmitU8(s[i]);
        assert s[..i + 1] == s[..i] + [s[i]];
      }
      assert s[..|s|] == s;
    }

    method EmitLocal(op: byte, locals: seq<string>, name: string) returns (error: Option<GenError>)
      modifies this
      ensures Emitted(LocalCode(op, locals, name), old(code), code, error)
    {
      match SlotOf(locals, name)
      case None => return Some(UnknownName(name));
      case Some(slot) =>
        EmitU8(op);
        EmitU8(slot);
        return None;
    }

    method EmitExpr(e: Expr, env: Env) returns (error: Option<GenError>)
      modifies this
      ensures Emitted(GenExpr(e, env), old(code), code, error)
      decreases e, 2
    {
      hide BuiltinOf, LocalCode, CallCode, I32Bytes;
      match e
      case IntLit(n) =>
        EmitU8(Opcodes.PUSH_INT);
        var ok := EmitI32(n);
        return if ok then None else Some(OperandRange);
      case BoolLit(b) =>
        EmitU8(Opcodes.PUSH_BOOL);
        EmitU8(if b then 1 else 0);
        return None;
      case Var(name) =>
        error := EmitLocal(Opcodes.LOAD_LOCAL, env.locals, name);
      case Binary(op, left, right) =>
        error := EmitBinary(e, env);
      case Unary(op, operand) =>
        error := EmitExpr(operand, env);
        if error == None {
          EmitU8(UnaryCode(op));
        }
      case Call(name, args) =>
        var builtin := BuiltinOf(name);
        if builtin.Some? {
          error := EmitBuiltin(e, builtin.value, env);
        } else {
          error := EmitExprs(args, env);
          if error == None {
            error := EmitCall(name, |args|, env);
          }
        }
    }

    method EmitBinary(e: Expr, env: Env) returns (error: Option<GenError>)
      requires e.Binary?
      modifies this
      ensures Emitted(GenExpr(e, env), old(code), code, error)
      decreases e, 1
    {
      hide BinaryCode;
      error := EmitExpr(e.left, env);
      if error == None {
        error := EmitExpr(e.right, env);
      }
      if error == None {
        EmitBytes(BinaryCode(e.op));
        Assoc4(old(code), GenExpr(e.left, env).value, GenExpr(e.right, env).value, BinaryCode(e.op));
      }
    }

    method EmitBuiltin(e: Expr, b: Builtin, env: Env) returns (error: Option<GenError>)
      requires e.Call? && BuiltinOf(e.callee) == Some(b)
      modifies this
      ensures Emitted(GenExpr(e, env), old(code), code, error)
      decreases e, 1
    {
      hide BuiltinOf;
      if SugarCode(b).Some? {
        EmitBytes(SugarCode(b).value);
      } else if b == MyTrait {
        if e.args == [] {
          return Some(MissingParameter);
        }
        if !e.args[0].IntLit? {
          return Some(TraitNotLiteral);
        }
        EmitU8(Opcodes.MY_TRAIT);
        EmitU8(e.args[0].n);
      } else {
        error := EmitExprs(e.args, env);
        if error != None {
          return;
        }
        EmitU8(IntrinsicCode(b));
      }
      return None;
    }

    method EmitExprs(es: seq<Expr>, env: Env) returns (error: Option<GenError>)
      modifies this
      ensures Emitted(GenExprs(es, env), old(code), code, error)
      decreases es, 0
    {
      hide GenExpr;
      ghost var done: seq<byte> := [];
      for i := 0 to |es|
        invariant code == old(code) + done
        invariant GenExprs(es, env) == Behind(done, GenExprs(es[i..], env))
      {
        assert es[i..][0] == es[i] && es[i..][1..] == es[i + 1..];
        error := EmitExpr(es[i], env);
        if error != None {
          return;
        }
        ghost var c := GenExpr(es[i], env).value;
        BehindMore(done, c, GenExprs(es[i + 1..], env));
        done := done + c;
      }
      assert es[|es|..] == [] && done + [] == done;
      return None;
    }

    /** Stores the arguments, last one first, then calls a function that has been emitted already. */
    method EmitCall(name: string, argCount: nat, env: Env) returns (error: Option<GenError>)
      modifies this
      ensures Emitted(CallCode(name, argCount, env), old(code), code, error)
    {
      if name !in env.funs {
        return Some(UnknownName(name));
      }
      var locals := env.funs[name].locals;
      var i := argCount;
      ghost var spec := StoreArgs(locals, argCount);
      ghost var done: seq<byte> := [];
      while i > 0
        invariant 0 <= i <= argCount && code == old(code) + done
        invariant spec == Behind(done, StoreArgs(locals, i))
      {
        if i > |locals| {
          return Some(MissingParameter);
        }
        ghost var here := LocalCode(Opcodes.STORE_LOCAL, locals, locals[i - 1]);
        error := EmitLocal(Opcodes.STORE_LOCAL, locals, locals[i - 1]);
        if error != None {
          return;
        }
        BehindMore(done, here.value, StoreArgs(locals, i - 1));
        done := done + here.value;
        i := i - 1;
      }
      if name !in env.addrs {
        return Some(ForwardCall(name));
      }
      if env.addrs[name] > 65535 {
        return Some(AddressTooLarge(name));
      }
      EmitU8(Opcodes.CALL);
      var _ := EmitU16(env.addrs[name]);
      return None;
    }

    method EmitStmts(ss: seq<Stmt>, env: Env) returns (error: Option<GenError>)
      modifies this
      ensures Emitted(GenStmts(ss, env), old(code), code, error)
      decreases ss, 0
    {
      hide GenStmt;
      ghost var done: seq<byte> := [];
      for i := 0 to |ss|
        invariant code == old(code) + done
        invariant GenStmts(ss, env) == Behind(done, GenStmts(ss[i..], env))
      {
        assert ss[i..][0] == ss[i] && ss[i..][1..] == ss[i + 1..];
        error := EmitStmt(ss[i], env);
        if error != None {
          return;
        }
        ghost var c := GenStmt(ss[i], env).value;
        BehindMore(done, c, GenStmts(ss[i + 1..], env));
        done := done + c;
      }
      assert ss[|ss|..] == [] && done + [] == done;
      return None;
    }

    method EmitStmt(s: Stmt, env: Env) returns (error: Option<GenError>)
      modifies this
      ensures Emitted(GenStmt(s, env), old(code), code, error)
      decreases s, 2
    {
      hide GenExpr, GenStmts, LocalCode, Jump, ExprPushes;
      match s
      case VarDecl(name, init) =>
        error := EmitExpr(init, env);
        if error == None {
          error := EmitLocal(Opcodes.STORE_LOCAL, env.locals, name);
        }
      case Assign(name, val) =>
        error := EmitExpr(val, env);
        if error == None {
          error := EmitLocal(Opcodes.STORE_LOCAL, env.locals, name);
        }
      case ExprStmt(e) =>
        error := EmitExpr(e, env);
        if error == None && ExprPushes(e) {
          EmitU8(Opcodes.POP);
        }
      case IfThen(_, _) => error := EmitIfThen(s, env);
      case IfElse(_, _, _) => error := EmitIfElse(s, env);
      case While(_, _) => error := EmitWhile(s, env);
      case ReturnVoid =>
        EmitU8(Opcodes.RETURN);
        return None;
      case Return(res) =>
        error := EmitExpr(res, env);
        if error == None {
          EmitU8(Opcodes.RETURN);
        }
    }

    /** A jump with a placeholder for its operand, whose position is returned. */
    method EmitHole(op: byte) returns (at: nat)
      modifies this
      ensures at == |old(code)| + 1
      ensures code == old(code) + [op] + I16Bytes(0)
    {
      EmitU8(op);
      at := Pos();
      var _ := EmitI16(0);
    }

    /** Fills the hole of a jump so that it leads to the current position. */
    method PatchHere(at: nat, ghost before: seq<byte>, ghost op: byte, ghost middle: seq<byte>) returns (ok: bool)
      requires code == before + [op] + I16Bytes(0) + middle && at == |before| + 1
      modifies this
      ensures ok <==> Jump(op, 2 + |middle|).Ok?
      ensures ok ==> code == before + Jump(op, 2 + |middle|).value + middle
    {
      var offset := Pos() - at;
      assert code[..at] == before + [op] && code[at + 2..] == middle;
      ok := PatchI16(at, offset);
      if ok {
        assert before + [op] + I16Bytes(offset) + middle == before + ([op] + I16Bytes(offset)) + middle;
      }
    }

    method EmitIfThen(s: Stmt, env: Env) returns (error: Option<GenError>)
      requires s.IfThen?
      modifies this
      ensures Emitted(GenStmt(s, env), old(code), code, error)
      decreases s, 1
    {
      hide GenExpr, GenStmts, Jump, I16Bytes;
      error := EmitExpr(s.cond, env);
      if error != None {
        return;
      }
      ghost var c := GenExpr(s.cond, env).value;
      var hole := EmitHole(Opcodes.JMP_IF_FALSE);
      error := EmitStmts(s.thn, env);
      if error != None {
        return;
      }
      var ok := PatchHere(hole, old(code) + c, Opcodes.JMP_IF_FALSE, GenStmts(s.thn, env).value);
      JumpError(Opcodes.JMP_IF_FALSE, 2 + |GenStmts(s.thn, env).value|);
      return if ok then None else Some(OperandRange);
    }

    method EmitIfElse(s: Stmt, env: Env) returns (error: Option<GenError>)
      requires s.IfElse?
      modifies this
      ensures Emitted(GenStmt(s, env), old(code), code, error)
      decreases s, 1
    {
      hide GenExpr, GenStmts, Jump, I16Bytes;
      error := EmitExpr(s.cond, env);
      if error != None {
        return;
      }
      ghost var c := GenExpr(s.cond, env).value;
      var skipHole := EmitHole(Opcodes.JMP_IF_FALSE);
      error := EmitStmts(s.thn, env);
      if error != None {
        return;
      }
      ghost var t := GenStmts(s.thn, env).value;
      var overHole := EmitHole(Opcodes.JMP);
      ghost var hole := [Opcodes.JMP] + I16Bytes(0);
      assert code == old(code) + c + [Opcodes.JMP_IF_FALSE] + I16Bytes(0) + (t + hole);
      var ok := PatchHere(skipHole, old(code) + c, Opcodes.JMP_IF_FALSE, t + hole);
      JumpError(Opcodes.JMP_IF_FALSE, 2 + |t + hole|);
      if !ok {
        return Some(OperandRange);
      }
      ghost var front := old(code) + c + Jump(Opcodes.JMP_IF_FALSE, 2 + |t + hole|).value + t;
      error := EmitStmts(s.els, env);
      if error != None {
        return;
      }
      ghost var e := GenStmts(s.els, env).value;
      assert code == front + [Opcodes.JMP] + I16Bytes(0) + e;
      ok := PatchHere(overHole, front, Opcodes.JMP, e);
      JumpError(Opcodes.JMP, 2 + |e|);
      if ok {
        ghost var skip, over := Jump(Opcodes.JMP_IF_FALSE, 2 + |t| + 3).value, Jump(Opcodes.JMP, 2 + |e|).value;
        assert front + over + e == old(code) + (c + skip + t + over + e);
      }
      return if ok then None else Some(OperandRange);
    }

    lemma JumpError(op: byte, offset: int)
      ensures Jump(op, offset).Err? ==> Jump(op, offset).error == OperandRange
      ensures Jump(op, offset).Ok? ==> |Jump(op, offset).value| == 3
    {
    }

    method EmitWhile(s: Stmt, env: Env) returns (error: Option<GenError>)
      requires s.While?
      modifies this
      ensures Emitted(GenStmt(s, env), old(code), code, error)
      decreases s, 1
    {
      hide GenExpr, GenStmts, I16Bytes;
      var loopStart := Pos();
      error := EmitExpr(s.cond, env);
      if error != None {
        return;
      }
      ghost var c := GenExpr(s.cond, env).value;
      var hole := EmitHole(Opcodes.JMP_IF_FALSE);
      error := EmitStmts(s.body, env);
      if error != None {
        return;
      }
      ghost var b := GenStmts(s.body, env).value;
      EmitU8(Opcodes.JMP);
      var backOffset := loopStart - Pos();
      var ok := EmitI16(backOffset);
      if !ok {
        return Some(OperandRange);
      }
      ghost var back := Jump(Opcodes.JMP, backOffset).value;
      assert backOffset == -(|c| + 3 + |b| + 1);
      assert code == old(code) + c + [Opcodes.JMP_IF_FALSE] + I16Bytes(0) + (b + back);
      ok := PatchHere(hole, old(code) + c, Opcodes.JMP_IF_FALSE, b + back);
      if ok {
        ghost var skip := Jump(Opcodes.JMP_IF_FALSE, 2 + |b| + 3).value;
        assert old(code) + c + skip + (b + back) == old(code) + (c + skip + b + back);
      }
      return if ok then None else Some(OperandRange);
    }

    /** Emits all functions one after the other, recording each address before its body. */
    method EmitFunctions(fs: seq<FunctionDef>, funs: map<string, FunInfo>)
      returns (error: Option<GenError>, addrs: map<string, nat>)
      modifies this
      ensures match GenFunctions(fs, funs, map[], |old(code)|)
              case Ok(image) => error == None && code == old(code) + image.code && addrs == image.addrs
              case Err(e) => error == Some(e)
    {
      hide GenStmts;
      addrs := map[];
      ghost var base := |code|;
      ghost var spec := GenFunctions(fs, funs, map[], base);
      ghost var done: seq<byte> := [];
      for i := 0 to |fs|
        invariant code == old(code) + done
        invariant spec == Prepend(done, GenFunctions(fs[i..], funs, addrs, base + |done|))
      {
        assert fs[i..][0] == fs[i] && fs[i..][1..] == fs[i + 1..];
        var f := fs[i];
        if f.name !in funs {
          error := Some(UnknownName(f.name));
          return;
        }
        addrs := addrs[f.name := Pos()];
        error := EmitStmts(f.body, Env(funs[f.name].locals, funs, addrs));
        if error != None {
          return;
        }
        EmitU8(Opcodes.RETURN);
        ghost var c := GenFunction(f, funs, addrs).value;
        PrependMore(done, c, GenFunctions(fs[i + 1..], funs, addrs, base + |done| + |c|));
        done := done + c;
      }
      assert fs[|fs|..] == [] && done + [] == done;
      error := None;
    }
  }

  /** The image of the functions still to come, behind the code that is done. */
  ghost function Prepend(done: seq<byte>, image: Result<Image, GenError>): (r: Result<Image, GenError>)
    ensures done == [] ==> r == image
  {
    match image
    case Ok(i) => assert done == [] ==> done + i.code == i.code; Ok(Image(done + i.code, i.addrs))
    case Err(e) => Err(e)
  }

  lemma PrependMore(done: seq<byte>, c: seq<byte>, rest: Result<Image, GenError>)
    ensures rest.Ok? ==> Prepend(done + c, rest) == Ok(Image(done + (c + rest.value.code), rest.value.addrs))
  {
    if rest.Ok? {
      assert done + (c + rest.value.code) == (done + c) + rest.value.code;
    }
  }

  /** The maximum of the local counts, found by visiting the tables in any order. */
  method MaxLocals(funs: map<string, FunInfo>) returns (total: nat)
    ensures total == LocalCount(funs)
  {
    total := 0;
    var rest := funs.Keys;
    while rest != {}
      invariant rest <= funs.Keys
      invariant forall f :: f in funs && f !in rest ==> |funs[f].locals| <= total
      invariant total == 0 || exists f :: f in funs && |funs[f].locals| == total
      decreases |rest|
    {
      var f :| f in rest;
      if |funs[f].locals| > total {
        total := |funs[f].locals|;
      }
      rest := rest - {f};
    }
    assert IsLocalCount(funs, total);
    CountsAgree(funs, total, LocalCount(funs));
  }

  lemma CountsAgree(funs: map<string, FunInfo>, m: nat, n: nat)
    requires IsLocalCount(funs, m) && IsLocalCount(funs, n)
    ensures m == n
  {
  }

  method Generate(p: Program, funs: map<string, FunInfo>) returns (r: Result<Output, GenError>)
    ensures r == Codegen.Generate(p, funs)
  {
    hide LocalCount, GenStmts, GenFunctions;
    if "main" !in funs {
      return Err(NoMain);
    }
    var em := new Emitter();
    em.EmitU8(Opcodes.CALL);
    var mainCallPos := em.Pos();
    var _ := em.EmitU16(0);
    em.EmitU8(Opcodes.HALT);
    ghost var prefix := em.code;
    assert prefix == [Opcodes.CALL, 0, 0, Opcodes.HALT];

    var error, addrs := em.EmitFunctions(p.functions, funs);
    if error != None {
      return Err(error.value);
    }
    ghost var done := GenFunctions(p.functions, funs, map[], 4).value.code;
    if "main" !in addrs {
      return Err(UnknownName("main"));
    }
    assert em.code[..1] == [Opcodes.CALL] && em.code[3..] == [Opcodes.HALT] + done;
    var ok := em.PatchI16(mainCallPos, addrs["main"]);
    if !ok {
      return Err(OperandRange);
    }
    assert em.code == [Opcodes.CALL] + I16Bytes(addrs["main"]) + [Opcodes.HALT] + done;
    if |em.code| > 65535 {
      return Err(CodeTooLarge);
    }
    var totalLocals := MaxLocals(funs);
    if totalLocals > 256 {
      return Err(TooManyLocals);
    }
    return Ok(Output(em.code, totalLocals));
  }
}
