/** What the compiler emits, as a function of the syntax tree: code generation without the patching. */
module Codegen {
  import opened Words
  import opened Ast
  import opened Tables
  import Opcodes

  datatype GenError =
    | NoMain
    | UnknownName(name: string)
    | MissingParameter
    | TraitNotLiteral
    | ForwardCall(name: string)
    | AddressTooLarge(name: string)
    | OperandRange
    | CodeTooLarge
    | TooManyLocals

  type Code = Result<seq<byte>, GenError>

  /** The current function's locals, all function tables, and the functions emitted so far. */
  datatype Env = Env(locals: seq<string>, funs: map<string, FunInfo>, addrs: map<string, nat>)

  function BinaryCode(op: BinOp): (s: seq<byte>)
    ensures 1 <= |s| <= 2
  {
    match op
    case Add => [Opcodes.ADD]
    case Sub => [Opcodes.SUB]
    case Mul => [Opcodes.MUL]
    case Div => [Opcodes.DIV]
    case Mod => [Opcodes.MOD]
    case Eq => [Opcodes.EQ]
    case Ne => [Opcodes.EQ, Opcodes.NOT]
    case Lt => [Opcodes.LT]
    case Gt => [Opcodes.GT]
    case Le => [Opcodes.GT, Opcodes.NOT]
    case Ge => [Opcodes.LT, Opcodes.NOT]
    case And => [Opcodes.AND]
    case Or => [Opcodes.OR]
  }

  function UnaryCode(op: UnOp): byte {
    match op
    case Neg => Opcodes.NEG
    case Not => Opcodes.NOT
  }

  /** The code of a perception sugar builtin: the intrinsic and the stack shuffle after it. */
  function SugarCode(b: Builtin): Option<seq<byte>> {
    match b
    case PerceiveAgents => Some([Opcodes.PERCEIVE])
    case PerceiveWater => Some([Opcodes.PERCEIVE, Opcodes.SWAP, Opcodes.POP])
    case PerceiveFood => Some([Opcodes.PERCEIVE, Opcodes.POP, Opcodes.POP])
    case PerceiveTerrain => Some([Opcodes.PERCEIVE, Opcodes.POP, Opcodes.POP, Opcodes.POP])
    case LookAgents => Some([Opcodes.LOOK])
    case LookWater => Some([Opcodes.LOOK, Opcodes.SWAP, Opcodes.POP])
    case LookFood => Some([Opcodes.LOOK, Opcodes.POP, Opcodes.POP])
    case LookTerrain => Some([Opcodes.LOOK, Opcodes.POP, Opcodes.POP, Opcodes.POP])
    case _ => None
  }

  function IntrinsicCode(b: Builtin): byte
    requires SugarCode(b).None?
  {
    match b
    case Perceive => Opcodes.PERCEIVE
    case Look => Opcodes.LOOK
    case Move => Opcodes.MOVE
    case TurnLeft => Opcodes.TURN_LEFT
    case TurnRight => Opcodes.TURN_RIGHT
    case Eat => Opcodes.EAT
    case Drink => Opcodes.DRINK
    case Reproduce => Opcodes.REPRODUCE
    case MyEnergy => Opcodes.MY_ENERGY
    case MyHydration => Opcodes.MY_HYDRATION
    case MyTrait => Opcodes.MY_TRAIT
  }

  function LocalCode(op: byte, locals: seq<string>, name: string): Code {
    match SlotOf(locals, name)
    case None => Err(UnknownName(name))
    case Some(slot) => Ok([op, slot % 0x100])
  }

  /** Stores the topmost n stack values, the last argument first, into the callee's first n locals. */
  function StoreArgs(locals: seq<string>, n: nat): Code {
    if n == 0 then Ok([])
    else if n > |locals| then Err(MissingParameter)
    else
      var first :- LocalCode(Opcodes.STORE_LOCAL, locals, locals[n - 1]);
      var rest :- StoreArgs(locals, n - 1);
      Ok(first + rest)
  }

  function CallCode(name: string, argCount: nat, env: Env): Code {
    if name !in env.funs then Err(UnknownName(name))
    else
      var stores :- StoreArgs(env.funs[name].locals, argCount);
      if name !in env.addrs then Err(ForwardCall(name))
      else if env.addrs[name] > 65535 then Err(AddressTooLarge(name))
      else Ok(stores + [Opcodes.CALL] + U16Bytes(env.addrs[name]))
  }

  function GenExpr(e: Expr, env: Env): Code
    decreases e, 1
  {
    match e
    case IntLit(n) =>
      if -0x8000_0000 <= n < 0x8000_0000 then Ok([Opcodes.PUSH_INT] + I32Bytes(n)) else Err(OperandRange)
    case BoolLit(b) => Ok([Opcodes.PUSH_BOOL, if b then 1 else 0])
    case Var(name) => LocalCode(Opcodes.LOAD_LOCAL, env.locals, name)
    case Binary(op, left, right) =>
      var l :- GenExpr(left, env);
      var r :- GenExpr(right, env);
      Ok(l + r + BinaryCode(op))
    case Unary(op, operand) =>
      var c :- GenExpr(operand, env);
      Ok(c + [UnaryCode(op)])
    case Call(name, args) =>
      match BuiltinOf(name)
      case Some(b) =>
        if SugarCode(b).Some? then Ok(SugarCode(b).value)
        else if b == MyTrait then
          if args == [] then Err(MissingParameter)
          else if !args[0].IntLit? then Err(TraitNotLiteral)
          else Ok([Opcodes.MY_TRAIT, args[0].n % 0x100])
        else
          var c :- GenExprs(args, env);
          Ok(c + [IntrinsicCode(b)])
      case None =>
        var c :- GenExprs(args, env);
        var call :- CallCode(name, |args|, env);
        Ok(c + call)
  }

  function GenExprs(es: seq<Expr>, env: Env): Code
    decreases es, 0
  {
    if es == [] then Ok([])
    else
      var c :- GenExpr(es[0], env);
      var rest :- GenExprs(es[1..], env);
      Ok(c + rest)
  }

  /** Whether an expression statement needs a POP. */
  predicate ExprPushes(e: Expr) {
    !(e.Call? && BuiltinOf(e.callee) in {Some(Move), Some(TurnLeft), Some(TurnRight)})
  }

  /** A jump instruction; the offset counts from the operand. */
  function Jump(op: byte, offset: int): Code {
    if -0x8000 <= offset < 0x8000 then Ok([op] + I16Bytes(offset)) else Err(OperandRange)
  }

  function GenStmt(s: Stmt, env: Env): Code
    decreases s, 1
  {
    match s
    case VarDecl(name, init) =>
      var c :- GenExpr(init, env);
      var store :- LocalCode(Opcodes.STORE_LOCAL, env.locals, name);
      Ok(c + store)
    case Assign(name, val) =>
      var c :- GenExpr(val, env);
      var store :- LocalCode(Opcodes.STORE_LOCAL, env.locals, name);
      Ok(c + store)
    case ExprStmt(e) =>
      var c :- GenExpr(e, env);
      Ok(if ExprPushes(e) then c + [Opcodes.POP] else c)
    case IfThen(cond, thn) =>
      var c :- GenExpr(cond, env);
      var t :- GenStmts(thn, env);
      var skip :- Jump(Opcodes.JMP_IF_FALSE, 2 + |t|);
      Ok(c + skip + t)
    case IfElse(cond, thn, els) =>
      var c :- GenExpr(cond, env);
      var t :- GenStmts(thn, env);
      var skip :- Jump(Opcodes.JMP_IF_FALSE, 2 + |t| + 3);
      var e :- GenStmts(els, env);
      var over :- Jump(Opcodes.JMP, 2 + |e|);
      Ok(c + skip + t + over + e)
    case While(cond, body) =>
      var c :- GenExpr(cond, env);
      var b :- GenStmts(body, env);
      var back :- Jump(Opcodes.JMP, -(|c| + 3 + |b| + 1));
      var skip :- Jump(Opcodes.JMP_IF_FALSE, 2 + |b| + 3);
      Ok(c + skip + b + back)
    case ReturnVoid => Ok([Opcodes.RETURN])
    case Return(res) =>
      var c :- GenExpr(res, env);
      Ok(c + [Opcodes.RETURN])
  }

  function GenStmts(ss: seq<Stmt>, env: Env): Code
    decreases ss, 0
  {
    if ss == [] then Ok([])
    else
      var c :- GenStmt(ss[0], env);
      var rest :- GenStmts(ss[1..], env);
      Ok(c + rest)
  }

  /** The code of one function, with the implicit return at its end. */
  function GenFunction(f: FunctionDef, funs: map<string, FunInfo>, addrs: map<string, nat>): Code {
    if f.name !in funs then Err(UnknownName(f.name))
    else
      var c :- GenStmts(f.body, Env(funs[f.name].locals, funs, addrs));
      Ok(c + [Opcodes.RETURN])
  }

  datatype Image = Image(code: seq<byte>, addrs: map<string, nat>)

  /** Functions are laid out in order from address base; each one knows itself and those before it. */
  function GenFunctions(fs: seq<FunctionDef>, funs: map<string, FunInfo>, addrs: map<string, nat>, base: nat)
    : Result<Image, GenError>
  {
    if fs == [] then Ok(Image([], addrs))
    else
      var addrs' := addrs[fs[0].name := base];
      var c :- GenFunction(fs[0], funs, addrs');
      var rest :- GenFunctions(fs[1..], funs, addrs', base + |c|);
      Ok(Image(c + rest.code, rest.addrs))
  }

  /** The largest number of locals that any function needs. */
  ghost predicate IsLocalCount(funs: map<string, FunInfo>, n: nat) {
    && (forall f :: f in funs ==> |funs[f].locals| <= n)
    && (n == 0 || exists f :: f in funs && |funs[f].locals| == n)
  }

  datatype Output = Output(code: seq<byte>, localCount: nat)

  /** The order in which the function tables are visited does not matter to the maximum. */
  ghost function LocalCount(funs: map<string, FunInfo>): (n: nat)
    ensures IsLocalCount(funs, n)
  {
    LocalCountExists(funs);
    var n: nat :| IsLocalCount(funs, n);
    n
  }

  lemma LocalCountExists(funs: map<string, FunInfo>)
    ensures exists n: nat :: IsLocalCount(funs, n)
    decreases |funs|
  {
    if funs == map[] {
      assert IsLocalCount(funs, 0);
    } else {
      var f :| f in funs;
      var rest := map g | g in funs && g != f :: funs[g];
      assert rest.Keys == funs.Keys - {f};
      LocalCountExists(rest);
      var n: nat :| IsLocalCount(rest, n);
      var m := if |funs[f].locals| > n then |funs[f].locals| else n;
      forall g | g in funs
        ensures |funs[g].locals| <= m
      {
        assert g == f || g in rest;
      }
      if m == n && n > 0 {
        var g :| g in rest && |rest[g].locals| == n;
        assert g in funs && |funs[g].locals| == m;
      }
      assert IsLocalCount(funs, m);
    }
  }

  /** CALL main, HALT, then the functions. */
  ghost function Generate(p: Program, funs: map<string, FunInfo>): Result<Output, GenError> {
    if "main" !in funs then Err(NoMain)
    else
      var image :- GenFunctions(p.functions, funs, map[], 4);
      if "main" !in image.addrs then Err(UnknownName("main"))
      else if image.addrs["main"] >= 0x8000 then Err(OperandRange)
      else
        var code := [Opcodes.CALL] + I16Bytes(image.addrs["main"]) + [Opcodes.HALT] + image.code;
        if |code| > 65535 then Err(CodeTooLarge)
        else if LocalCount(funs) > 256 then Err(TooManyLocals)
        else Ok(Output(code, LocalCount(funs)))
  }
}
