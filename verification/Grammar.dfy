/** The parser as a function on token lists, and the printer that writes the shortest text. */
module Grammar {
  import opened Words
  import opened Ast
  import opened Tokens

  const MAX_EXPR_DEPTH := 200
  const UNARY := 6  // the levels below it are the binary ones, 0 being ||

  datatype ParseError = Expected(kind: Kind) | Unexpected(kind: Kind) | TooDeep | IntRange

  datatype Step<+T> = Step(node: T, rest: seq<Token>)

  type Parsed<+T> = Result<Step<T>, ParseError>

  function Peek(ts: seq<Token>): Kind {
    if ts == [] then EOF else ts[0].kind
  }

  /** A successful step uses up at least so many tokens. */
  ghost predicate Consumes<T>(r: Parsed<T>, ts: seq<Token>, atLeast: nat)
    ensures Consumes(r, ts, atLeast) && r.Ok? ==> |r.value.rest| + atLeast <= |ts|
  {
    r.Ok? ==> |r.value.rest| + atLeast <= |ts|
  }

  function Expect(ts: seq<Token>, k: Kind): (r: Parsed<string>)
    requires k != EOF
    ensures Consumes(r, ts, 1)
  {
    if Peek(ts) != k then Err(Expected(k)) else Ok(Step(ts[0].value, ts[1..]))
  }

  /** The binary operator that a token is at a precedence level. */
  function BinOpAt(level: nat, k: Kind): Option<BinOp> {
    match k
    case PIPEPIPE => if level == 0 then Some(Or) else None
    case AMPAMP => if level == 1 then Some(And) else None
    case EQEQ => if level == 2 then Some(Eq) else None
    case BANGEQ => if level == 2 then Some(Ne) else None
    case LT => if level == 3 then Some(BinOp.Lt) else None
    case GT => if level == 3 then Some(BinOp.Gt) else None
    case LTEQ => if level == 3 then Some(Le) else None
    case GTEQ => if level == 3 then Some(Ge) else None
    case PLUS => if level == 4 then Some(Add) else None
    case MINUS => if level == 4 then Some(Sub) else None
    case STAR => if level == 5 then Some(Mul) else None
    case SLASH => if level == 5 then Some(Div) else None
    case PERCENT => if level == 5 then Some(Mod) else None
    case _ => None
  }

  function UnOpOf(k: Kind): Option<UnOp> {
    if k == MINUS then Some(Neg) else if k == BANG then Some(Not) else None
  }

  // ---- Expressions; d is the depth of expression nesting so far ----

  function ParseExpression(ts: seq<Token>, d: nat): (r: Parsed<Expr>)
    ensures Consumes(r, ts, 1)
    decreases |ts|, 9
  {
    if d + 1 > MAX_EXPR_DEPTH then Err(TooDeep) else ParseLevel(0, ts, d + 1)
  }

  function ParseLevel(level: nat, ts: seq<Token>, d: nat): (r: Parsed<Expr>)
    requires level <= UNARY
    ensures Consumes(r, ts, 1)
    decreases |ts|, 8 - level
  {
    if level == UNARY then ParseUnary(ts, d)
    else
      var left :- ParseLevel(level + 1, ts, d);
      ParseTail(level, left.node, left.rest, d)
  }

  /** Further operands at a level; left is everything before them, so operators associate to the left. */
  function ParseTail(level: nat, left: Expr, ts: seq<Token>, d: nat): (r: Parsed<Expr>)
    requires level < UNARY
    ensures Consumes(r, ts, 0)
    decreases |ts|, 0
  {
    match BinOpAt(level, Peek(ts))
    case None => Ok(Step(left, ts))
    case Some(op) =>
      var right :- ParseLevel(level + 1, ts[1..], d);
      ParseTail(level, Binary(op, left, right.node), right.rest, d)
  }

  function ParseUnary(ts: seq<Token>, d: nat): (r: Parsed<Expr>)
    ensures Consumes(r, ts, 1)
    decreases |ts|, 1
  {
    match UnOpOf(Peek(ts))
    case Some(op) =>
      var operand :- ParseUnary(ts[1..], d);
      Ok(Step(Unary(op, operand.node), operand.rest))
    case None => ParsePrimary(ts, d)
  }

  function ParsePrimary(ts: seq<Token>, d: nat): (r: Parsed<Expr>)
    ensures Consumes(r, ts, 1)
    decreases |ts|, 0
  {
    match Peek(ts)
    case INT_LIT =>
      var val := DigitsValue(ts[0].value);
      if val > 2147483647 || val < -2147483648 then Err(IntRange) else Ok(Step(IntLit(val), ts[1..]))
    case TRUE => Ok(Step(BoolLit(true), ts[1..]))
    case FALSE => Ok(Step(BoolLit(false), ts[1..]))
    case IDENT =>
      var name, ts1 := ts[0].value, ts[1..];
      if Peek(ts1) != LPAREN then Ok(Step(Var(name), ts1))
      else
        var args :- ParseArgs(ts1[1..], d);
        var close :- Expect(args.rest, RPAREN);
        Ok(Step(Call(name, args.node), close.rest))
    case LPAREN =>
      var e :- ParseExpression(ts[1..], d);
      var close :- Expect(e.rest, RPAREN);
      Ok(Step(e.node, close.rest))
    case k => Err(Unexpected(k))
  }

  /** The arguments between the parentheses of a call. */
  function ParseArgs(ts: seq<Token>, d: nat): (r: Parsed<seq<Expr>>)
    ensures Consumes(r, ts, 0)
    decreases |ts|, 11
  {
    if Peek(ts) == RPAREN then Ok(Step([], ts)) else ParseArgList(ts, d)
  }

  function ParseArgList(ts: seq<Token>, d: nat): (r: Parsed<seq<Expr>>)
    ensures Consumes(r, ts, 1)
    decreases |ts|, 10
  {
    var e :- ParseExpression(ts, d);
    if Peek(e.rest) != COMMA then Ok(Step([e.node], e.rest))
    else
      var es :- ParseArgList(e.rest[1..], d);
      Ok(Step([e.node] + es.node, es.rest))
  }

  // ---- Statements ----

  /** IDENT followed by a single '='. */
  predicate IsAssignment(ts: seq<Token>) {
    |ts| > 1 && ts[1].kind == EQ && (|ts| <= 2 || ts[2].kind != EQ)
  }

  function ParseStatement(ts: seq<Token>): (r: Parsed<Stmt>)
    ensures Consumes(r, ts, 1)
    decreases |ts|, 4
  {
    match Peek(ts)
    case LET => ParseVarDecl(ts)
    case IF => ParseIf(ts)
    case WHILE => ParseWhile(ts)
    case RETURN => ParseReturn(ts)
    case k => if k == IDENT && IsAssignment(ts) then ParseAssignment(ts) else ParseExprStmt(ts)
  }

  function ParseVarDecl(ts: seq<Token>): (r: Parsed<Stmt>)
    ensures Consumes(r, ts, 1)
  {
    var let_ :- Expect(ts, LET);
    var name :- Expect(let_.rest, IDENT);
    var eq :- Expect(name.rest, EQ);
    var init :- ParseTerminated(eq.rest);
    Ok(Step(VarDecl(name.node, init.node), init.rest))
  }

  function ParseAssignment(ts: seq<Token>): (r: Parsed<Stmt>)
    ensures Consumes(r, ts, 1)
  {
    var name :- Expect(ts, IDENT);
    var eq :- Expect(name.rest, EQ);
    var val :- ParseTerminated(eq.rest);
    Ok(Step(Assign(name.node, val.node), val.rest))
  }

  function ParseIf(ts: seq<Token>): (r: Parsed<Stmt>)
    ensures Consumes(r, ts, 1)
    decreases |ts|, 3
  {
    var if_ :- Expect(ts, IF);
    var cond :- ParseCondition(if_.rest);
    var thn :- ParseBlock(cond.rest);
    if Peek(thn.rest) != ELSE then Ok(Step(IfThen(cond.node, thn.node), thn.rest))
    else
      var els :- ParseBlock(thn.rest[1..]);
      Ok(Step(IfElse(cond.node, thn.node, els.node), els.rest))
  }

  function ParseWhile(ts: seq<Token>): (r: Parsed<Stmt>)
    ensures Consumes(r, ts, 1)
    decreases |ts|, 3
  {
    var while_ :- Expect(ts, WHILE);
    var cond :- ParseCondition(while_.rest);
    var body :- ParseBlock(cond.rest);
    Ok(Step(While(cond.node, body.node), body.rest))
  }

  function ParseReturn(ts: seq<Token>): (r: Parsed<Stmt>)
    ensures Consumes(r, ts, 1)
  {
    var return_ :- Expect(ts, RETURN);
    if Peek(return_.rest) == SEMICOLON then Ok(Step(ReturnVoid, return_.rest[1..]))
    else
      var e :- ParseTerminated(return_.rest);
      Ok(Step(Return(e.node), e.rest))
  }

  function ParseExprStmt(ts: seq<Token>): (r: Parsed<Stmt>)
    ensures Consumes(r, ts, 1)
  {
    var e :- ParseTerminated(ts);
    Ok(Step(ExprStmt(e.node), e.rest))
  }

  /** An expression and the semicolon after it. */
  function ParseTerminated(ts: seq<Token>): (r: Parsed<Expr>)
    ensures Consumes(r, ts, 1)
  {
    var e :- ParseExpression(ts, 0);
    var end :- Expect(e.rest, SEMICOLON);
    Ok(Step(e.node, end.rest))
  }

  function ParseCondition(ts: seq<Token>): (r: Parsed<Expr>)
    ensures Consumes(r, ts, 1)
  {
    var open :- Expect(ts, LPAREN);
    var cond :- ParseExpression(open.rest, 0);
    var close :- Expect(cond.rest, RPAREN);
    Ok(Step(cond.node, close.rest))
  }

  function ParseBlock(ts: seq<Token>): (r: Parsed<seq<Stmt>>)
    ensures Consumes(r, ts, 1)
    decreases |ts|, 2
  {
    var open :- Expect(ts, LBRACE);
    var ss :- ParseStatements(open.rest);
    var close :- Expect(ss.rest, RBRACE);
    Ok(Step(ss.node, close.rest))
  }

  function ParseStatements(ts: seq<Token>): (r: Parsed<seq<Stmt>>)
    ensures Consumes(r, ts, 0)
    decreases |ts|, 5
  {
    if Peek(ts) == RBRACE then Ok(Step([], ts))
    else
      var s :- ParseStatement(ts);
      var ss :- ParseStatements(s.rest);
      Ok(Step([s.node] + ss.node, ss.rest))
  }

  // ---- Functions and programs ----

  function ParseParams(ts: seq<Token>): (r: Parsed<seq<string>>)
    ensures Consumes(r, ts, 0)
  {
    if Peek(ts) == RPAREN then Ok(Step([], ts)) else ParseParamList(ts)
  }

  function ParseParamList(ts: seq<Token>): (r: Parsed<seq<string>>)
    ensures Consumes(r, ts, 1)
    decreases |ts|
  {
    var name :- Expect(ts, IDENT);
    if Peek(name.rest) != COMMA then Ok(Step([name.node], name.rest))
    else
      var names :- ParseParamList(name.rest[1..]);
      Ok(Step([name.node] + names.node, names.rest))
  }

  /** fn, the name, and the opening parenthesis. */
  function ParseHeader(ts: seq<Token>): (r: Parsed<string>)
    ensures Consumes(r, ts, 1)
  {
    var fn :- Expect(ts, FN);
    var name :- Expect(fn.rest, IDENT);
    var open :- Expect(name.rest, LPAREN);
    Ok(Step(name.node, open.rest))
  }

  function ParseFunction(ts: seq<Token>): (r: Parsed<FunctionDef>)
    ensures Consumes(r, ts, 1)
  {
    var header :- ParseHeader(ts);
    var params :- ParseParams(header.rest);
    var close :- Expect(params.rest, RPAREN);
    var body :- ParseBlock(close.rest);
    Ok(Step(FunctionDef(header.node, params.node, body.node), body.rest))
  }

  function ParseFunctions(ts: seq<Token>): Result<seq<FunctionDef>, ParseError>
    decreases |ts|
  {
    if Peek(ts) == EOF then Ok([])
    else
      var f :- ParseFunction(ts);
      var fs :- ParseFunctions(f.rest);
      Ok([f.node] + fs)
  }

  function ParseProgram(ts: seq<Token>): Result<Program, ParseError> {
    var fs :- ParseFunctions(ts);
    Ok(Program(fs))
  }

  // ---- The printer ----

  function BinKind(op: BinOp): (k: Kind)
    ensures k !in {LPAREN, EQ, EOF}
  {
    match op
    case Or => PIPEPIPE
    case And => AMPAMP
    case Eq => EQEQ
    case Ne => BANGEQ
    case Lt => Kind.LT
    case Gt => Kind.GT
    case Le => LTEQ
    case Ge => GTEQ
    case Add => PLUS
    case Sub => MINUS
    case Mul => STAR
    case Div => SLASH
    case Mod => PERCENT
  }

  function OpLevel(op: BinOp): (level: nat)
    ensures level < UNARY
    ensures BinOpAt(level, BinKind(op)) == Some(op)
    ensures forall j: nat :: j != level ==> BinOpAt(j, BinKind(op)) == None
  {
    match op
    case Or => 0
    case And => 1
    case Eq => 2
    case Ne => 2
    case Lt => 3
    case Gt => 3
    case Le => 3
    case Ge => 3
    case Add => 4
    case Sub => 4
    case Mul => 5
    case Div => 5
    case Mod => 5
  }

  /** The level an expression belongs to; it needs parentheses at any higher level. */
  function LevelOf(e: Expr): nat {
    match e
    case Binary(op, _, _) => OpLevel(op)
    case Unary(_, _) => UNARY
    case _ => UNARY + 1
  }

  function UnKind(op: UnOp): (k: Kind)
    ensures k in {MINUS, BANG}
  {
    if op == Neg then MINUS else BANG
  }

  function PrintExpr(level: nat, e: Expr): seq<Token>
    decreases e, if LevelOf(e) < level then 2 else 1
  {
    if LevelOf(e) < level then [Fixed(LPAREN)] + PrintExpr(0, e) + [Fixed(RPAREN)]
    else
      match e
      case IntLit(n) => [Token(INT_LIT, if n >= 0 then Decimal(n) else "")]
      case BoolLit(b) => [Fixed(if b then TRUE else FALSE)]
      case Var(name) => [Token(IDENT, name)]
      case Binary(op, left, right) =>
        PrintExpr(OpLevel(op), left) + [Fixed(BinKind(op))] + PrintExpr(OpLevel(op) + 1, right)
      case Unary(op, operand) => [Fixed(UnKind(op))] + PrintExpr(UNARY, operand)
      case Call(name, args) => [Token(IDENT, name), Fixed(LPAREN)] + PrintArgs(args) + [Fixed(RPAREN)]
  }

  function PrintArgs(es: seq<Expr>): seq<Token>
    decreases es, 0
  {
    if es == [] then []
    else if |es| == 1 then PrintExpr(0, es[0])
    else PrintExpr(0, es[0]) + [Fixed(COMMA)] + PrintArgs(es[1..])
  }

  function PrintStmt(s: Stmt): seq<Token>
    decreases s, 2
  {
    match s
    case VarDecl(name, init) =>
      [Fixed(LET), Token(IDENT, name), Fixed(EQ)] + PrintExpr(0, init) + [Fixed(SEMICOLON)]
    case Assign(name, val) => [Token(IDENT, name), Fixed(EQ)] + PrintExpr(0, val) + [Fixed(SEMICOLON)]
    case ExprStmt(e) => PrintExpr(0, e) + [Fixed(SEMICOLON)]
    case IfThen(cond, thn) => [Fixed(IF)] + PrintCondition(cond) + PrintBlock(thn)
    case IfElse(cond, thn, els) =>
      [Fixed(IF)] + PrintCondition(cond) + PrintBlock(thn) + [Fixed(ELSE)] + PrintBlock(els)
    case While(cond, body) => [Fixed(WHILE)] + PrintCondition(cond) + PrintBlock(body)
    case ReturnVoid => [Fixed(RETURN), Fixed(SEMICOLON)]
    case Return(res) => [Fixed(RETURN)] + PrintExpr(0, res) + [Fixed(SEMICOLON)]
  }

  function PrintCondition(cond: Expr): seq<Token> {
    [Fixed(LPAREN)] + PrintExpr(0, cond) + [Fixed(RPAREN)]
  }

  function PrintBlock(ss: seq<Stmt>): seq<Token>
    decreases ss, 1
  {
    [Fixed(LBRACE)] + PrintStmts(ss) + [Fixed(RBRACE)]
  }

  function PrintStmts(ss: seq<Stmt>): seq<Token>
    decreases ss, 0
  {
    if ss == [] then [] else PrintStmt(ss[0]) + PrintStmts(ss[1..])
  }

  function PrintParams(ps: seq<string>): seq<Token> {
    if ps == [] then []
    else if |ps| == 1 then [Token(IDENT, ps[0])]
    else [Token(IDENT, ps[0]), Fixed(COMMA)] + PrintParams(ps[1..])
  }

  function PrintFunction(f: FunctionDef): seq<Token> {
    [Fixed(FN), Token(IDENT, f.name), Fixed(LPAREN)] + PrintParams(f.params) + [Fixed(RPAREN)] + PrintBlock(f.body)
  }

  function PrintFunctions(fs: seq<FunctionDef>): seq<Token> {
    if fs == [] then [] else PrintFunction(fs[0]) + PrintFunctions(fs[1..])
  }

  function PrintProgram(p: Program): seq<Token> {
    PrintFunctions(p.functions)
  }

  // ---- What can be printed and read back ----

  /** How many nested calls of the expression rule the printed text of e needs at a level. */
  function Nesting(level: nat, e: Expr): nat
    decreases e, if LevelOf(e) < level then 2 else 1
  {
    if LevelOf(e) < level then 1 + Nesting(0, e)
    else
      match e
      case Binary(op, left, right) => Max(Nesting(OpLevel(op), left), Nesting(OpLevel(op) + 1, right))
      case Unary(_, operand) => Nesting(UNARY, operand)
      case Call(_, args) => if args == [] then 0 else 1 + NestingOf(args)
      case _ => 0
  }

  function NestingOf(es: seq<Expr>): nat
    decreases es, 0
  {
    if es == [] then 0 else Max(Nesting(0, es[0]), NestingOf(es[1..]))
  }

  /** Integer literals are those that can be written: no sign, at most 2^31 - 1. */
  predicate Writable(e: Expr)
    decreases e, 1
  {
    match e
    case IntLit(n) => 0 <= n <= 2147483647
    case Binary(_, left, right) => Writable(left) && Writable(right)
    case Unary(_, operand) => Writable(operand)
    case Call(_, args) => AllWritable(args)
    case _ => true
  }

  predicate AllWritable(es: seq<Expr>)
    decreases es, 0
  {
    es == [] || (Writable(es[0]) && AllWritable(es[1..]))
  }

  /** An expression that the depth limit of the parser admits. */
  predicate ExprOk(e: Expr) {
    Writable(e) && 1 + Nesting(0, e) <= MAX_EXPR_DEPTH
  }

  predicate StmtOk(s: Stmt)
    decreases s, 1
  {
    match s
    case VarDecl(_, init) => ExprOk(init)
    case Assign(_, val) => ExprOk(val)
    case ExprStmt(e) => ExprOk(e)
    case IfThen(cond, thn) => ExprOk(cond) && StmtsOk(thn)
    case IfElse(cond, thn, els) => ExprOk(cond) && StmtsOk(thn) && StmtsOk(els)
    case While(cond, body) => ExprOk(cond) && StmtsOk(body)
    case ReturnVoid => true
    case Return(res) => ExprOk(res)
  }

  predicate StmtsOk(ss: seq<Stmt>)
    decreases ss, 0
  {
    ss == [] || (StmtOk(ss[0]) && StmtsOk(ss[1..]))
  }

  predicate ProgramOk(p: Program) {
    forall f :: f in p.functions ==> StmtsOk(f.body)
  }
}
