/**
 The grammar of GoL Script as a relation: which token lists are texts of a syntax tree, with any number of pairs of
 parentheses around any expression. The parser is not mentioned here.
 */
module Texts {
  import opened Words
  import opened Ast
  import opened Tokens
  import opened Grammar

  /** A text of e at a precedence level, with at most n levels of nesting inside it. */
  ghost predicate ExprText(level: nat, e: Expr, ts: seq<Token>, n: nat)
    decreases |ts|, 2
  {
    InParens(e, ts, n) || BareText(level, e, ts, n)
  }

  /** A text of e that is nested itself: in parentheses, as an argument, or in a statement. */
  ghost predicate NestedText(e: Expr, ts: seq<Token>, n: nat)
    decreases |ts|, 3
  {
    n >= 1 && ExprText(0, e, ts, n - 1)
  }

  ghost predicate InParens(e: Expr, ts: seq<Token>, n: nat)
    decreases |ts|, 0
  {
    Enclosed(LPAREN, ts, RPAREN) && NestedText(e, Inner(ts), n)
  }

  ghost predicate BareText(level: nat, e: Expr, ts: seq<Token>, n: nat)
    decreases |ts|, 1
  {
    match e
    case IntLit(v) =>
      |ts| == 1 && ts[0].kind == INT_LIT && v == DigitsValue(ts[0].value) && -0x8000_0000 <= v < 0x8000_0000
    case BoolLit(b) => |ts| == 1 && ts[0].kind == if b then TRUE else FALSE
    case Var(name) => ts == [Token(IDENT, name)]
    case Binary(op, _, _) => level <= OpLevel(op) && exists i | 0 <= i < |ts| :: OperatorAt(e, ts, i, n)
    case Unary(op, operand) =>
      |ts| > 0 && ts[0].kind == UnKind(op) && level <= UNARY && ExprText(UNARY, operand, ts[1..], n)
    case Call(name, args) =>
      |ts| > 1 && ts[0] == Token(IDENT, name) && Enclosed(LPAREN, ts[1..], RPAREN) && ArgsText(args, Inner(ts[1..]), n)
  }

  /** The operator of a binary expression stands at i; operators of one level associate to the left. */
  ghost predicate OperatorAt(e: Expr, ts: seq<Token>, i: nat, n: nat)
    requires e.Binary? && i < |ts|
    decreases |ts|, 0
  {
    && ts[i].kind == BinKind(e.op)
    && ExprText(OpLevel(e.op), e.left, ts[..i], n)
    && ExprText(OpLevel(e.op) + 1, e.right, ts[i + 1..], n)
  }

  /** Arguments separated by commas. */
  ghost predicate ArgsText(es: seq<Expr>, ts: seq<Token>, n: nat)
    decreases |ts|, 4
  {
    if es == [] then ts == []
    else if |es| == 1 then NestedText(es[0], ts, n)
    else exists i | 0 <= i < |ts| :: CommaAt(es, ts, i, n)
  }

  ghost predicate CommaAt(es: seq<Expr>, ts: seq<Token>, i: nat, n: nat)
    requires es != [] && i < |ts|
    decreases |ts|, 0
  {
    ts[i].kind == COMMA && NestedText(es[0], ts[..i], n) && ArgsText(es[1..], ts[i + 1..], n)
  }

  predicate Enclosed(open: Kind, ts: seq<Token>, close: Kind) {
    |ts| >= 2 && ts[0].kind == open && ts[|ts| - 1].kind == close
  }

  function Inner(ts: seq<Token>): (r: seq<Token>)
    requires |ts| >= 2
    ensures |r| == |ts| - 2
  {
    ts[1..|ts| - 1]
  }

  // ---- Statements ----

  /** An expression with the semicolon behind it. */
  ghost predicate Terminated(e: Expr, ts: seq<Token>) {
    |ts| > 0 && ts[|ts| - 1].kind == SEMICOLON && NestedText(e, ts[..|ts| - 1], MAX_EXPR_DEPTH)
  }

  ghost predicate Condition(e: Expr, ts: seq<Token>) {
    Enclosed(LPAREN, ts, RPAREN) && NestedText(e, Inner(ts), MAX_EXPR_DEPTH)
  }

  ghost predicate StmtText(s: Stmt, ts: seq<Token>)
    decreases |ts|, 0
  {
    match s
    case VarDecl(name, init) =>
      |ts| > 3 && ts[0].kind == LET && ts[1] == Token(IDENT, name) && ts[2].kind == EQ && Terminated(init, ts[3..])
    case Assign(name, val) => |ts| > 2 && ts[0] == Token(IDENT, name) && ts[1].kind == EQ && Terminated(val, ts[2..])
    case ExprStmt(e) => Terminated(e, ts)
    case IfThen(cond, thn) =>
      |ts| > 0 && ts[0].kind == IF
      && exists i | 1 <= i <= |ts| :: Condition(cond, ts[1..i]) && BlockText(thn, ts[i..])
    case IfElse(cond, thn, els) =>
      |ts| > 0 && ts[0].kind == IF
      && exists i, j | 1 <= i <= j < |ts| ::
           Condition(cond, ts[1..i]) && BlockText(thn, ts[i..j]) && ts[j].kind == ELSE && BlockText(els, ts[j + 1..])
    case While(cond, body) =>
      |ts| > 0 && ts[0].kind == WHILE
      && exists i | 1 <= i <= |ts| :: Condition(cond, ts[1..i]) && BlockText(body, ts[i..])
    case ReturnVoid => |ts| == 2 && ts[0].kind == RETURN && ts[1].kind == SEMICOLON
    case Return(res) => |ts| > 0 && ts[0].kind == RETURN && Terminated(res, ts[1..])
  }

  ghost predicate BlockText(ss: seq<Stmt>, ts: seq<Token>)
    decreases |ts|, 1
  {
    Enclosed(LBRACE, ts, RBRACE) && StmtsText(ss, Inner(ts))
  }

  ghost predicate StmtsText(ss: seq<Stmt>, ts: seq<Token>)
    decreases |ts|, 1, |ss|
  {
    if ss == [] then ts == []
    else exists i | 0 < i <= |ts| :: StmtText(ss[0], ts[..i]) && StmtsText(ss[1..], ts[i..])
  }

  // ---- Functions and programs ----

  /** Names separated by commas. */
  ghost predicate ParamsText(ps: seq<string>, ts: seq<Token>) {
    if ps == [] then ts == []
    else if |ps| == 1 then ts == [Token(IDENT, ps[0])]
    else |ts| > 1 && ts[0] == Token(IDENT, ps[0]) && ts[1].kind == COMMA && ParamsText(ps[1..], ts[2..])
  }

  ghost predicate FunctionText(f: FunctionDef, ts: seq<Token>) {
    && |ts| > 2 && ts[0].kind == FN && ts[1] == Token(IDENT, f.name)
    && exists i | 2 <= i <= |ts| ::
         Enclosed(LPAREN, ts[2..i], RPAREN) && ParamsText(f.params, Inner(ts[2..i])) && BlockText(f.body, ts[i..])
  }

  ghost predicate FunctionsText(fs: seq<FunctionDef>, ts: seq<Token>) {
    if fs == [] then ts == []
    else exists i | 0 < i <= |ts| :: FunctionText(fs[0], ts[..i]) && FunctionsText(fs[1..], ts[i..])
  }

  ghost predicate ProgramText(p: Program, ts: seq<Token>) {
    FunctionsText(p.functions, ts)
  }
}
