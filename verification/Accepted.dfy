/** Properties of everything the parser accepts: it can be printed again, and its evaluation is shallow. */
module Accepted {
  import opened Words
  import opened Ast
  import opened Tokens
  import opened Lexer
  import opened Names
  import opened Grammar
  import opened ParsePrint

  /** The lexer makes integer tokens out of digits, and names that are identifiers. */
  ghost predicate GoodToken(t: Token) {
    && (t.kind == INT_LIT ==> forall i :: 0 <= i < |t.value| ==> '0' <= t.value[i] <= '9')
    && (t.kind == IDENT ==> IsIdentifier(t.value))
  }

  ghost predicate FromLexer(ts: seq<Token>) {
    forall t :: t in ts ==> GoodToken(t)
  }

  lemma {:induction false} DigitsValueNat(s: string)
    requires forall i :: 0 <= i < |s| ==> '0' <= s[i] <= '9'
    ensures DigitsValue(s) >= 0
  {
    if s != "" {
      DigitsValueNat(s[..|s| - 1]);
    }
  }

  /** The outcome is a printable expression whose text needs no more nesting than the parser had left. */
  ghost predicate Printable(level: nat, d: nat, r: Parsed<Expr>) {
    r.Ok? ==> (
      && Writable(r.value.node) && d + Nesting(level, r.value.node) <= MAX_EXPR_DEPTH
      && ExprNames(r.value.node) && FromLexer(r.value.rest))
  }

  lemma RestGood(ts: seq<Token>, n: nat)
    requires FromLexer(ts) && n <= |ts|
    ensures FromLexer(ts[n..])
  {
    assert forall t :: t in ts[n..] ==> t in ts;
  }

  lemma {:induction false} ExpressionAccepted(ts: seq<Token>, d: nat)
    requires FromLexer(ts)
    ensures Printable(0, d + 1, ParseExpression(ts, d))
    decreases |ts|, 9
  {
    if d + 1 <= MAX_EXPR_DEPTH {
      LevelAccepted(0, ts, d + 1);
    }
  }

  lemma {:induction false} LevelAccepted(level: nat, ts: seq<Token>, d: nat)
    requires level <= UNARY && FromLexer(ts) && d <= MAX_EXPR_DEPTH
    ensures Printable(level, d, ParseLevel(level, ts, d))
    decreases |ts|, 8 - level
  {
    hide Nesting, ParseTail, Consumes;
    if level == UNARY {
      UnaryAccepted(ts, d);
    } else {
      LevelAccepted(level + 1, ts, d);
      var left := ParseLevel(level + 1, ts, d);
      if left.Ok? {
        LowerLevelNestsLess(level, left.value.node);
        TailAccepted(level, left.value.node, left.value.rest, d);
      }
    }
  }

  lemma LowerLevelNestsLess(level: nat, e: Expr)
    requires level < UNARY
    ensures Nesting(level, e) <= Nesting(level + 1, e)
  {
    if LevelOf(e) == level {
      SameAtAnyLowerLevel(0, level, e);
    }
  }

  lemma SameAtAnyLowerLevel(a: nat, b: nat, e: Expr)
    requires a <= LevelOf(e) && b <= LevelOf(e)
    ensures Nesting(a, e) == Nesting(b, e)
  {
  }

  lemma {:induction false} TailAccepted(level: nat, left: Expr, ts: seq<Token>, d: nat)
    requires level < UNARY && FromLexer(ts) && d <= MAX_EXPR_DEPTH
    requires Writable(left) && ExprNames(left) && d + Nesting(level, left) <= MAX_EXPR_DEPTH
    ensures Printable(level, d, ParseTail(level, left, ts, d))
    decreases |ts|, 0
  {
    hide ParseLevel, Nesting, Consumes;
    var op := BinOpAt(level, Peek(ts));
    if op.Some? {
      RestGood(ts, 1);
      LevelAccepted(level + 1, ts[1..], d);
      var right := ParseLevel(level + 1, ts[1..], d);
      if right.Ok? {
        ChainNesting(level, op.value, left, right.value.node);
        TailAccepted(level, Binary(op.value, left, right.value.node), right.value.rest, d);
      }
    }
  }

  lemma ChainNesting(level: nat, op: BinOp, left: Expr, right: Expr)
    requires OpLevel(op) == level
    ensures Nesting(level, Binary(op, left, right)) == Max(Nesting(level, left), Nesting(level + 1, right))
  {
  }

  lemma {:induction false} UnaryAccepted(ts: seq<Token>, d: nat)
    requires FromLexer(ts) && d <= MAX_EXPR_DEPTH
    ensures Printable(UNARY, d, ParseUnary(ts, d))
    decreases |ts|, 1
  {
    if UnOpOf(Peek(ts)).Some? {
      RestGood(ts, 1);
      UnaryAccepted(ts[1..], d);
    } else {
      PrimaryAccepted(ts, d);
    }
  }

  lemma {:induction false} PrimaryAccepted(ts: seq<Token>, d: nat)
    requires FromLexer(ts) && d <= MAX_EXPR_DEPTH
    ensures Printable(UNARY, d, ParsePrimary(ts, d))
    decreases |ts|, 0
  {
    hide ParseExpression, ParseArgs, Expect, Consumes;
    match Peek(ts)
    case INT_LIT =>
      assert ts[0] in ts;
      DigitsValueNat(ts[0].value);
      RestGood(ts, 1);
    case TRUE => RestGood(ts, 1);
    case FALSE => RestGood(ts, 1);
    case IDENT =>
      assert ts[0] in ts;
      RestGood(ts, 1);
      if Peek(ts[1..]) == LPAREN {
        RestGood(ts[1..], 1);
        ArgsAccepted(ts[1..][1..], d);
        ExpectKeepsGood(ParseArgs(ts[1..][1..], d), RPAREN);
      }
    case LPAREN =>
      RestGood(ts, 1);
      ExpressionAccepted(ts[1..], d);
      var e := ParseExpression(ts[1..], d);
      ExpectKeepsGood(e, RPAREN);
      if e.Ok? && LevelOf(e.value.node) >= UNARY {
        SameAtAnyLowerLevel(0, UNARY, e.value.node);
      }
    case _ =>
  }

  lemma ExpectKeepsGood<T>(r: Parsed<T>, k: Kind)
    requires k != EOF && (r.Ok? ==> FromLexer(r.value.rest))
    ensures r.Ok? && Expect(r.value.rest, k).Ok? ==> FromLexer(Expect(r.value.rest, k).value.rest)
  {
    if r.Ok? && Expect(r.value.rest, k).Ok? {
      RestGood(r.value.rest, 1);
    }
  }

  ghost predicate PrintableArgs(d: nat, r: Parsed<seq<Expr>>) {
    && (r.Ok? ==> AllWritable(r.value.node) && ExprsNames(r.value.node) && FromLexer(r.value.rest))
    && (r.Ok? && r.value.node != [] ==> d + 1 + NestingOf(r.value.node) <= MAX_EXPR_DEPTH)
  }

  lemma {:induction false} ArgsAccepted(ts: seq<Token>, d: nat)
    requires FromLexer(ts)
    ensures PrintableArgs(d, ParseArgs(ts, d))
    decreases |ts|, 11
  {
    if Peek(ts) != RPAREN {
      ArgListAccepted(ts, d);
    }
  }

  lemma {:induction false} ArgListAccepted(ts: seq<Token>, d: nat)
    requires FromLexer(ts)
    ensures PrintableArgs(d, ParseArgList(ts, d))
    decreases |ts|, 10
  {
    hide ParseExpression, Nesting, Writable, ExprNames, Consumes;
    ExpressionAccepted(ts, d);
    var e := ParseExpression(ts, d);
    if e.Ok? {
      assert [e.value.node][1..] == [] && AllWritable([]) && ExprsNames([]) && NestingOf([]) == 0;
      if Peek(e.value.rest) == COMMA {
        RestGood(e.value.rest, 1);
        ArgListAccepted(e.value.rest[1..], d);
        var more := ParseArgList(e.value.rest[1..], d);
        assert more.Ok? ==> ([e.value.node] + more.value.node)[1..] == more.value.node;
      }
    }
  }

  // ---- Statements and programs ----

  ghost predicate GoodStmt(r: Parsed<Stmt>) {
    r.Ok? ==> StmtOk(r.value.node) && StmtNames(r.value.node) && FromLexer(r.value.rest)
  }

  ghost predicate GoodStmts(r: Parsed<seq<Stmt>>) {
    r.Ok? ==> StmtsOk(r.value.node) && StmtsNames(r.value.node) && FromLexer(r.value.rest)
  }

  ghost predicate GoodExpr(r: Parsed<Expr>) {
    r.Ok? ==> ExprOk(r.value.node) && ExprNames(r.value.node) && FromLexer(r.value.rest)
  }

  lemma TerminatedAccepted(ts: seq<Token>)
    requires FromLexer(ts)
    ensures GoodExpr(ParseTerminated(ts))
  {
    hide ParseExpression, Nesting, Writable, Expect, Consumes;
    ExpressionAccepted(ts, 0);
    ExpectKeepsGood(ParseExpression(ts, 0), SEMICOLON);
  }

  lemma ExpectGood(ts: seq<Token>, k: Kind)
    requires k != EOF && FromLexer(ts)
    ensures Expect(ts, k).Ok? ==> FromLexer(Expect(ts, k).value.rest)
    ensures Expect(ts, k).Ok? && k == IDENT ==> IsIdentifier(Expect(ts, k).value.node)
  {
    hide IsIdentifier;
    ExpectKeepsGood(Ok(Step((), ts)), k);
    if Expect(ts, k).Ok? {
      assert ts[0] in ts;
    }
  }

  lemma ConditionAccepted(ts: seq<Token>)
    requires FromLexer(ts)
    ensures GoodExpr(ParseCondition(ts))
  {
    hide ParseExpression, Nesting, Writable, Expect, FromLexer, Consumes, IsIdentifier;
    ExpectGood(ts, LPAREN);
    var open := Expect(ts, LPAREN);
    if open.Ok? {
      ExpressionAccepted(open.value.rest, 0);
      ExpectKeepsGood(ParseExpression(open.value.rest, 0), RPAREN);
    }
  }

  lemma VarDeclAccepted(ts: seq<Token>)
    requires FromLexer(ts)
    ensures GoodStmt(ParseVarDecl(ts))
  {
    hide ParseTerminated, Expect, FromLexer, ExprOk, Consumes, IsIdentifier;
    ExpectGood(ts, LET);
    var let_ := Expect(ts, LET);
    if let_.Ok? {
      ExpectGood(let_.value.rest, IDENT);
      NamedAccepted(Expect(let_.value.rest, IDENT));
    }
  }

  lemma ReturnAccepted(ts: seq<Token>)
    requires FromLexer(ts)
    ensures GoodStmt(ParseReturn(ts))
  {
    hide ParseTerminated, Expect, FromLexer, ExprOk, Consumes, IsIdentifier;
    ExpectGood(ts, RETURN);
    var return_ := Expect(ts, RETURN);
    if return_.Ok? {
      TerminatedAccepted(return_.value.rest);
      if Peek(return_.value.rest) == SEMICOLON {
        RestGood(return_.value.rest, 1);
      }
    }
  }

  lemma {:induction false} StatementAccepted(ts: seq<Token>)
    requires FromLexer(ts)
    ensures GoodStmt(ParseStatement(ts))
    decreases |ts|, 4
  {
    hide ParseTerminated, Expect, FromLexer, ExprOk, ParseIf, ParseWhile, ParseVarDecl, ParseReturn, Consumes;
    hide IsIdentifier;
    match Peek(ts)
    case LET => VarDeclAccepted(ts);
    case IF => IfAccepted(ts);
    case WHILE => WhileAccepted(ts);
    case RETURN => ReturnAccepted(ts);
    case _ =>
      ExpectGood(ts, IDENT);
      NamedAccepted(Expect(ts, IDENT));
      TerminatedAccepted(ts);
  }

  /** The '=' and the value after a name. */
  lemma NamedAccepted(name: Parsed<string>)
    requires name.Ok? ==> FromLexer(name.value.rest)
    ensures name.Ok? && Expect(name.value.rest, EQ).Ok? ==>
            GoodExpr(ParseTerminated(Expect(name.value.rest, EQ).value.rest))
  {
    hide ParseTerminated, Expect, FromLexer, Consumes, IsIdentifier;
    if name.Ok? {
      ExpectGood(name.value.rest, EQ);
      if Expect(name.value.rest, EQ).Ok? {
        TerminatedAccepted(Expect(name.value.rest, EQ).value.rest);
      }
    }
  }

  lemma {:induction false} IfAccepted(ts: seq<Token>)
    requires FromLexer(ts)
    ensures GoodStmt(ParseIf(ts))
    decreases |ts|, 3
  {
    hide ParseCondition, ParseBlock, Expect, FromLexer, ExprOk, Consumes, IsIdentifier;
    ExpectGood(ts, IF);
    var if_ := Expect(ts, IF);
    if if_.Ok? {
      ConditionAccepted(if_.value.rest);
      var cond := ParseCondition(if_.value.rest);
      if cond.Ok? {
        BlockAccepted(cond.value.rest);
        var thn := ParseBlock(cond.value.rest);
        if thn.Ok? && Peek(thn.value.rest) == ELSE {
          RestGood(thn.value.rest, 1);
          BlockAccepted(thn.value.rest[1..]);
        }
      }
    }
  }

  lemma {:induction false} WhileAccepted(ts: seq<Token>)
    requires FromLexer(ts)
    ensures GoodStmt(ParseWhile(ts))
    decreases |ts|, 3
  {
    hide ParseCondition, ParseBlock, Expect, FromLexer, ExprOk, Consumes, IsIdentifier;
    ExpectGood(ts, WHILE);
    var while_ := Expect(ts, WHILE);
    if while_.Ok? {
      ConditionAccepted(while_.value.rest);
      var cond := ParseCondition(while_.value.rest);
      if cond.Ok? {
        BlockAccepted(cond.value.rest);
      }
    }
  }

  lemma {:induction false} BlockAccepted(ts: seq<Token>)
    requires FromLexer(ts)
    ensures GoodStmts(ParseBlock(ts))
    decreases |ts|, 2
  {
    hide ParseStatements, Expect, FromLexer, StmtsOk, Consumes, IsIdentifier;
    ExpectGood(ts, LBRACE);
    var open := Expect(ts, LBRACE);
    if open.Ok? {
      StatementsAccepted(open.value.rest);
      ExpectKeepsGood(ParseStatements(open.value.rest), RBRACE);
    }
  }

  lemma {:induction false} StatementsAccepted(ts: seq<Token>)
    requires FromLexer(ts)
    ensures GoodStmts(ParseStatements(ts))
    decreases |ts|, 5
  {
    hide ParseStatement, FromLexer, StmtOk, Consumes, IsIdentifier;
    if Peek(ts) != RBRACE {
      StatementAccepted(ts);
      var s := ParseStatement(ts);
      if s.Ok? {
        StatementsAccepted(s.value.rest);
      }
    }
  }

  lemma HeaderAccepted(ts: seq<Token>)
    requires FromLexer(ts)
    ensures ParseHeader(ts).Ok? ==> FromLexer(ParseHeader(ts).value.rest) && IsIdentifier(ParseHeader(ts).value.node)
  {
    hide Expect, FromLexer, IsIdentifier;
    ExpectGood(ts, FN);
    var fn := Expect(ts, FN);
    if fn.Ok? {
      ExpectGood(fn.value.rest, IDENT);
      var name := Expect(fn.value.rest, IDENT);
      if name.Ok? {
        ExpectGood(name.value.rest, LPAREN);
      }
    }
  }

  ghost predicate AllIdentifiers(names: seq<string>) {
    forall i :: 0 <= i < |names| ==> IsIdentifier(names[i])
  }

  lemma {:induction false} ParamListAccepted(ts: seq<Token>)
    requires FromLexer(ts)
    ensures var r := ParseParamList(ts); r.Ok? ==> FromLexer(r.value.rest) && AllIdentifiers(r.value.node)
    decreases |ts|
  {
    hide Expect, FromLexer, IsIdentifier;
    ExpectGood(ts, IDENT);
    var name := Expect(ts, IDENT);
    if name.Ok? && Peek(name.value.rest) == COMMA {
      RestGood(name.value.rest, 1);
      ParamListAccepted(name.value.rest[1..]);
    }
  }

  ghost predicate GoodFunction(f: FunctionDef) {
    StmtsOk(f.body) && StmtsNames(f.body) && IsIdentifier(f.name) && AllIdentifiers(f.params)
  }

  lemma FunctionAccepted(ts: seq<Token>)
    requires FromLexer(ts)
    ensures var r := ParseFunction(ts); r.Ok? ==> GoodFunction(r.value.node) && FromLexer(r.value.rest)
  {
    hide ParseBlock, ParseHeader, ParseParamList, Expect, FromLexer, StmtsOk, IsIdentifier;
    if ParseFunction(ts).Ok? {
      HeaderAccepted(ts);
      var header := ParseHeader(ts).value;
      ParamListAccepted(header.rest);
      var params := ParseParams(header.rest).value;
      ExpectGood(params.rest, RPAREN);
      BlockAccepted(Expect(params.rest, RPAREN).value.rest);
    }
  }

  lemma {:induction false} FunctionsAccepted(ts: seq<Token>)
    requires FromLexer(ts)
    ensures ParseFunctions(ts).Ok? ==> forall f :: f in ParseFunctions(ts).value ==> GoodFunction(f)
    decreases |ts|
  {
    hide ParseFunction, FromLexer, GoodFunction, Consumes, IsIdentifier;
    if Peek(ts) != EOF {
      FunctionAccepted(ts);
      var f := ParseFunction(ts);
      if f.Ok? {
        FunctionsAccepted(f.value.rest);
      }
    }
  }

  /** Whatever parses is printed and parsed again to the same program: parse, print, parse is parse. */
  lemma ParsePrintParse(ts: seq<Token>)
    requires FromLexer(ts) && ParseProgram(ts).Ok?
    ensures ProgramOk(ParseProgram(ts).value) && ProgramNames(ParseProgram(ts).value)
    ensures ParseProgram(PrintProgram(ParseProgram(ts).value) + END) == ParseProgram(ts)
  {
    hide ParseFunctions, Consumes;
    FunctionsAccepted(ts);
    ProgramReadBack(ParseProgram(ts).value);
  }
}
