/** The printer writes the shortest text: no token list that parses to a program is shorter than the printed one. */
module Shortest {
  import opened Words
  import opened Ast
  import opened Tokens
  import opened Grammar

  /** What was parsed took at least as many tokens as so many. */
  ghost predicate Took<T>(r: Parsed<T>, ts: seq<Token>, n: nat) {
    r.Ok? ==> |ts| >= n + |r.value.rest|
  }

  ghost predicate TookExpr(level: nat, r: Parsed<Expr>, ts: seq<Token>) {
    r.Ok? ==> Took(r, ts, |PrintExpr(level, r.value.node)|)
  }

  // ---- Parentheses cost two tokens, and only where they are needed ----

  lemma SameBelow(a: nat, b: nat, e: Expr)
    requires a <= LevelOf(e) && b <= LevelOf(e)
    ensures PrintExpr(a, e) == PrintExpr(b, e)
  {
  }

  lemma PairAbove(level: nat, e: Expr)
    requires LevelOf(e) < level
    ensures |PrintExpr(level, e)| == |PrintExpr(0, e)| + 2
  {
  }

  lemma LongerAbove(level: nat, e: Expr)
    ensures |PrintExpr(level, e)| <= |PrintExpr(level + 1, e)|
  {
    hide PrintExpr, LevelOf;
    if LevelOf(e) < level {
      PairAbove(level, e);
      PairAbove(level + 1, e);
    } else {
      SameBelow(0, level, e);
      if LevelOf(e) == level {
        PairAbove(level + 1, e);
      } else {
        SameBelow(level, level + 1, e);
      }
    }
  }

  lemma OperatorLength(level: nat, op: BinOp, left: Expr, right: Expr)
    requires OpLevel(op) == level
    ensures |PrintExpr(level, Binary(op, left, right))| == |PrintExpr(level, left)| + 1 + |PrintExpr(level + 1, right)|
  {
  }

  // ---- Expressions ----

  lemma {:induction false} ExpressionTakes(ts: seq<Token>, d: nat)
    ensures TookExpr(0, ParseExpression(ts, d), ts)
    decreases |ts|, 9
  {
    if d + 1 <= MAX_EXPR_DEPTH {
      LevelTakes(0, ts, d + 1);
    }
  }

  lemma {:induction false} LevelTakes(level: nat, ts: seq<Token>, d: nat)
    requires level <= UNARY
    ensures TookExpr(level, ParseLevel(level, ts, d), ts)
    decreases |ts|, 8 - level
  {
    hide PrintExpr, ParseTail;
    if level == UNARY {
      UnaryTakes(ts, d);
    } else {
      LevelTakes(level + 1, ts, d);
      var left := ParseLevel(level + 1, ts, d);
      if left.Ok? {
        LongerAbove(level, left.value.node);
        TailTakes(level, left.value.node, left.value.rest, d);
      }
    }
  }

  /** The tail takes what the chain is longer than its first operand. */
  lemma {:induction false} TailTakes(level: nat, left: Expr, ts: seq<Token>, d: nat)
    requires level < UNARY
    ensures var r := ParseTail(level, left, ts, d);
            r.Ok? ==> |ts| + |PrintExpr(level, left)| >= |PrintExpr(level, r.value.node)| + |r.value.rest|
    decreases |ts|, 0
  {
    hide PrintExpr, ParseLevel;
    var op := BinOpAt(level, Peek(ts));
    if op.Some? {
      LevelTakes(level + 1, ts[1..], d);
      var right := ParseLevel(level + 1, ts[1..], d);
      if right.Ok? {
        OperatorLength(level, op.value, left, right.value.node);
        TailTakes(level, Binary(op.value, left, right.value.node), right.value.rest, d);
      }
    }
  }

  lemma {:induction false} UnaryTakes(ts: seq<Token>, d: nat)
    ensures TookExpr(UNARY, ParseUnary(ts, d), ts)
    decreases |ts|, 1
  {
    if UnOpOf(Peek(ts)).Some? {
      UnaryTakes(ts[1..], d);
    } else {
      PrimaryTakes(ts, d);
    }
  }

  lemma {:induction false} PrimaryTakes(ts: seq<Token>, d: nat)
    ensures TookExpr(UNARY, ParsePrimary(ts, d), ts)
    decreases |ts|, 0
  {
    hide ParseExpression, ParseArgs;
    match Peek(ts)
    case IDENT =>
      if Peek(ts[1..]) == LPAREN {
        ArgsTake(ts[1..][1..], d);
      }
    case LPAREN =>
      ExpressionTakes(ts[1..], d);
      var e := ParseExpression(ts[1..], d);
      if e.Ok? {
        GroupedLength(e.value.node);
      }
    case _ =>
  }

  lemma GroupedLength(e: Expr)
    ensures |PrintExpr(UNARY, e)| <= |PrintExpr(0, e)| + 2
  {
    hide PrintExpr, LevelOf;
    if LevelOf(e) < UNARY {
      PairAbove(UNARY, e);
    } else {
      SameBelow(0, UNARY, e);
    }
  }

  lemma {:induction false} ArgsTake(ts: seq<Token>, d: nat)
    ensures var r := ParseArgs(ts, d); r.Ok? ==> Took(r, ts, |PrintArgs(r.value.node)|)
    decreases |ts|, 11
  {
    if Peek(ts) != RPAREN {
      ArgListTakes(ts, d);
    }
  }

  lemma {:induction false} ArgListTakes(ts: seq<Token>, d: nat)
    ensures var r := ParseArgList(ts, d); r.Ok? ==> r.value.node != [] && Took(r, ts, |PrintArgs(r.value.node)|)
    decreases |ts|, 10
  {
    hide ParseExpression, PrintExpr;
    ExpressionTakes(ts, d);
    var e := ParseExpression(ts, d);
    if e.Ok? && Peek(e.value.rest) == COMMA {
      ArgListTakes(e.value.rest[1..], d);
      var more := ParseArgList(e.value.rest[1..], d);
      assert more.Ok? ==> ([e.value.node] + more.value.node)[1..] == more.value.node;
    }
  }

  // ---- Statements ----

  lemma TerminatedTakes(ts: seq<Token>)
    ensures var r := ParseTerminated(ts); r.Ok? ==> Took(r, ts, |PrintExpr(0, r.value.node)| + 1)
  {
    hide ParseExpression, PrintExpr;
    ExpressionTakes(ts, 0);
  }

  lemma ConditionTakes(ts: seq<Token>)
    ensures var r := ParseCondition(ts); r.Ok? ==> Took(r, ts, |PrintCondition(r.value.node)|)
  {
    hide ParseExpression, PrintExpr;
    if Expect(ts, LPAREN).Ok? {
      ExpressionTakes(Expect(ts, LPAREN).value.rest, 0);
    }
  }

  ghost predicate TookStmt(r: Parsed<Stmt>, ts: seq<Token>) {
    r.Ok? ==> Took(r, ts, |PrintStmt(r.value.node)|)
  }

  /** let, a name, '=' and a value; the name may also come first. */
  lemma SimpleTakes(ts: seq<Token>)
    ensures TookStmt(ParseVarDecl(ts), ts) && TookStmt(ParseAssignment(ts), ts)
    ensures TookStmt(ParseReturn(ts), ts) && TookStmt(ParseExprStmt(ts), ts)
  {
    hide ParseTerminated, PrintExpr;
    forall rest {
      TerminatedTakes(rest);
    }
  }

  lemma {:induction false} StatementTakes(ts: seq<Token>)
    ensures TookStmt(ParseStatement(ts), ts)
    decreases |ts|, 4
  {
    hide ParseIf, ParseWhile, ParseVarDecl, ParseAssignment, ParseReturn, ParseExprStmt, TookStmt;
    SimpleTakes(ts);
    if Peek(ts) == IF {
      IfTakes(ts);
    } else if Peek(ts) == WHILE {
      WhileTakes(ts);
    }
  }

  lemma {:induction false} IfTakes(ts: seq<Token>)
    ensures TookStmt(ParseIf(ts), ts)
    decreases |ts|, 3
  {
    hide ParseCondition, ParseBlock, PrintCondition, PrintBlock;
    if Expect(ts, IF).Ok? {
      ConditionTakes(Expect(ts, IF).value.rest);
      var cond := ParseCondition(Expect(ts, IF).value.rest);
      if cond.Ok? {
        BlockTakes(cond.value.rest);
        var thn := ParseBlock(cond.value.rest);
        if thn.Ok? && Peek(thn.value.rest) == ELSE {
          BlockTakes(thn.value.rest[1..]);
        }
      }
    }
  }

  lemma {:induction false} WhileTakes(ts: seq<Token>)
    ensures TookStmt(ParseWhile(ts), ts)
    decreases |ts|, 3
  {
    hide ParseCondition, ParseBlock, PrintCondition, PrintBlock;
    if Expect(ts, WHILE).Ok? {
      ConditionTakes(Expect(ts, WHILE).value.rest);
      var cond := ParseCondition(Expect(ts, WHILE).value.rest);
      if cond.Ok? {
        BlockTakes(cond.value.rest);
      }
    }
  }

  lemma {:induction false} BlockTakes(ts: seq<Token>)
    ensures var r := ParseBlock(ts); r.Ok? ==> Took(r, ts, |PrintBlock(r.value.node)|)
    decreases |ts|, 2
  {
    hide ParseStatements, PrintStmts;
    if Expect(ts, LBRACE).Ok? {
      StatementsTake(Expect(ts, LBRACE).value.rest);
    }
  }

  lemma {:induction false} StatementsTake(ts: seq<Token>)
    ensures var r := ParseStatements(ts); r.Ok? ==> Took(r, ts, |PrintStmts(r.value.node)|)
    decreases |ts|, 5
  {
    hide ParseStatement, PrintStmt;
    if Peek(ts) != RBRACE {
      StatementTakes(ts);
      var s := ParseStatement(ts);
      if s.Ok? {
        StatementsTake(s.value.rest);
      }
    }
  }

  // ---- Functions and programs ----

  lemma {:induction false} ParamListTakes(ts: seq<Token>)
    ensures var r := ParseParamList(ts); r.Ok? ==> r.value.node != [] && Took(r, ts, |PrintParams(r.value.node)|)
    decreases |ts|
  {
    var name := Expect(ts, IDENT);
    if name.Ok? && Peek(name.value.rest) == COMMA {
      ParamListTakes(name.value.rest[1..]);
      var more := ParseParamList(name.value.rest[1..]);
      assert more.Ok? ==> ([name.value.node] + more.value.node)[1..] == more.value.node;
    }
  }

  lemma FunctionTakes(ts: seq<Token>)
    ensures var r := ParseFunction(ts); r.Ok? ==> Took(r, ts, |PrintFunction(r.value.node)|)
  {
    hide ParseParamList, ParseBlock, PrintBlock, PrintParams;
    var r := ParseFunction(ts);
    if r.Ok? {
      var header := ParseHeader(ts).value;
      ParamListTakes(header.rest);
      assert PrintParams([]) == [] by { NoParams(); }
      BlockTakes(Expect(ParseParams(header.rest).value.rest, RPAREN).value.rest);
    }
  }

  lemma NoParams()
    ensures PrintParams([]) == []
  {
  }

  lemma {:induction false} FunctionsTake(ts: seq<Token>)
    ensures var r := ParseFunctions(ts); r.Ok? ==> |PrintFunctions(r.value)| <= |ts|
    decreases |ts|
  {
    hide ParseFunction, PrintFunction;
    if Peek(ts) != EOF {
      FunctionTakes(ts);
      var f := ParseFunction(ts);
      if f.Ok? {
        FunctionsTake(f.value.rest);
      }
    }
  }

  /** Every token list that parses to p is at least as long as the printed text of p. */
  lemma PrintedIsShortest(ts: seq<Token>, p: Program)
    requires ParseProgram(ts) == Ok(p)
    ensures |PrintProgram(p)| <= |ts|
  {
    hide ParseFunctions, PrintFunctions;
    FunctionsTake(ts);
  }
}
