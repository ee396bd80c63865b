/** The parser accepts nothing but texts: it returns a program exactly for the texts of that program. */
module OnlyTexts {
  import opened Words
  import opened Ast
  import opened Tokens
  import opened Grammar
  import opened Texts
  import opened TextReading

  /** The tokens before the rest. */
  function Used(ts: seq<Token>, rest: seq<Token>): (r: seq<Token>)
    ensures |r| <= |ts|
  {
    if |rest| <= |ts| then ts[..|ts| - |rest|] else []
  }

  ghost predicate Suffix(ts: seq<Token>, rest: seq<Token>)
    ensures Suffix(ts, rest) ==> |rest| <= |ts| && ts == Used(ts, rest) + rest
  {
    |rest| <= |ts| && ts[|ts| - |rest|..] == rest
  }

  /** What was read in two steps. */
  lemma UsedTwice(ts: seq<Token>, more: seq<Token>, rest: seq<Token>)
    requires Suffix(ts, more) && Suffix(more, rest)
    ensures Suffix(ts, rest) && Used(ts, rest) == Used(ts, more) + Used(more, rest)
  {
    assert ts == Used(ts, more) + (Used(more, rest) + rest);
    assert ts == (Used(ts, more) + Used(more, rest)) + rest;
    assert ts[|ts| - |rest|..] == rest;
  }

  lemma UsedOne(ts: seq<Token>)
    requires ts != []
    ensures Suffix(ts, ts[1..]) && Used(ts, ts[1..]) == [ts[0]]
  {
  }

  lemma UsedNothing(ts: seq<Token>)
    ensures Suffix(ts, ts) && Used(ts, ts) == []
  {
  }

  /** One token more in front. */
  lemma UsedMore(ts: seq<Token>, rest: seq<Token>)
    requires ts != [] && Suffix(ts[1..], rest)
    ensures Suffix(ts, rest) && Used(ts, rest) == [ts[0]] + Used(ts[1..], rest)
  {
    UsedOne(ts);
    UsedTwice(ts, ts[1..], rest);
  }

  /** One token more behind. */
  lemma UsedLess(ts: seq<Token>, rest: seq<Token>)
    requires rest != [] && Suffix(ts, rest)
    ensures Suffix(ts, rest[1..]) && Used(ts, rest[1..]) == Used(ts, rest) + [rest[0]]
  {
    UsedOne(rest);
    UsedTwice(ts, rest, rest[1..]);
  }

  lemma ExpectOne(ts: seq<Token>, k: Kind)
    requires k != EOF && Expect(ts, k).Ok?
    ensures ts != [] && ts[0].kind == k && Expect(ts, k) == Ok(Step(ts[0].value, ts[1..]))
    ensures Suffix(ts, ts[1..]) && Used(ts, ts[1..]) == [ts[0]]
  {
  }

  // ---- Expressions ----

  ghost predicate Spelt(level: nat, r: Parsed<Expr>, ts: seq<Token>, n: nat) {
    r.Ok? ==> Suffix(ts, r.value.rest) && ExprText(level, r.value.node, Used(ts, r.value.rest), n)
  }

  lemma {:induction false} ExpressionSpelt(ts: seq<Token>, d: nat)
    ensures var r := ParseExpression(ts, d);
            r.Ok? ==> Suffix(ts, r.value.rest) && NestedText(r.value.node, Used(ts, r.value.rest), Left(d))
    decreases |ts|, 9
  {
    hide ParseLevel, ExprText, Consumes;
    if d + 1 <= MAX_EXPR_DEPTH {
      LevelSpelt(0, ts, d + 1);
    }
  }

  lemma {:induction false} LevelSpelt(level: nat, ts: seq<Token>, d: nat)
    requires level <= UNARY
    ensures Spelt(level, ParseLevel(level, ts, d), ts, Left(d))
    decreases |ts|, 8 - level
  {
    hide ExprText, ParseTail, Consumes, ParseUnary;
    if level == UNARY {
      UnarySpelt(ts, d);
    } else {
      LevelSpelt(level + 1, ts, d);
      var left := ParseLevel(level + 1, ts, d);
      if left.Ok? {
        var used := Used(ts, left.value.rest);
        LowerText(level, left.value.node, used, Left(d));
        TailSpelt(level, left.value.node, used, left.value.rest, d);
        TailRead(level, left.value.node, used, ts, left.value.rest, d);
      }
    }
  }

  /** A text of a level is one of every lower level. */
  lemma LowerText(level: nat, e: Expr, ts: seq<Token>, n: nat)
    requires ExprText(level + 1, e, ts, n)
    ensures ExprText(level, e, ts, n)
  {
    hide InParens, OperatorAt, ArgsText;
  }

  ghost predicate TailSpells(level: nat, r: Parsed<Expr>, before: seq<Token>, ts: seq<Token>, n: nat) {
    r.Ok? ==> Suffix(ts, r.value.rest) && ExprText(level, r.value.node, before + Used(ts, r.value.rest), n)
  }

  lemma TailRead(level: nat, left: Expr, before: seq<Token>, ts: seq<Token>, more: seq<Token>, d: nat)
    requires level < UNARY && Suffix(ts, more) && before == Used(ts, more)
    requires TailSpells(level, ParseTail(level, left, more, d), before, more, Left(d))
    ensures Spelt(level, ParseTail(level, left, more, d), ts, Left(d))
  {
    hide ParseTail, ExprText, Suffix, Used;
    var r := ParseTail(level, left, more, d);
    if r.Ok? {
      UsedTwice(ts, more, r.value.rest);
    }
  }

  /** Further operands at a level extend the text of what is before them. */
  lemma {:induction false} TailSpelt(level: nat, left: Expr, before: seq<Token>, ts: seq<Token>, d: nat)
    requires level < UNARY && ExprText(level, left, before, Left(d))
    ensures TailSpells(level, ParseTail(level, left, ts, d), before, ts, Left(d))
    decreases |ts|, 0
  {
    hide ParseLevel, ExprText, Consumes, Suffix, Used, OpLevel;
    var op := BinOpAt(level, Peek(ts));
    if op.None? {
      UsedNothing(ts);
      assert before + [] == before;
    } else {
      LevelSpelt(level + 1, ts[1..], d);
      var right := ParseLevel(level + 1, ts[1..], d);
      if right.Ok? {
        var e := Binary(op.value, left, right.value.node);
        var used := before + ([ts[0]] + Used(ts[1..], right.value.rest));
        OperatorText(level, op.value, left, right.value.node, before, ts[0], Used(ts[1..], right.value.rest), Left(d));
        UsedMore(ts, right.value.rest);
        TailSpelt(level, e, used, right.value.rest, d);
        var r := ParseTail(level, e, right.value.rest, d);
        if r.Ok? {
          UsedTwice(ts, right.value.rest, r.value.rest);
          Assoc(before, Used(ts, right.value.rest), Used(right.value.rest, r.value.rest));
        }
      }
    }
  }

  lemma OperatorText(level: nat, op: BinOp, left: Expr, right: Expr, l: seq<Token>, t: Token, r: seq<Token>, n: nat)
    requires BinOpAt(level, t.kind) == Some(op) && ExprText(level, left, l, n) && ExprText(level + 1, right, r, n)
    ensures ExprText(level, Binary(op, left, right), l + ([t] + r), n)
  {
    hide ExprText, InParens;
    OperatorKind(level, t.kind);
    var ts := l + ([t] + r);
    assert ts[|l|] == t && ts[..|l|] == l && ts[|l| + 1..] == r;
    assert OperatorAt(Binary(op, left, right), ts, |l|, n);
    BareIsText(level, Binary(op, left, right), ts, n);
  }

  lemma OperatorKind(level: nat, k: Kind)
    requires BinOpAt(level, k).Some?
    ensures k == BinKind(BinOpAt(level, k).value) && level == OpLevel(BinOpAt(level, k).value)
  {
  }

  lemma BareIsText(level: nat, e: Expr, ts: seq<Token>, n: nat)
    requires BareText(level, e, ts, n)
    ensures ExprText(level, e, ts, n)
  {
    hide BareText, InParens;
  }

  lemma {:induction false} UnarySpelt(ts: seq<Token>, d: nat)
    ensures Spelt(UNARY, ParseUnary(ts, d), ts, Left(d))
    decreases |ts|, 1
  {
    hide ParsePrimary, ExprText, Suffix, Used, Consumes;
    if UnOpOf(Peek(ts)).Some? {
      UnarySpelt(ts[1..], d);
      var operand := ParseUnary(ts[1..], d);
      if operand.Ok? {
        UsedMore(ts, operand.value.rest);
        UnaryText(UnOpOf(Peek(ts)).value, operand.value.node, ts[0], Used(ts[1..], operand.value.rest), Left(d));
      }
    } else {
      PrimarySpelt(ts, d);
    }
  }

  lemma UnaryText(op: UnOp, operand: Expr, t: Token, used: seq<Token>, n: nat)
    requires UnOpOf(t.kind) == Some(op) && ExprText(UNARY, operand, used, n)
    ensures ExprText(UNARY, Unary(op, operand), [t] + used, n)
  {
    hide ExprText;
    assert ([t] + used)[1..] == used;
    BareIsText(UNARY, Unary(op, operand), [t] + used, n);
  }

  lemma {:induction false} PrimarySpelt(ts: seq<Token>, d: nat)
    ensures Spelt(UNARY, ParsePrimary(ts, d), ts, Left(d))
    decreases |ts|, 0
  {
    hide ParseExpression, ParseArgs, ExprText, Consumes, Suffix, Used;
    var r := ParsePrimary(ts, d);
    if r.Ok? {
      UsedOne(ts);
      if Peek(ts) == LPAREN {
        ExpressionSpelt(ts[1..], d);
        ParensSpelt(ts, d);
      } else if Peek(ts) == IDENT && Peek(ts[1..]) == LPAREN {
        ArgsSpelt(ts[1..][1..], d);
        CallSpelt(ts, d);
      } else {
        BareIsText(UNARY, r.value.node, [ts[0]], Left(d));
      }
    }
  }

  /** An opening token, what is read inside, and a closing token. */
  lemma Closed<T>(ts: seq<Token>, inner: Parsed<T>, close: Kind)
    requires ts != [] && close != EOF && inner.Ok? && Suffix(ts[1..], inner.value.rest)
    requires Expect(inner.value.rest, close).Ok?
    ensures var end := Expect(inner.value.rest, close).value.rest;
            && Suffix(ts, end) && Enclosed(ts[0].kind, Used(ts, end), close)
            && Inner(Used(ts, end)) == Used(ts[1..], inner.value.rest) && Used(ts, end)[0] == ts[0]
  {
    hide Suffix, Used;
    var rest := inner.value.rest;
    ExpectOne(rest, close);
    UsedLess(ts[1..], rest);
    UsedMore(ts, rest[1..]);
    var all := [ts[0]] + (Used(ts[1..], rest) + [rest[0]]);
    assert all[1..|all| - 1] == Used(ts[1..], rest);
  }

  lemma ParensSpelt(ts: seq<Token>, d: nat)
    requires Peek(ts) == LPAREN && ParsePrimary(ts, d).Ok?
    requires var r := ParseExpression(ts[1..], d);
             r.Ok? && Suffix(ts[1..], r.value.rest) && NestedText(r.value.node, Used(ts[1..], r.value.rest), Left(d))
    ensures Spelt(UNARY, ParsePrimary(ts, d), ts, Left(d))
  {
    hide ParseExpression, Suffix, Used, NestedText, Expect, Consumes, BareText;
    var e := ParseExpression(ts[1..], d);
    var close := Expect(e.value.rest, RPAREN);
    assert close.Ok? && ParsePrimary(ts, d) == Ok(Step(e.value.node, close.value.rest));
    Closed(ts, e, RPAREN);
    assert InParens(e.value.node, Used(ts, close.value.rest), Left(d));
  }

  lemma CallSpelt(ts: seq<Token>, d: nat)
    requires Peek(ts) == IDENT && Peek(ts[1..]) == LPAREN && ParsePrimary(ts, d).Ok?
    requires var r := ParseArgs(ts[1..][1..], d);
             && r.Ok? && Suffix(ts[1..][1..], r.value.rest)
             && ArgsText(r.value.node, Used(ts[1..][1..], r.value.rest), Left(d))
    ensures Spelt(UNARY, ParsePrimary(ts, d), ts, Left(d))
  {
    hide ParseArgs, Suffix, Used, ArgsText, Expect, Consumes;
    var args := ParseArgs(ts[1..][1..], d);
    Closed(ts[1..], args, RPAREN);
    var end := Expect(args.value.rest, RPAREN).value.rest;
    UsedMore(ts, end);
    var used := Used(ts, end);
    assert used[1..] == Used(ts[1..], end);
    assert ts[0] == Token(IDENT, ts[0].value);
    assert ParsePrimary(ts, d) == Ok(Step(Call(ts[0].value, args.value.node), end));
    assert BareText(UNARY, Call(ts[0].value, args.value.node), used, Left(d));
    BareIsText(UNARY, Call(ts[0].value, args.value.node), used, Left(d));
  }

  ghost predicate ArgsSpell(r: Parsed<seq<Expr>>, ts: seq<Token>, n: nat) {
    r.Ok? ==> Suffix(ts, r.value.rest) && ArgsText(r.value.node, Used(ts, r.value.rest), n)
  }

  lemma {:induction false} ArgsSpelt(ts: seq<Token>, d: nat)
    ensures ArgsSpell(ParseArgs(ts, d), ts, Left(d))
    decreases |ts|, 11
  {
    hide ParseArgList, Consumes;
    if Peek(ts) != RPAREN {
      ArgListSpelt(ts, d);
    } else {
      UsedNothing(ts);
    }
  }

  lemma {:induction false} ArgListSpelt(ts: seq<Token>, d: nat)
    ensures ArgsSpell(ParseArgList(ts, d), ts, Left(d))
    ensures ParseArgList(ts, d).Ok? ==> ParseArgList(ts, d).value.node != []
    decreases |ts|, 10
  {
    hide ParseExpression, NestedText, Consumes, Suffix, Used;
    ExpressionSpelt(ts, d);
    var e := ParseExpression(ts, d);
    if e.Ok? && Peek(e.value.rest) == COMMA {
      var rest := e.value.rest;
      ArgListSpelt(rest[1..], d);
      var more := ParseArgList(rest[1..], d);
      if more.Ok? {
        UsedMore(rest, more.value.rest);
        UsedTwice(ts, rest, more.value.rest);
        CommaText(e.value.node, more.value.node, Used(ts, rest), rest[0], Used(rest[1..], more.value.rest), Left(d));
      }
    }
  }

  lemma CommaText(e: Expr, es: seq<Expr>, first: seq<Token>, comma: Token, more: seq<Token>, n: nat)
    requires comma.kind == COMMA && es != [] && NestedText(e, first, n) && ArgsText(es, more, n)
    ensures ArgsText([e] + es, first + ([comma] + more), n)
  {
    hide NestedText;
    var ts := first + ([comma] + more);
    assert ts[|first|] == comma && ts[..|first|] == first && ts[|first| + 1..] == more;
    assert ([e] + es)[1..] == es;
    assert CommaAt([e] + es, ts, |first|, n);
  }

  // ---- Statements ----

  lemma TerminatedSpelt(ts: seq<Token>)
    ensures var r := ParseTerminated(ts);
            r.Ok? ==> Suffix(ts, r.value.rest) && Terminated(r.value.node, Used(ts, r.value.rest))
  {
    hide ParseExpression, NestedText, Consumes, Suffix, Used, Expect;
    ExpressionSpelt(ts, 0);
    var e := ParseExpression(ts, 0);
    if e.Ok? && Expect(e.value.rest, SEMICOLON).Ok? {
      ExpectOne(e.value.rest, SEMICOLON);
      UsedLess(ts, e.value.rest);
    }
  }

  lemma ConditionSpelt(ts: seq<Token>)
    ensures var r := ParseCondition(ts);
            r.Ok? ==> Suffix(ts, r.value.rest) && Condition(r.value.node, Used(ts, r.value.rest))
  {
    hide ParseExpression, NestedText, Consumes, Suffix, Used, Expect;
    if Expect(ts, LPAREN).Ok? {
      ExpectOne(ts, LPAREN);
      ExpressionSpelt(ts[1..], 0);
      var e := ParseExpression(ts[1..], 0);
      if e.Ok? && Expect(e.value.rest, RPAREN).Ok? {
        Closed(ts, e, RPAREN);
      }
    }
  }

  ghost predicate StmtSpelt(r: Parsed<Stmt>, ts: seq<Token>) {
    r.Ok? ==> Suffix(ts, r.value.rest) && StmtText(r.value.node, Used(ts, r.value.rest))
  }

  lemma VarDeclSpelt(ts: seq<Token>)
    ensures StmtSpelt(ParseVarDecl(ts), ts)
  {
    hide ParseTerminated, Terminated, Consumes, Suffix, Used, Expect;
    var r := ParseVarDecl(ts);
    if r.Ok? {
      ExpectOne(ts, LET);
      ExpectOne(ts[1..], IDENT);
      ExpectOne(ts[1..][1..], EQ);
      var value := ts[1..][1..][1..];
      TerminatedSpelt(value);
      UsedMore(ts[1..][1..], r.value.rest);
      UsedMore(ts[1..], r.value.rest);
      UsedMore(ts, r.value.rest);
      var used := Used(ts, r.value.rest);
      assert used[3..] == Used(value, r.value.rest);
      assert used[1] == ts[1] == Token(IDENT, ts[1].value);
    }
  }

  lemma AssignmentSpelt(ts: seq<Token>)
    ensures StmtSpelt(ParseAssignment(ts), ts)
  {
    hide ParseTerminated, Terminated, Consumes, Suffix, Used, Expect;
    var r := ParseAssignment(ts);
    if r.Ok? {
      ExpectOne(ts, IDENT);
      ExpectOne(ts[1..], EQ);
      var value := ts[1..][1..];
      TerminatedSpelt(value);
      UsedMore(ts[1..], r.value.rest);
      UsedMore(ts, r.value.rest);
      var used := Used(ts, r.value.rest);
      assert used[2..] == Used(value, r.value.rest);
      assert used[0] == Token(IDENT, ts[0].value);
    }
  }

  lemma ReturnSpelt(ts: seq<Token>)
    ensures StmtSpelt(ParseReturn(ts), ts)
  {
    hide ParseTerminated, Terminated, Consumes, Suffix, Used, Expect;
    var r := ParseReturn(ts);
    if r.Ok? {
      ExpectOne(ts, RETURN);
      if Peek(ts[1..]) == SEMICOLON {
        UsedOne(ts[1..]);
      } else {
        TerminatedSpelt(ts[1..]);
      }
      UsedMore(ts, r.value.rest);
      var used := Used(ts, r.value.rest);
      assert used[1..] == Used(ts[1..], r.value.rest);
    }
  }

  lemma ExprStmtSpelt(ts: seq<Token>)
    ensures StmtSpelt(ParseExprStmt(ts), ts)
  {
    hide ParseTerminated, Terminated, Consumes, Suffix, Used;
    TerminatedSpelt(ts);
  }

  lemma {:induction false} StatementSpelt(ts: seq<Token>)
    ensures StmtSpelt(ParseStatement(ts), ts)
    decreases |ts|, 4
  {
    hide ParseIf, ParseWhile, ParseVarDecl, ParseReturn, ParseAssignment, ParseExprStmt, StmtSpelt, Consumes;
    VarDeclSpelt(ts);
    AssignmentSpelt(ts);
    ReturnSpelt(ts);
    ExprStmtSpelt(ts);
    if Peek(ts) == IF {
      IfSpelt(ts);
    } else if Peek(ts) == WHILE {
      WhileSpelt(ts);
    }
  }

  /** A keyword, a condition and a block, in three pieces of what was read. */
  lemma Pieces(ts: seq<Token>, a: seq<Token>, b: seq<Token>, rest: seq<Token>)
    requires ts != [] && Suffix(ts[1..], a) && Suffix(a, b) && Suffix(b, rest)
    ensures Suffix(ts, rest)
    ensures Used(ts, rest) == [ts[0]] + Used(ts[1..], a) + Used(a, b) + Used(b, rest)
  {
    hide Suffix, Used;
    UsedTwice(a, b, rest);
    UsedTwice(ts[1..], a, rest);
    UsedMore(ts, rest);
    Assoc(Used(ts[1..], a), Used(a, b), Used(b, rest));
    Assoc([ts[0]], Used(ts[1..], a), Used(a, b));
    Assoc([ts[0]], Used(ts[1..], a) + Used(a, b), Used(b, rest));
  }

  lemma IfThenText(t: Token, c: seq<Token>, b: seq<Token>, cond: Expr, thn: seq<Stmt>)
    requires t.kind == IF && Condition(cond, c) && BlockText(thn, b)
    ensures StmtText(IfThen(cond, thn), [t] + c + b)
  {
    hide Condition, BlockText;
    var ts := [t] + c + b;
    assert ts[1..1 + |c|] == c && ts[1 + |c|..] == b;
  }

  lemma WhileText(t: Token, c: seq<Token>, b: seq<Token>, cond: Expr, body: seq<Stmt>)
    requires t.kind == WHILE && Condition(cond, c) && BlockText(body, b)
    ensures StmtText(While(cond, body), [t] + c + b)
  {
    hide Condition, BlockText;
    var ts := [t] + c + b;
    assert ts[1..1 + |c|] == c && ts[1 + |c|..] == b;
  }

  lemma IfElseText(t: Token, c: seq<Token>, b: seq<Token>, u: Token, f: seq<Token>, cond: Expr, thn: seq<Stmt>,
                   els: seq<Stmt>)
    requires t.kind == IF && u.kind == ELSE && Condition(cond, c) && BlockText(thn, b) && BlockText(els, f)
    ensures StmtText(IfElse(cond, thn, els), [t] + c + b + ([u] + f))
  {
    hide Condition, BlockText, StmtText;
    FiveParts(t, c, b, u, f);
    IfElseAt([t] + c + b + ([u] + f), 1 + |c|, 1 + |c| + |b|, cond, thn, els);
  }

  lemma IfElseAt(ts: seq<Token>, i: nat, j: nat, cond: Expr, thn: seq<Stmt>, els: seq<Stmt>)
    requires 1 <= i <= j < |ts| && ts[0].kind == IF && ts[j].kind == ELSE
    requires Condition(cond, ts[1..i]) && BlockText(thn, ts[i..j]) && BlockText(els, ts[j + 1..])
    ensures StmtText(IfElse(cond, thn, els), ts)
  {
    hide Condition, BlockText;
  }

  lemma FiveParts(t: Token, c: seq<Token>, b: seq<Token>, u: Token, f: seq<Token>)
    ensures var ts := [t] + c + b + ([u] + f);
            var i, j := 1 + |c|, 1 + |c| + |b|;
            && |ts| == j + 1 + |f| && ts[0] == t && ts[j] == u
            && ts[1..i] == c && ts[i..j] == b && ts[j + 1..] == f
  {
  }

  lemma {:induction false} IfSpelt(ts: seq<Token>)
    ensures StmtSpelt(ParseIf(ts), ts)
    decreases |ts|, 3
  {
    hide ParseCondition, ParseBlock, Condition, BlockText, Consumes, Suffix, Used, Expect, StmtText;
    var r := ParseIf(ts);
    if r.Ok? {
      ExpectOne(ts, IF);
      ConditionSpelt(ts[1..]);
      var cond := ParseCondition(ts[1..]).value;
      BlockSpelt(cond.rest);
      var thn := ParseBlock(cond.rest).value;
      Pieces(ts, cond.rest, thn.rest, thn.rest) by { UsedNothing(thn.rest); }
      UsedNothing(thn.rest);
      var front := [ts[0]] + Used(ts[1..], cond.rest) + Used(cond.rest, thn.rest);
      assert front + [] == front;
      if Peek(thn.rest) != ELSE {
        IfThenText(ts[0], Used(ts[1..], cond.rest), Used(cond.rest, thn.rest), cond.node, thn.node);
      } else {
        BlockSpelt(thn.rest[1..]);
        UsedMore(thn.rest, r.value.rest);
        UsedTwice(ts, thn.rest, r.value.rest);
        var els := ParseBlock(thn.rest[1..]).value;
        IfElseText(ts[0], Used(ts[1..], cond.rest), Used(cond.rest, thn.rest), thn.rest[0],
                   Used(thn.rest[1..], els.rest), cond.node, thn.node, els.node);
      }
    }
  }

  lemma {:induction false} WhileSpelt(ts: seq<Token>)
    ensures StmtSpelt(ParseWhile(ts), ts)
    decreases |ts|, 3
  {
    hide ParseCondition, ParseBlock, Condition, BlockText, Consumes, Suffix, Used, Expect, StmtText;
    var r := ParseWhile(ts);
    if r.Ok? {
      ExpectOne(ts, WHILE);
      ConditionSpelt(ts[1..]);
      var cond := ParseCondition(ts[1..]).value;
      BlockSpelt(cond.rest);
      var body := ParseBlock(cond.rest).value;
      UsedNothing(body.rest);
      Pieces(ts, cond.rest, body.rest, body.rest);
      var front := [ts[0]] + Used(ts[1..], cond.rest) + Used(cond.rest, body.rest);
      assert front + [] == front;
      WhileText(ts[0], Used(ts[1..], cond.rest), Used(cond.rest, body.rest), cond.node, body.node);
    }
  }

  lemma {:induction false} BlockSpelt(ts: seq<Token>)
    ensures var r := ParseBlock(ts);
            r.Ok? ==> Suffix(ts, r.value.rest) && BlockText(r.value.node, Used(ts, r.value.rest))
    decreases |ts|, 2
  {
    hide ParseStatements, StmtsText, Consumes, Suffix, Used, Expect;
    var r := ParseBlock(ts);
    if r.Ok? {
      ExpectOne(ts, LBRACE);
      StatementsSpelt(ts[1..]);
      Closed(ts, ParseStatements(ts[1..]), RBRACE);
    }
  }

  lemma {:induction false} StatementsSpelt(ts: seq<Token>)
    ensures var r := ParseStatements(ts);
            r.Ok? ==> Suffix(ts, r.value.rest) && StmtsText(r.value.node, Used(ts, r.value.rest))
    decreases |ts|, 5
  {
    hide ParseStatement, StmtText, Suffix, Used;
    var r := ParseStatements(ts);
    if Peek(ts) == RBRACE {
      UsedNothing(ts);
    } else if r.Ok? {
      StatementSpelt(ts);
      var s := ParseStatement(ts).value;
      StatementsSpelt(s.rest);
      var ss := ParseStatements(s.rest).value;
      UsedTwice(ts, s.rest, ss.rest);
      UsedSome(ts, s.rest);
      MoreStmts(s.node, ss.node, Used(ts, s.rest), Used(s.rest, ss.rest));
    }
  }

  lemma UsedSome(ts: seq<Token>, rest: seq<Token>)
    requires Suffix(ts, rest) && |rest| < |ts|
    ensures Used(ts, rest) != []
  {
  }

  lemma MoreStmts(s: Stmt, ss: seq<Stmt>, first: seq<Token>, more: seq<Token>)
    requires first != [] && StmtText(s, first) && StmtsText(ss, more)
    ensures StmtsText([s] + ss, first + more)
  {
    hide StmtText;
    var ts := first + more;
    assert ts[..|first|] == first && ts[|first|..] == more && ([s] + ss)[1..] == ss;
  }

  // ---- Functions and programs ----

  lemma {:induction false} ParamListSpelt(ts: seq<Token>)
    ensures var r := ParseParamList(ts);
            r.Ok? ==> r.value.node != [] && Suffix(ts, r.value.rest) && ParamsText(r.value.node, Used(ts, r.value.rest))
    decreases |ts|
  {
    hide Suffix, Used, Expect, Consumes;
    var r := ParseParamList(ts);
    if r.Ok? {
      ExpectOne(ts, IDENT);
      assert ts[0] == Token(IDENT, ts[0].value);
      if Peek(ts[1..]) == COMMA {
        ParamListSpelt(ts[1..][1..]);
        var more := ParseParamList(ts[1..][1..]).value;
        UsedMore(ts[1..], more.rest);
        UsedMore(ts, more.rest);
        MoreParams(ts[0], ts[1], more.node, Used(ts[1..][1..], more.rest));
      }
    }
  }

  lemma MoreParams(name: Token, comma: Token, ps: seq<string>, used: seq<Token>)
    requires name.kind == IDENT && comma.kind == COMMA && ps != [] && ParamsText(ps, used)
    ensures ParamsText([name.value] + ps, [name] + ([comma] + used))
  {
    var ts := [name] + ([comma] + used);
    assert ts[0] == name == Token(IDENT, name.value) && ts[1] == comma && ts[2..] == used;
    assert ([name.value] + ps)[1..] == ps;
  }

  lemma ParamsSpelt(ts: seq<Token>)
    ensures var r := ParseParams(ts);
            r.Ok? ==> Suffix(ts, r.value.rest) && ParamsText(r.value.node, Used(ts, r.value.rest))
  {
    hide ParseParamList, Consumes;
    if Peek(ts) == RPAREN {
      UsedNothing(ts);
    } else {
      ParamListSpelt(ts);
    }
  }

  lemma FunctionSpelt(ts: seq<Token>)
    ensures var r := ParseFunction(ts);
            r.Ok? ==> Suffix(ts, r.value.rest) && FunctionText(r.value.node, Used(ts, r.value.rest))
  {
    hide ParseParams, ParseBlock, BlockText, ParamsText, Suffix, Used, Expect, Consumes;
    var r := ParseFunction(ts);
    if r.Ok? {
      ExpectOne(ts, FN);
      ExpectOne(ts[1..], IDENT);
      var open := ts[1..][1..];
      ExpectOne(open, LPAREN);
      ParamsSpelt(open[1..]);
      var params := ParseParams(open[1..]);
      Closed(open, params, RPAREN);
      var body := Expect(params.value.rest, RPAREN).value.rest;
      BlockSpelt(body);
      UsedTwice(open, body, r.value.rest);
      UsedMore(ts[1..], r.value.rest);
      UsedMore(ts, r.value.rest);
      assert ts[1] == Token(IDENT, ts[1].value);
      FunctionPieces(r.value.node, ts[0], ts[1], Used(open, body), Used(body, r.value.rest));
    }
  }

  lemma FunctionPieces(f: FunctionDef, fn: Token, name: Token, params: seq<Token>, body: seq<Token>)
    requires fn.kind == FN && name == Token(IDENT, f.name) && Enclosed(LPAREN, params, RPAREN)
    requires ParamsText(f.params, Inner(params)) && BlockText(f.body, body)
    ensures FunctionText(f, [fn] + ([name] + (params + body)))
  {
    hide ParamsText, BlockText;
    var ts := [fn] + ([name] + (params + body));
    var i := 2 + |params|;
    assert ts[2..i] == params && ts[i..] == body;
  }

  lemma {:induction false} FunctionsSpelt(ts: seq<Token>)
    requires ts != [] && forall i :: 0 <= i < |ts| ==> (ts[i].kind == EOF <==> i == |ts| - 1)
    ensures ParseFunctions(ts).Ok? ==> FunctionsText(ParseFunctions(ts).value, ts[..|ts| - 1])
    decreases |ts|
  {
    hide ParseFunction, FunctionText, Consumes;
    var r := ParseFunctions(ts);
    if Peek(ts) != EOF && r.Ok? {
      FunctionSpelt(ts);
      var f := ParseFunction(ts).value;
      NotAll(f.node, ts, f.rest);
      FunctionsSpelt(f.rest);
      var used := Used(ts, f.rest);
      assert ts[..|ts| - 1] == used + f.rest[..|f.rest| - 1];
      MoreFunctions(f.node, r.value[1..], used, f.rest[..|f.rest| - 1]);
    }
  }

  /** A function does not use up the token that ends the list. */
  lemma NotAll(f: FunctionDef, ts: seq<Token>, rest: seq<Token>)
    requires ts != [] && ts[|ts| - 1].kind == EOF && Suffix(ts, rest) && FunctionText(f, Used(ts, rest))
    ensures rest != [] && Used(ts, rest) != []
  {
    hide ParamsText, StmtText, StmtsText;
    var used := Used(ts, rest);
    var i :| 2 <= i <= |used| && BlockText(f.body, used[i..]);
    var body := used[i..];
    BlockEnds(f.body, body);
    assert body[|body| - 1] == used[|used| - 1];
  }

  lemma BlockEnds(ss: seq<Stmt>, ts: seq<Token>)
    requires BlockText(ss, ts)
    ensures Enclosed(LBRACE, ts, RBRACE)
  {
  }

  lemma MoreFunctions(f: FunctionDef, fs: seq<FunctionDef>, first: seq<Token>, more: seq<Token>)
    requires first != [] && FunctionText(f, first) && FunctionsText(fs, more)
    ensures FunctionsText([f] + fs, first + more)
  {
    hide FunctionText;
    var ts := first + more;
    assert ts[..|first|] == first && ts[|first|..] == more && ([f] + fs)[1..] == fs;
  }

  /** The parser decides the grammar: it returns p exactly for the texts of p, whatever parentheses they have. */
  lemma ParsesExactly(p: Program, ts: seq<Token>, end: Token)
    requires end.kind == EOF && forall i :: 0 <= i < |ts| ==> ts[i].kind != EOF
    ensures ParseProgram(ts + [end]) == Ok(p) <==> ProgramText(p, ts)
  {
    hide ParseFunctions, FunctionsText;
    assert (ts + [end])[..|ts|] == ts;
    FunctionsSpelt(ts + [end]);
    if ProgramText(p, ts) {
      ReadsProgram(p, ts, end);
    }
  }
}
