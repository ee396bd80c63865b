/** The parser reads every text of a syntax tree as that tree. */
module TextReading {
  import opened Words
  import opened Ast
  import opened Tokens
  import opened Grammar
  import opened Texts

  // ---- Token list algebra ----

  lemma Cons(t: Token, ts: seq<Token>)
    ensures ([t] + ts)[0] == t && ([t] + ts)[1..] == ts
    ensures Peek([t] + ts) == t.kind
  {
  }

  lemma Assoc(a: seq<Token>, b: seq<Token>, c: seq<Token>)
    ensures (a + b) + c == a + (b + c)
  {
  }

  lemma SplitAt(ts: seq<Token>, i: nat, rest: seq<Token>)
    requires i < |ts|
    ensures ts + rest == ts[..i] + ([ts[i]] + (ts[i + 1..] + rest))
  {
    assert ts == ts[..i] + ([ts[i]] + ts[i + 1..]);
  }

  lemma SplitFirst(ts: seq<Token>, rest: seq<Token>)
    requires |ts| > 0
    ensures ts + rest == [ts[0]] + (ts[1..] + rest)
  {
    SplitAt(ts, 0, rest);
    assert ts[..0] == [];
  }

  lemma SplitLast(ts: seq<Token>, rest: seq<Token>)
    requires |ts| > 0
    ensures ts + rest == ts[..|ts| - 1] + ([ts[|ts| - 1]] + rest)
  {
    SplitAt(ts, |ts| - 1, rest);
    assert ts[|ts|..] == [];
    assert [] + rest == rest;
  }

  lemma SplitEnclosed(ts: seq<Token>, rest: seq<Token>)
    requires |ts| >= 2
    ensures ts + rest == [ts[0]] + (Inner(ts) + ([ts[|ts| - 1]] + rest))
  {
    SplitFirst(ts, rest);
    SplitLast(ts[1..], rest);
    assert ts[1..][..|ts| - 2] == Inner(ts);
  }

  lemma ExpectCons(t: Token, ts: seq<Token>)
    requires t.kind != EOF
    ensures Expect([t] + ts, t.kind) == Ok(Step(t.value, ts))
  {
    Cons(t, ts);
  }

  /** What may stand behind a text of a level: no call parenthesis, no operator that binds tighter. */
  predicate Follow(level: nat, rest: seq<Token>) {
    Peek(rest) != LPAREN && forall j :: level < j < UNARY ==> BinOpAt(j, Peek(rest)) == None
  }

  /** What parsing a text of a level leaves to do. */
  function Continue(level: nat, e: Expr, rest: seq<Token>, d: nat): Parsed<Expr>
    requires level <= UNARY
  {
    if level < UNARY then ParseTail(level, e, rest, d) else Ok(Step(e, rest))
  }

  /** How many levels of nesting are left at a depth. */
  function Left(d: nat): nat {
    if d <= MAX_EXPR_DEPTH then MAX_EXPR_DEPTH - d else 0
  }

  // ---- Expressions ----

  lemma {:induction false} ReadsLevel(level: nat, e: Expr, ts: seq<Token>, rest: seq<Token>, d: nat)
    requires level <= UNARY && ExprText(level, e, ts, Left(d)) && Follow(level, rest)
    ensures ParseLevel(level, ts + rest, d) == Continue(level, e, rest, d)
    decreases |ts|, 2, UNARY - level
  {
    hide ParseTail, ExprText, Follow, Consumes, OpLevel;
    if level == UNARY {
      ReadsUnary(e, ts, rest, d);
    } else if e.Binary? && OpLevel(e.op) == level && !InParens(e, ts, Left(d)) {
      ReadsBinary(level, e, ts, rest, d);
    } else {
      // One level up it is a text as well, and no operator of that level follows.
      SameTextAbove(level, e, ts, Left(d));
      NoOperatorFollows(level, e, rest, d);
      ReadsLevel(level + 1, e, ts, rest, d);
    }
  }

  lemma SameTextAbove(level: nat, e: Expr, ts: seq<Token>, n: nat)
    requires level < UNARY && ExprText(level, e, ts, n)
    requires !(e.Binary? && OpLevel(e.op) == level && !InParens(e, ts, n))
    ensures ExprText(level + 1, e, ts, n)
  {
    hide InParens, OperatorAt, ArgsText;
  }

  lemma NoOperatorFollows(level: nat, e: Expr, rest: seq<Token>, d: nat)
    requires level < UNARY && Follow(level, rest)
    ensures Continue(level + 1, e, rest, d) == Ok(Step(e, rest)) && Follow(level + 1, rest)
  {
  }

  lemma OperatorFollows(op: BinOp, t: Token, rest: seq<Token>)
    requires t.kind == BinKind(op)
    ensures Follow(OpLevel(op), [t] + rest)
  {
    Cons(t, rest);
  }

  lemma TailTakes(op: BinOp, t: Token, left: Expr, rest: seq<Token>, d: nat)
    requires t.kind == BinKind(op)
    ensures var r := ParseLevel(OpLevel(op) + 1, rest, d);
            ParseTail(OpLevel(op), left, [t] + rest, d)
            == if r.Err? then Err(r.error) else ParseTail(OpLevel(op), Binary(op, left, r.value.node), r.value.rest, d)
  {
    hide ParseLevel, Consumes;
    Cons(t, rest);
  }

  lemma OperatorIs(level: nat, e: Expr, ts: seq<Token>, n: nat) returns (i: nat)
    requires e.Binary? && ExprText(level, e, ts, n) && !InParens(e, ts, n)
    ensures i < |ts| && OperatorAt(e, ts, i, n)
  {
    hide InParens, OperatorAt, OpLevel;
    assert BareText(level, e, ts, n);
    i :| 0 <= i < |ts| && OperatorAt(e, ts, i, n);
  }

  lemma {:induction false} ReadsBinary(level: nat, e: Expr, ts: seq<Token>, rest: seq<Token>, d: nat)
    requires e.Binary? && level == OpLevel(e.op) && ExprText(level, e, ts, Left(d)) && !InParens(e, ts, Left(d))
    requires Follow(level, rest)
    ensures ParseLevel(level, ts + rest, d) == Continue(level, e, rest, d)
    decreases |ts|, 1, 0
  {
    hide ParseLevel, ParseTail, OpLevel, Follow, Consumes, ExprText, InParens, BinKind;
    var i := OperatorIs(level, e, ts, Left(d));
    var l, r, opTok := ts[..i], ts[i + 1..], ts[i];
    SplitAt(ts, i, rest);
    OperatorFollows(e.op, opTok, r + rest);
    ReadsLevel(level, e.left, l, [opTok] + (r + rest), d);
    TailTakes(e.op, opTok, e.left, r + rest, d);
    NoOperatorFollows(level, e.right, rest, d);
    ReadsLevel(level + 1, e.right, r, rest, d);
  }

  lemma {:induction false} ReadsUnary(e: Expr, ts: seq<Token>, rest: seq<Token>, d: nat)
    requires ExprText(UNARY, e, ts, Left(d)) && Follow(UNARY, rest)
    ensures ParseUnary(ts + rest, d) == Ok(Step(e, rest))
    decreases |ts|, 1, 0
  {
    hide ParseExpression, ParsePrimary, Consumes, InParens, ArgsText;
    if InParens(e, ts, Left(d)) {
      ReadsParens(e, ts, rest, d);
    } else if e.Unary? {
      SplitFirst(ts, rest);
      Cons(ts[0], ts[1..] + rest);
      ReadsUnary(e.operand, ts[1..], rest, d);
    } else if e.Call? {
      ReadsCall(e, ts, rest, d);
    } else {
      ReadsLeaf(e, ts, rest, d);
    }
  }

  lemma ReadsLeaf(e: Expr, ts: seq<Token>, rest: seq<Token>, d: nat)
    requires (e.IntLit? || e.BoolLit? || e.Var?) && BareText(UNARY, e, ts, Left(d)) && Follow(UNARY, rest)
    ensures ParseUnary(ts + rest, d) == Ok(Step(e, rest))
  {
    hide ParseExpression, ParseArgs, Expect, Consumes;
    assert ts == [ts[0]];
    Cons(ts[0], rest);
  }

  /** A nested text is one level deeper. */
  lemma {:induction false} ReadsNested(e: Expr, ts: seq<Token>, rest: seq<Token>, d: nat)
    requires NestedText(e, ts, Left(d)) && Peek(rest) in {RPAREN, COMMA, SEMICOLON}
    ensures ParseExpression(ts + rest, d) == Ok(Step(e, rest))
    decreases |ts|, 3, 0
  {
    ReadsLevel(0, e, ts, rest, d + 1);
  }

  lemma {:induction false} ReadsParens(e: Expr, ts: seq<Token>, rest: seq<Token>, d: nat)
    requires InParens(e, ts, Left(d))
    ensures ParseUnary(ts + rest, d) == Ok(Step(e, rest))
    decreases |ts|, 0, 0
  {
    hide ParseExpression, Consumes, NestedText;
    var close := [ts[|ts| - 1]] + rest;
    SplitEnclosed(ts, rest);
    Cons(ts[0], Inner(ts) + close);
    Cons(ts[|ts| - 1], rest);
    ReadsNested(e, Inner(ts), close, d);
    ExpectCons(ts[|ts| - 1], rest);
  }

  /** A name, a parenthesis, arguments that parse, and the closing parenthesis. */
  lemma CallTakes(name: string, open: Token, es: seq<Expr>, inner: seq<Token>, close: Token, rest: seq<Token>, d: nat)
    requires open.kind == LPAREN && close.kind == RPAREN && ParseArgs(inner, d) == Ok(Step(es, [close] + rest))
    ensures ParseUnary([Token(IDENT, name)] + ([open] + inner), d) == Ok(Step(Call(name, es), rest))
  {
    hide ParseArgs, ParseExpression, Consumes, Expect;
    Cons(Token(IDENT, name), [open] + inner);
    Cons(open, inner);
    ExpectCons(close, rest);
  }

  lemma {:induction false} ReadsCall(e: Expr, ts: seq<Token>, rest: seq<Token>, d: nat)
    requires e.Call? && BareText(UNARY, e, ts, Left(d))
    ensures ParseUnary(ts + rest, d) == Ok(Step(e, rest))
    decreases |ts|, 0, 0
  {
    hide ParseArgs, ParseUnary, Consumes, ArgsText;
    var call := ts[1..];
    var close := call[|call| - 1];
    SplitFirst(ts, rest);
    SplitEnclosed(call, rest);
    ReadsArgs(e.args, Inner(call), close, rest, d);
    CallTakes(e.callee, call[0], e.args, Inner(call) + ([close] + rest), close, rest, d);
  }

  lemma {:induction false} ReadsArgs(es: seq<Expr>, ts: seq<Token>, close: Token, rest: seq<Token>, d: nat)
    requires ArgsText(es, ts, Left(d)) && close.kind == RPAREN
    ensures ParseArgs(ts + ([close] + rest), d) == Ok(Step(es, [close] + rest))
    decreases |ts|, 5, 0
  {
    hide ParseArgList, Consumes, ArgsText;
    Cons(close, rest);
    if es == [] {
      NoArgs(ts, Left(d));
      assert ts + ([close] + rest) == [close] + rest;
    } else {
      ReadsArgList(es, ts, close, rest, d);
      ArgListStarts(ts + ([close] + rest), d);
    }
  }

  lemma NoArgs(ts: seq<Token>, n: nat)
    requires ArgsText([], ts, n)
    ensures ts == []
  {
  }

  const EXPR_START := {INT_LIT, TRUE, FALSE, IDENT, LPAREN, MINUS, BANG}

  /** What parses as an expression begins with one of these tokens. */
  lemma {:induction false} LevelStarts(level: nat, ts: seq<Token>, d: nat)
    requires level <= UNARY && ParseLevel(level, ts, d).Ok?
    ensures Peek(ts) in EXPR_START
    decreases UNARY - level
  {
    if level < UNARY {
      hide ParseLevel;
      LevelAbove(level, ts, d);
      LevelStarts(level + 1, ts, d);
    } else {
      UnaryStarts(ts, d);
    }
  }

  lemma UnaryStarts(ts: seq<Token>, d: nat)
    requires ParseUnary(ts, d).Ok?
    ensures Peek(ts) in EXPR_START
  {
    hide ParseExpression, ParseArgs, Expect, Consumes;
  }

  lemma LevelAbove(level: nat, ts: seq<Token>, d: nat)
    requires level < UNARY && ParseLevel(level, ts, d).Ok?
    ensures ParseLevel(level + 1, ts, d).Ok?
  {
    hide ParseTail, ParseUnary, Consumes;
  }

  lemma ArgListStarts(ts: seq<Token>, d: nat)
    requires ParseArgList(ts, d).Ok?
    ensures Peek(ts) in EXPR_START
  {
    hide Consumes, ParseArgList, ParseLevel;
    ArgListNeedsExpression(ts, d);
    LevelStarts(0, ts, d + 1);
  }

  lemma ArgListNeedsExpression(ts: seq<Token>, d: nat)
    requires ParseArgList(ts, d).Ok?
    ensures ParseExpression(ts, d).Ok?
  {
    hide Consumes, ParseExpression;
  }

  /** One argument, with the rest of the list or the end behind it. */
  lemma ArgListTakes(ts: seq<Token>, d: nat, e: Expr, rest: seq<Token>)
    requires ParseExpression(ts, d) == Ok(Step(e, rest))
    ensures Peek(rest) != COMMA ==> ParseArgList(ts, d) == Ok(Step([e], rest))
    ensures Peek(rest) == COMMA && ParseArgList(rest[1..], d).Ok? ==>
              var more := ParseArgList(rest[1..], d).value;
              ParseArgList(ts, d) == Ok(Step([e] + more.node, more.rest))
  {
    hide ParseExpression, Consumes;
  }

  lemma {:induction false} ReadsArgList(es: seq<Expr>, ts: seq<Token>, close: Token, rest: seq<Token>, d: nat)
    requires es != [] && ArgsText(es, ts, Left(d)) && close.kind == RPAREN
    ensures ParseArgList(ts + ([close] + rest), d) == Ok(Step(es, [close] + rest))
    decreases |ts|, 4, 0
  {
    hide ParseExpression, ParseArgList, ExprText, NestedText, Consumes;
    var tail := [close] + rest;
    Cons(close, rest);
    if |es| == 1 {
      ReadsNested(es[0], ts, tail, d);
      ArgListTakes(ts + tail, d, es[0], tail);
      assert es == [es[0]];
    } else {
      var i: nat :| i < |ts| && CommaAt(es, ts, i, Left(d));
      var more := ts[i + 1..] + tail;
      SplitAt(ts, i, tail);
      Cons(ts[i], more);
      ReadsNested(es[0], ts[..i], [ts[i]] + more, d);
      ReadsArgList(es[1..], ts[i + 1..], close, rest, d);
      ArgListTakes(ts + tail, d, es[0], [ts[i]] + more);
      assert es == [es[0]] + es[1..];
    }
  }

  /** A name before '=' is all that the expression rule takes. */
  lemma {:induction false} VarBeforeEq(level: nat, ts: seq<Token>, d: nat)
    requires level <= UNARY && |ts| > 1 && ts[0].kind == IDENT && ts[1].kind == EQ
    ensures ParseLevel(level, ts, d) == Ok(Step(Var(ts[0].value), ts[1..]))
    decreases UNARY - level
  {
    hide ParseUnary, Consumes;
    if level < UNARY {
      VarBeforeEq(level + 1, ts, d);
      NoTail(level, Var(ts[0].value), ts[1..], d);
    } else {
      UnaryVar(ts, d);
    }
  }

  lemma NoTail(level: nat, e: Expr, ts: seq<Token>, d: nat)
    requires level < UNARY && Peek(ts) == EQ
    ensures ParseTail(level, e, ts, d) == Ok(Step(e, ts))
  {
  }

  lemma UnaryVar(ts: seq<Token>, d: nat)
    requires |ts| > 1 && ts[0].kind == IDENT && ts[1].kind == EQ
    ensures ParseUnary(ts, d) == Ok(Step(Var(ts[0].value), ts[1..]))
  {
    hide ParseExpression, ParseArgs, Expect, Consumes;
    assert ts[1..][0] == ts[1];
  }

  /** So what parses as an expression with a semicolon is no assignment. */
  lemma TerminatedIsNoAssignment(ts: seq<Token>)
    requires ParseTerminated(ts).Ok?
    ensures Peek(ts) in EXPR_START && !(Peek(ts) == IDENT && IsAssignment(ts))
  {
    hide ParseLevel, Consumes;
    LevelStarts(0, ts, 1);
    if Peek(ts) == IDENT && |ts| > 1 && ts[1].kind == EQ {
      VarBeforeEq(0, ts, 1);
    }
  }

  // ---- Statements ----

  lemma ReadsTerminated(e: Expr, ts: seq<Token>, rest: seq<Token>)
    requires Terminated(e, ts)
    ensures ParseTerminated(ts + rest) == Ok(Step(e, rest))
  {
    hide ParseExpression, NestedText, Consumes;
    var end := ts[|ts| - 1];
    SplitLast(ts, rest);
    Cons(end, rest);
    ReadsNested(e, ts[..|ts| - 1], [end] + rest, 0);
    ExpectCons(end, rest);
  }

  lemma ReadsCondition(e: Expr, ts: seq<Token>, rest: seq<Token>)
    requires Condition(e, ts)
    ensures ParseCondition(ts + rest) == Ok(Step(e, rest))
  {
    hide ParseExpression, NestedText, Consumes;
    var close := ts[|ts| - 1];
    SplitEnclosed(ts, rest);
    ExpectCons(ts[0], Inner(ts) + ([close] + rest));
    Cons(close, rest);
    ReadsNested(e, Inner(ts), [close] + rest, 0);
    ExpectCons(close, rest);
  }

  lemma {:induction false} ReadsStmt(s: Stmt, ts: seq<Token>, rest: seq<Token>)
    requires StmtText(s, ts) && Peek(rest) != ELSE
    ensures ParseStatement(ts + rest) == Ok(Step(s, rest))
    decreases |ts|, 1
  {
    hide StmtText, ParseStatement;
    match s
    case VarDecl(_, _) => ReadsVarDecl(s, ts, rest);
    case Assign(_, _) => ReadsAssign(s, ts, rest);
    case ExprStmt(_) => ReadsExprStmt(s, ts, rest);
    case IfThen(_, _) => ReadsIfThen(s, ts, rest);
    case IfElse(_, _, _) => ReadsIfElse(s, ts, rest);
    case While(_, _) => ReadsWhile(s, ts, rest);
    case ReturnVoid => ReadsReturn(s, ts, rest);
    case Return(_) => ReadsReturn(s, ts, rest);
  }

  lemma ReadsVarDecl(s: Stmt, ts: seq<Token>, rest: seq<Token>)
    requires s.VarDecl? && StmtText(s, ts)
    ensures ParseStatement(ts + rest) == Ok(Step(s, rest))
  {
    hide ParseTerminated, Consumes, Expect, ParseIf, ParseWhile, ParseAssignment, ParseReturn, ParseExprStmt;
    hide Terminated;
    var value := ts[3..] + rest;
    SplitFirst(ts, rest);
    SplitFirst(ts[1..], rest);
    SplitFirst(ts[1..][1..], rest);
    assert ts[1..][1..][1..] == ts[3..];
    Cons(ts[0], [ts[1]] + ([ts[2]] + value));
    ExpectCons(ts[0], [ts[1]] + ([ts[2]] + value));
    ExpectCons(ts[1], [ts[2]] + value);
    ExpectCons(ts[2], value);
    ReadsTerminated(s.init, ts[3..], rest);
  }

  lemma ReadsAssign(s: Stmt, ts: seq<Token>, rest: seq<Token>)
    requires s.Assign? && StmtText(s, ts)
    ensures ParseStatement(ts + rest) == Ok(Step(s, rest))
  {
    hide ParseTerminated, Consumes, Expect, ParseIf, ParseWhile, ParseVarDecl, ParseReturn, ParseExprStmt, Terminated;
    var value := ts[2..] + rest;
    SplitFirst(ts, rest);
    SplitFirst(ts[1..], rest);
    assert ts[1..][1..] == ts[2..];
    ReadsTerminated(s.val, ts[2..], rest);
    TerminatedIsNoAssignment(value);
    Cons(ts[0], [ts[1]] + value);
    Cons(ts[1], value);
    assert (ts + rest)[1] == ts[1];
    assert |ts + rest| > 2 ==> (ts + rest)[2] == value[0];
    ExpectCons(ts[0], [ts[1]] + value);
    ExpectCons(ts[1], value);
  }

  lemma ReadsExprStmt(s: Stmt, ts: seq<Token>, rest: seq<Token>)
    requires s.ExprStmt? && StmtText(s, ts)
    ensures ParseStatement(ts + rest) == Ok(Step(s, rest))
  {
    hide ParseTerminated, Consumes, ParseIf, ParseWhile, ParseVarDecl, ParseReturn, ParseAssignment, Terminated;
    hide IsAssignment;
    ReadsTerminated(s.e, ts, rest);
    TerminatedIsNoAssignment(ts + rest);
  }

  lemma ReadsReturn(s: Stmt, ts: seq<Token>, rest: seq<Token>)
    requires (s.ReturnVoid? || s.Return?) && StmtText(s, ts)
    ensures ParseStatement(ts + rest) == Ok(Step(s, rest))
  {
    hide ParseTerminated, Consumes, ParseIf, ParseWhile, ParseVarDecl, ParseAssignment, ParseExprStmt;
    hide Terminated, Expect;
    SplitFirst(ts, rest);
    Cons(ts[0], ts[1..] + rest);
    ExpectCons(ts[0], ts[1..] + rest);
    if s.Return? {
      ReadsTerminated(s.res, ts[1..], rest);
      TerminatedIsNoAssignment(ts[1..] + rest);
    } else {
      assert ts[1..] + rest == [ts[1]] + rest;
      Cons(ts[1], rest);
    }
  }

  lemma Split3(ts: seq<Token>, i: nat, rest: seq<Token>)
    requires 1 <= i <= |ts|
    ensures ts + rest == [ts[0]] + (ts[1..i] + (ts[i..] + rest))
  {
    SplitFirst(ts, rest);
    assert ts[1..] == ts[1..i] + ts[i..];
  }

  lemma {:induction false} ReadsIfThen(s: Stmt, ts: seq<Token>, rest: seq<Token>)
    requires s.IfThen? && StmtText(s, ts) && Peek(rest) != ELSE
    ensures ParseStatement(ts + rest) == Ok(Step(s, rest))
    decreases |ts|, 0
  {
    hide ParseBlock, ParseCondition, BlockText, Condition, Consumes;
    var i :| 1 <= i <= |ts| && Condition(s.cond, ts[1..i]) && BlockText(s.thn, ts[i..]);
    Split3(ts, i, rest);
    var more := ts[1..i] + (ts[i..] + rest);
    Cons(ts[0], more);
    ExpectCons(ts[0], more);
    ReadsCondition(s.cond, ts[1..i], ts[i..] + rest);
    ReadsBlock(s.thn, ts[i..], rest);
  }

  lemma {:induction false} ReadsWhile(s: Stmt, ts: seq<Token>, rest: seq<Token>)
    requires s.While? && StmtText(s, ts)
    ensures ParseStatement(ts + rest) == Ok(Step(s, rest))
    decreases |ts|, 0
  {
    hide ParseBlock, ParseCondition, BlockText, Condition, Consumes;
    var i :| 1 <= i <= |ts| && Condition(s.cond, ts[1..i]) && BlockText(s.body, ts[i..]);
    Split3(ts, i, rest);
    var more := ts[1..i] + (ts[i..] + rest);
    Cons(ts[0], more);
    ExpectCons(ts[0], more);
    ReadsCondition(s.cond, ts[1..i], ts[i..] + rest);
    ReadsBlock(s.body, ts[i..], rest);
  }

  lemma {:induction false} ReadsIfElse(s: Stmt, ts: seq<Token>, rest: seq<Token>)
    requires s.IfElse? && StmtText(s, ts)
    ensures ParseStatement(ts + rest) == Ok(Step(s, rest))
    decreases |ts|, 0
  {
    hide ParseBlock, ParseCondition, BlockText, Condition, Consumes;
    var i, j :| 1 <= i <= j < |ts| && Condition(s.cond, ts[1..i]) && BlockText(s.thn, ts[i..j])
                && ts[j].kind == ELSE && BlockText(s.els, ts[j + 1..]);
    var els := [ts[j]] + (ts[j + 1..] + rest);
    var more := ts[1..i] + (ts[i..j] + els);
    Split3(ts, i, rest);
    SplitAt(ts[i..], j - i, rest);
    assert ts[i..][..j - i] == ts[i..j] && ts[i..][j - i + 1..] == ts[j + 1..];
    Cons(ts[0], more);
    ExpectCons(ts[0], more);
    ReadsCondition(s.cond, ts[1..i], ts[i..j] + els);
    ReadsBlock(s.thn, ts[i..j], els);
    Cons(ts[j], ts[j + 1..] + rest);
    ReadsBlock(s.els, ts[j + 1..], rest);
  }

  lemma {:induction false} ReadsBlock(ss: seq<Stmt>, ts: seq<Token>, rest: seq<Token>)
    requires BlockText(ss, ts)
    ensures ParseBlock(ts + rest) == Ok(Step(ss, rest))
    decreases |ts|, 1
  {
    hide ParseStatements, StmtsText, Consumes;
    var close := ts[|ts| - 1];
    SplitEnclosed(ts, rest);
    ExpectCons(ts[0], Inner(ts) + ([close] + rest));
    ReadsStmts(ss, Inner(ts), close, rest);
    ExpectCons(close, rest);
  }

  const NO_START := {RBRACE, ELSE}

  /** What parses as a statement begins neither with a closing brace nor with else. */
  lemma StatementStarts(ts: seq<Token>)
    requires ParseStatement(ts).Ok?
    ensures Peek(ts) !in NO_START
  {
    hide ParseTerminated, Consumes, ParseIf, ParseWhile, ParseVarDecl, ParseReturn, ParseAssignment;
    if Peek(ts) in NO_START {
      assert ParseStatement(ts) == ParseExprStmt(ts);
      TerminatedIsNoAssignment(ts);
    }
  }

  /** The statements behind a text of one do not begin with else. */
  lemma {:induction false} StmtsStart(ss: seq<Stmt>, ts: seq<Token>, close: Token, rest: seq<Token>)
    requires close.kind == RBRACE && ParseStatements(ts + ([close] + rest)).Ok?
    requires ss == [] ==> ts == []
    requires ss != [] ==> Peek(ts + ([close] + rest)) != RBRACE
    ensures Peek(ts + ([close] + rest)) != ELSE
  {
    hide ParseStatement, Consumes;
    Cons(close, rest);
    if ss == [] {
      assert ts + ([close] + rest) == [close] + rest;
    } else {
      StatementStarts(ts + ([close] + rest));
    }
  }

  lemma StatementsTake(ts: seq<Token>, s: Stmt, rest: seq<Token>, ss: seq<Stmt>, end: seq<Token>)
    requires ParseStatement(ts) == Ok(Step(s, rest)) && ParseStatements(rest) == Ok(Step(ss, end))
    ensures ParseStatements(ts) == Ok(Step([s] + ss, end))
  {
    hide ParseStatement, Consumes;
    StatementStarts(ts);
  }

  lemma {:induction false} ReadsStmts(ss: seq<Stmt>, ts: seq<Token>, close: Token, rest: seq<Token>)
    requires StmtsText(ss, ts) && close.kind == RBRACE
    ensures ParseStatements(ts + ([close] + rest)) == Ok(Step(ss, [close] + rest))
    ensures Peek(ts + ([close] + rest)) != ELSE
    decreases |ts|, 2
  {
    hide ParseStatement, ParseStatements, StmtText, Consumes;
    var tail := [close] + rest;
    Cons(close, rest);
    if ss == [] {
      assert ts + tail == tail;
      NoStatements(tail);
    } else {
      var i :| 0 < i <= |ts| && StmtText(ss[0], ts[..i]) && StmtsText(ss[1..], ts[i..]);
      assert ts + tail == ts[..i] + (ts[i..] + tail) by { assert ts == ts[..i] + ts[i..]; }
      ReadsStmts(ss[1..], ts[i..], close, rest);
      ReadsStmt(ss[0], ts[..i], ts[i..] + tail);
      StatementsTake(ts + tail, ss[0], ts[i..] + tail, ss[1..], tail);
      StatementStarts(ts + tail);
      assert ss == [ss[0]] + ss[1..];
    }
  }

  lemma NoStatements(ts: seq<Token>)
    requires Peek(ts) == RBRACE
    ensures ParseStatements(ts) == Ok(Step([], ts))
  {
  }

  // ---- Functions and programs ----

  lemma {:induction false} ReadsParamList(ps: seq<string>, ts: seq<Token>, close: Token, rest: seq<Token>)
    requires ps != [] && ParamsText(ps, ts) && close.kind == RPAREN
    ensures ParseParamList(ts + ([close] + rest)) == Ok(Step(ps, [close] + rest))
    ensures Peek(ts + ([close] + rest)) == IDENT
    decreases |ps|
  {
    hide Consumes, ParseParamList, Expect;
    var tail := [close] + rest;
    Cons(close, rest);
    if |ps| == 1 {
      ParamListTakes(ps[0], tail);
      assert ps == [ps[0]];
    } else {
      SplitFirst(ts, tail);
      SplitFirst(ts[1..], tail);
      assert ts[1..][1..] == ts[2..];
      Cons(ts[1], ts[2..] + tail);
      ReadsParamList(ps[1..], ts[2..], close, rest);
      ParamListTakes(ps[0], [ts[1]] + (ts[2..] + tail));
      assert ps == [ps[0]] + ps[1..];
    }
  }

  /** One parameter, with a comma and more parameters or something else behind it. */
  lemma ParamListTakes(name: string, rest: seq<Token>)
    ensures var ts := [Token(IDENT, name)] + rest;
            && Peek(ts) == IDENT
            && (Peek(rest) != COMMA ==> ParseParamList(ts) == Ok(Step([name], rest)))
            && (Peek(rest) == COMMA && ParseParamList(rest[1..]).Ok? ==>
                  var more := ParseParamList(rest[1..]).value;
                  ParseParamList(ts) == Ok(Step([name] + more.node, more.rest)))
  {
    hide Consumes, Expect;
    Cons(Token(IDENT, name), rest);
    ExpectCons(Token(IDENT, name), rest);
  }

  lemma ReadsParams(ps: seq<string>, ts: seq<Token>, close: Token, rest: seq<Token>)
    requires ParamsText(ps, ts) && close.kind == RPAREN
    ensures ParseParams(ts + ([close] + rest)) == Ok(Step(ps, [close] + rest))
  {
    hide ParseParamList, Consumes;
    Cons(close, rest);
    if ps == [] {
      assert ts + ([close] + rest) == [close] + rest;
    } else {
      ReadsParamList(ps, ts, close, rest);
    }
  }

  lemma HeaderTakes(fn: Token, name: Token, open: Token, rest: seq<Token>)
    requires fn.kind == FN && name.kind == IDENT && open.kind == LPAREN
    ensures ParseHeader([fn] + ([name] + ([open] + rest))) == Ok(Step(name.value, rest))
  {
    hide Consumes, Expect;
    ExpectCons(fn, [name] + ([open] + rest));
    ExpectCons(name, [open] + rest);
    ExpectCons(open, rest);
  }

  lemma ReadsFunction(f: FunctionDef, ts: seq<Token>, rest: seq<Token>)
    requires FunctionText(f, ts)
    ensures ParseFunction(ts + rest) == Ok(Step(f, rest)) && Peek(ts + rest) == FN
  {
    hide ParseBlock, ParseHeader, ParseParams, BlockText, ParamsText, Consumes, Expect;
    var i :| 2 <= i <= |ts| && Enclosed(LPAREN, ts[2..i], RPAREN) && ParamsText(f.params, Inner(ts[2..i]))
             && BlockText(f.body, ts[i..]);
    var params, body := ts[2..i], ts[i..] + rest;
    var close := params[|params| - 1];
    SplitFirst(ts, rest);
    SplitFirst(ts[1..], rest);
    assert ts[1..][1..] == params + ts[i..];
    Assoc(params, ts[i..], rest);
    SplitEnclosed(params, body);
    Cons(ts[0], [ts[1]] + (params + body));
    HeaderTakes(ts[0], ts[1], params[0], Inner(params) + ([close] + body));
    ReadsParams(f.params, Inner(params), close, body);
    ExpectCons(close, body);
    ReadsBlock(f.body, ts[i..], rest);
  }

  lemma {:induction false} ReadsFunctions(fs: seq<FunctionDef>, ts: seq<Token>, end: Token)
    requires FunctionsText(fs, ts) && end.kind == EOF
    ensures ParseFunctions(ts + [end]) == Ok(fs)
    decreases |fs|
  {
    hide ParseFunction, FunctionText, Consumes;
    if fs == [] {
      assert ts + [end] == [end];
    } else {
      var i :| 0 < i <= |ts| && FunctionText(fs[0], ts[..i]) && FunctionsText(fs[1..], ts[i..]);
      assert ts + [end] == ts[..i] + (ts[i..] + [end]) by { assert ts == ts[..i] + ts[i..]; }
      ReadsFunction(fs[0], ts[..i], ts[i..] + [end]);
      ReadsFunctions(fs[1..], ts[i..], end);
      assert fs == [fs[0]] + fs[1..];
    }
  }

  /** Every text of a program is read as that program, whatever pairs of parentheses it has. */
  lemma ReadsProgram(p: Program, ts: seq<Token>, end: Token)
    requires ProgramText(p, ts) && end.kind == EOF
    ensures ParseProgram(ts + [end]) == Ok(p)
  {
    hide ParseFunctions, FunctionsText;
    ReadsFunctions(p.functions, ts, end);
  }
}
