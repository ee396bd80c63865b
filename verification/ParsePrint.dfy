/** What the printer writes is a text of the program, so the parser inverts the printer. */
module ParsePrint {
  import opened Words
  import opened Ast
  import opened Tokens
  import opened Grammar
  import opened Texts
  import opened TextReading

  // ---- Printed expressions ----

  lemma {:induction false} PrintedExpr(level: nat, e: Expr, n: nat)
    requires level <= UNARY && Writable(e) && Nesting(level, e) <= n
    ensures ExprText(level, e, PrintExpr(level, e), n)
    decreases e, if LevelOf(e) < level then 2 else 1
  {
    hide ExprText, OpLevel, Decimal, Spelling;
    if LevelOf(e) < level {
      var inner := PrintExpr(0, e);
      PrintedExpr(0, e, n - 1);
      ParensText(level, e, Fixed(LPAREN), inner, Fixed(RPAREN), n);
    } else {
      match e
      case Binary(op, left, right) =>
        PrintedExpr(OpLevel(op), left, n);
        PrintedExpr(OpLevel(op) + 1, right, n);
        BinaryText(level, e, PrintExpr(OpLevel(op), left), Fixed(BinKind(op)), PrintExpr(OpLevel(op) + 1, right), n);
      case Unary(op, operand) =>
        PrintedExpr(UNARY, operand, n);
        var ts := PrintExpr(level, e);
        assert ts[1..] == PrintExpr(UNARY, operand);
        assert BareText(level, e, ts, n);
        TextIsBare(level, e, ts, n);
      case Call(name, args) =>
        PrintedArgs(args, n);
        CallText(level, e, Fixed(LPAREN), PrintArgs(args), Fixed(RPAREN), n);
      case _ => PrintedLeaf(level, e, n);
    }
  }

  lemma TextIsBare(level: nat, e: Expr, ts: seq<Token>, n: nat)
    requires BareText(level, e, ts, n)
    ensures ExprText(level, e, ts, n)
  {
    hide BareText, InParens;
  }

  lemma PrintedLeaf(level: nat, e: Expr, n: nat)
    requires (e.IntLit? || e.BoolLit? || e.Var?) && Writable(e) && LevelOf(e) >= level
    ensures ExprText(level, e, PrintExpr(level, e), n)
  {
    hide ExprText, Decimal, Spelling;
    if e.IntLit? {
      DecimalValue(e.n);
    }
    TextIsBare(level, e, PrintExpr(level, e), n);
  }

  lemma ParensText(level: nat, e: Expr, open: Token, inner: seq<Token>, close: Token, n: nat)
    requires open.kind == LPAREN && close.kind == RPAREN && n >= 1 && ExprText(0, e, inner, n - 1)
    ensures ExprText(level, e, [open] + inner + [close], n)
  {
    hide BareText;
    var ts := [open] + inner + [close];
    assert Inner(ts) == inner;
    assert InParens(e, ts, n);
  }

  lemma BinaryText(level: nat, e: Expr, l: seq<Token>, t: Token, r: seq<Token>, n: nat)
    requires e.Binary? && level <= OpLevel(e.op) && t.kind == BinKind(e.op)
    requires ExprText(OpLevel(e.op), e.left, l, n) && ExprText(OpLevel(e.op) + 1, e.right, r, n)
    ensures ExprText(level, e, l + [t] + r, n)
  {
    hide ExprText, InParens;
    var ts := l + [t] + r;
    assert ts[|l|] == t && ts[..|l|] == l && ts[|l| + 1..] == r;
    assert OperatorAt(e, ts, |l|, n);
    TextIsBare(level, e, ts, n);
  }

  lemma CallText(level: nat, e: Expr, open: Token, args: seq<Token>, close: Token, n: nat)
    requires e.Call? && open.kind == LPAREN && close.kind == RPAREN && ArgsText(e.args, args, n)
    ensures ExprText(level, e, [Token(IDENT, e.callee), open] + args + [close], n)
  {
    hide ExprText, ArgsText;
    var ts := [Token(IDENT, e.callee), open] + args + [close];
    assert ts[1..] == [open] + args + [close] && Inner(ts[1..]) == args;
    TextIsBare(level, e, ts, n);
  }

  lemma {:induction false} PrintedArgs(es: seq<Expr>, n: nat)
    requires AllWritable(es) && (es != [] ==> 1 + NestingOf(es) <= n)
    ensures ArgsText(es, PrintArgs(es), n)
    decreases es, 0
  {
    hide PrintExpr, Nesting, Writable, ExprText, Spelling;
    if es != [] {
      PrintedExpr(0, es[0], n - 1);
      if |es| > 1 {
        PrintedArgs(es[1..], n);
        var first, more := PrintExpr(0, es[0]), PrintArgs(es[1..]);
        var ts := first + [Fixed(COMMA)] + more;
        assert ts[|first|] == Fixed(COMMA) && ts[..|first|] == first && ts[|first| + 1..] == more;
        assert CommaAt(es, ts, |first|, n);
      }
    }
  }

  // ---- Printed statements ----

  lemma PrintedTerminated(e: Expr)
    requires ExprOk(e)
    ensures Terminated(e, PrintExpr(0, e) + [Fixed(SEMICOLON)])
  {
    hide ExprText, PrintExpr, Nesting, Writable, Spelling;
    PrintedExpr(0, e, MAX_EXPR_DEPTH - 1);
    var ts := PrintExpr(0, e) + [Fixed(SEMICOLON)];
    assert ts[..|ts| - 1] == PrintExpr(0, e);
  }

  lemma PrintedCondition(e: Expr)
    requires ExprOk(e)
    ensures Condition(e, PrintCondition(e))
  {
    hide ExprText, PrintExpr, Nesting, Writable, Spelling;
    PrintedExpr(0, e, MAX_EXPR_DEPTH - 1);
    assert Inner(PrintCondition(e)) == PrintExpr(0, e);
  }

  lemma {:induction false} PrintedStmt(s: Stmt)
    requires StmtOk(s)
    ensures StmtText(s, PrintStmt(s))
    decreases s, 1
  {
    hide PrintExpr, ExprOk, Terminated, Condition, BlockText, PrintCondition, PrintBlock, Spelling;
    var ts := PrintStmt(s);
    match s
    case VarDecl(_, init) =>
      PrintedTerminated(init);
      assert ts[3..] == PrintExpr(0, init) + [Fixed(SEMICOLON)];
    case Assign(_, val) =>
      PrintedTerminated(val);
      assert ts[2..] == PrintExpr(0, val) + [Fixed(SEMICOLON)];
    case ExprStmt(e) => PrintedTerminated(e);
    case IfThen(cond, thn) =>
      PrintedCondition(cond);
      PrintedBlock(thn);
      var i := 1 + |PrintCondition(cond)|;
      assert ts[1..i] == PrintCondition(cond) && ts[i..] == PrintBlock(thn);
    case IfElse(cond, thn, els) => PrintedIfElse(s);
    case While(cond, body) =>
      PrintedCondition(cond);
      PrintedBlock(body);
      var i := 1 + |PrintCondition(cond)|;
      assert ts[1..i] == PrintCondition(cond) && ts[i..] == PrintBlock(body);
    case ReturnVoid =>
    case Return(res) =>
      PrintedTerminated(res);
      assert ts[1..] == PrintExpr(0, res) + [Fixed(SEMICOLON)];
  }

  lemma {:induction false} PrintedIfElse(s: Stmt)
    requires s.IfElse? && StmtOk(s)
    ensures StmtText(s, PrintStmt(s))
    decreases s, 0
  {
    hide ExprOk, Condition, BlockText, PrintCondition, PrintBlock, Spelling;
    PrintedCondition(s.cond);
    PrintedBlock(s.thn);
    PrintedBlock(s.els);
    var ts := PrintStmt(s);
    var i := 1 + |PrintCondition(s.cond)|;
    var j := i + |PrintBlock(s.thn)|;
    assert ts[1..i] == PrintCondition(s.cond) && ts[i..j] == PrintBlock(s.thn);
    assert ts[j] == Fixed(ELSE) && ts[j + 1..] == PrintBlock(s.els);
  }

  lemma {:induction false} PrintedBlock(ss: seq<Stmt>)
    requires StmtsOk(ss)
    ensures BlockText(ss, PrintBlock(ss))
    decreases ss, 1
  {
    hide StmtsText, PrintStmts, Spelling;
    PrintedStmts(ss);
    assert Inner(PrintBlock(ss)) == PrintStmts(ss);
  }

  lemma {:induction false} PrintedStmts(ss: seq<Stmt>)
    requires StmtsOk(ss)
    ensures StmtsText(ss, PrintStmts(ss))
    decreases ss, 0
  {
    hide StmtText, PrintStmt, StmtOk;
    if ss != [] {
      PrintedStmt(ss[0]);
      PrintedStmts(ss[1..]);
      StmtTakesTokens(ss[0], PrintStmt(ss[0]));
      var ts, i := PrintStmts(ss), |PrintStmt(ss[0])|;
      assert ts[..i] == PrintStmt(ss[0]) && ts[i..] == PrintStmts(ss[1..]);
    }
  }

  lemma StmtTakesTokens(s: Stmt, ts: seq<Token>)
    requires StmtText(s, ts)
    ensures ts != []
  {
    hide NestedText, BlockText, Condition;
  }

  // ---- Printed functions and programs ----

  lemma {:induction false} PrintedParams(ps: seq<string>)
    ensures ParamsText(ps, PrintParams(ps))
  {
    hide Spelling;
    if |ps| > 1 {
      PrintedParams(ps[1..]);
      assert PrintParams(ps)[2..] == PrintParams(ps[1..]);
    }
  }

  lemma PrintedFunction(f: FunctionDef)
    requires StmtsOk(f.body)
    ensures FunctionText(f, PrintFunction(f)) && PrintFunction(f) != []
  {
    hide BlockText, PrintBlock, ParamsText, PrintParams, StmtsOk, Spelling;
    PrintedParams(f.params);
    PrintedBlock(f.body);
    var ts := PrintFunction(f);
    var params := [Fixed(LPAREN)] + PrintParams(f.params) + [Fixed(RPAREN)];
    var i := 2 + |params|;
    assert ts[2..i] == params && ts[i..] == PrintBlock(f.body) && Inner(params) == PrintParams(f.params);
  }

  lemma {:induction false} PrintedFunctions(fs: seq<FunctionDef>)
    requires forall f :: f in fs ==> StmtsOk(f.body)
    ensures FunctionsText(fs, PrintFunctions(fs))
  {
    hide FunctionText, PrintFunction, StmtsOk;
    if fs != [] {
      PrintedFunction(fs[0]);
      PrintedFunctions(fs[1..]);
      var ts, i := PrintFunctions(fs), |PrintFunction(fs[0])|;
      assert ts[..i] == PrintFunction(fs[0]) && ts[i..] == PrintFunctions(fs[1..]);
    }
  }

  const END := [Token(EOF, "")]

  /** Parsing inverts printing, for every program within the limits of the parser. */
  lemma ProgramReadBack(p: Program)
    requires ProgramOk(p)
    ensures ProgramText(p, PrintProgram(p)) && ParseProgram(PrintProgram(p) + END) == Ok(p)
  {
    hide FunctionsText, PrintFunctions, ParseFunctions;
    PrintedFunctions(p.functions);
    ReadsProgram(p, PrintProgram(p), END[0]);
  }
}
