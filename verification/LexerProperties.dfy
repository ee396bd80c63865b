/** The lexer inverts rendering, and its tokens are what the parser expects. */
module LexerProperties {
  import opened Words
  import opened Ast
  import opened Tokens
  import opened Lexer
  import opened Grammar
  import opened Names
  import opened SourceTexts
  import opened Texts
  import opened OnlyTexts
  import opened ParsePrint
  import opened Accepted

  /** Token texts, each followed by a space. */
  function Render(ts: seq<Token>): string {
    if ts == [] then "" else ts[0].value + " " + Render(ts[1..])
  }

  /** Rendered tokens are one of their texts. */
  lemma {:induction false} RenderedText(ts: seq<Token>, g: string)
    requires (forall i :: 0 <= i < |ts| ==> ValidToken(ts[i])) && g in {"", " "}
    ensures SourceText(ts, g + Render(ts))
  {
    hide ValidToken, Gap;
    BlankOrNothing(g);
    if ts == [] {
      assert g + Render(ts) == g;
    } else {
      var v, rest := ts[0].value, " " + Render(ts[1..]);
      var s := g + Render(ts);
      var j := |g| + |v|;
      RenderedText(ts[1..], " ");
      assert s[..|g|] == g && s[|g|..j] == v && s[j..] == rest;
      TokenStarts(ts[0]);
      assert !Continues(ts[0], s[j]);
      assert TokenAt(ts[0], s, |g|, j);
    }
  }

  lemma BlankOrNothing(g: string)
    requires g in {"", " "}
    ensures Gap(g) && LastGap(g)
  {
    NothingIsGap();
    OneBlank(' ');
  }

  /** Lexing inverts rendering, and ends the list with the one EOF. */
  lemma LexRender(ts: seq<Token>)
    requires forall i :: 0 <= i < |ts| ==> ValidToken(ts[i])
    ensures Lex(Render(ts)) == Ok(ts + END)
  {
    hide SourceText, ValidToken, Lex;
    RenderedText(ts, "");
    assert "" + Render(ts) == Render(ts);
    LexesExactly(Render(ts), ts);
  }

  lemma FirstGives(s: string)
    requires s != "" && First(s).Ok? && First(s).value.token.Some?
    ensures First(s).value.token.value.kind != EOF && GoodToken(First(s).value.token.value)
  {
    hide DigitSpan, WordSpan, LineSpan;
  }

  /** What the lexer makes: one EOF at the end, integers made of digits, names that are identifiers. */
  lemma {:induction false} LexGives(s: string)
    requires Lex(s).Ok?
    ensures var ts := Lex(s).value;
            |ts| > 0 && ts[|ts| - 1].kind == EOF && FromLexer(ts)
            && forall i :: 0 <= i < |ts| - 1 ==> ts[i].kind != EOF
  {
    hide First;
    if s != "" {
      var m := First(s).value;
      if m.token.Some? {
        FirstGives(s);
      }
      LexGives(s[m.length..]);
    }
  }

  // ---- Programs as text ----

  ghost predicate AllValid(ts: seq<Token>) {
    forall i :: 0 <= i < |ts| ==> ValidToken(ts[i])
  }

  lemma FixedValid(k: Kind)
    requires k !in {INT_LIT, IDENT, EOF}
    ensures ValidToken(Fixed(k))
  {
  }

  lemma {:induction false} ExprTokensValid(level: nat, e: Expr)
    requires ExprNames(e) && Writable(e)
    ensures AllValid(PrintExpr(level, e))
    decreases e, if LevelOf(e) < level then 2 else 1
  {
    hide Spelling, IsIdentifier, OpLevel, Decimal;
    if LevelOf(e) < level {
      ExprTokensValid(0, e);
      FixedValid(LPAREN);
      FixedValid(RPAREN);
    } else {
      match e
      case BoolLit(b) => FixedValid(if b then TRUE else FALSE);
      case Binary(op, left, right) =>
        ExprTokensValid(OpLevel(op), left);
        ExprTokensValid(OpLevel(op) + 1, right);
        BinKindValid(op);
      case Unary(op, operand) =>
        ExprTokensValid(UNARY, operand);
        FixedValid(UnKind(op));
      case Call(_, args) =>
        ArgsTokensValid(args);
        FixedValid(LPAREN);
        FixedValid(RPAREN);
      case _ =>
    }
  }

  lemma BinKindValid(op: BinOp)
    ensures ValidToken(Fixed(BinKind(op)))
  {
    FixedValid(BinKind(op));
  }

  lemma {:induction false} ArgsTokensValid(es: seq<Expr>)
    requires ExprsNames(es) && AllWritable(es)
    ensures AllValid(PrintArgs(es))
    decreases es, 0
  {
    hide Spelling, ValidToken, PrintExpr;
    if es != [] {
      ExprTokensValid(0, es[0]);
      ArgsTokensValid(es[1..]);
      FixedValid(COMMA);
    }
  }

  lemma {:induction false} StmtTokensValid(s: Stmt)
    requires StmtNames(s) && StmtOk(s)
    ensures AllValid(PrintStmt(s))
    decreases s, 2
  {
    hide Spelling, PrintExpr, Nesting, IsIdentifier, PrintBlock;
    FixedValid(LET);
    FixedValid(EQ);
    FixedValid(SEMICOLON);
    FixedValid(IF);
    FixedValid(ELSE);
    FixedValid(WHILE);
    FixedValid(RETURN);
    match s
    case VarDecl(_, init) => ExprTokensValid(0, init);
    case Assign(_, val) => ExprTokensValid(0, val);
    case ExprStmt(e) => ExprTokensValid(0, e);
    case IfThen(cond, thn) =>
      ConditionTokensValid(cond);
      BlockTokensValid(thn);
    case IfElse(cond, thn, els) =>
      ConditionTokensValid(cond);
      BlockTokensValid(thn);
      BlockTokensValid(els);
    case While(cond, body) =>
      ConditionTokensValid(cond);
      BlockTokensValid(body);
    case ReturnVoid =>
    case Return(res) => ExprTokensValid(0, res);
  }

  lemma ConditionTokensValid(e: Expr)
    requires ExprNames(e) && Writable(e)
    ensures AllValid(PrintCondition(e))
  {
    hide Spelling, PrintExpr, ValidToken;
    FixedValid(LPAREN);
    FixedValid(RPAREN);
    ExprTokensValid(0, e);
  }

  lemma {:induction false} BlockTokensValid(ss: seq<Stmt>)
    requires StmtsNames(ss) && StmtsOk(ss)
    ensures AllValid(PrintBlock(ss))
    decreases ss, 1
  {
    hide Spelling, PrintStmts, ValidToken;
    FixedValid(LBRACE);
    FixedValid(RBRACE);
    StmtsTokensValid(ss);
  }

  lemma {:induction false} StmtsTokensValid(ss: seq<Stmt>)
    requires StmtsNames(ss) && StmtsOk(ss)
    ensures AllValid(PrintStmts(ss))
    decreases ss, 0
  {
    hide PrintStmt, ValidToken, StmtNames, StmtOk;
    if ss != [] {
      StmtTokensValid(ss[0]);
      StmtsTokensValid(ss[1..]);
    }
  }

  lemma {:induction false} ParamsTokensValid(ps: seq<string>)
    requires forall i :: 0 <= i < |ps| ==> IsIdentifier(ps[i])
    ensures AllValid(PrintParams(ps))
  {
    hide Spelling, IsIdentifier;
    if ps != [] {
      ParamsTokensValid(ps[1..]);
      FixedValid(COMMA);
    }
  }

  lemma FunctionTokensValid(f: FunctionDef)
    requires IsIdentifier(f.name) && (forall i :: 0 <= i < |f.params| ==> IsIdentifier(f.params[i]))
    requires StmtsNames(f.body) && StmtsOk(f.body)
    ensures AllValid(PrintFunction(f))
  {
    hide Spelling, IsIdentifier, PrintBlock, PrintParams;
    FixedValid(FN);
    FixedValid(LPAREN);
    FixedValid(RPAREN);
    ParamsTokensValid(f.params);
    BlockTokensValid(f.body);
  }

  lemma {:induction false} FunctionsTokensValid(fs: seq<FunctionDef>)
    requires ProgramNames(Program(fs)) && ProgramOk(Program(fs))
    ensures AllValid(PrintFunctions(fs))
  {
    hide PrintFunction, ValidToken, IsIdentifier, StmtsNames, StmtsOk;
    if fs != [] {
      assert fs[0] in fs;
      FunctionTokensValid(fs[0]);
      FunctionsTokensValid(fs[1..]);
    }
  }

  datatype SourceError = Lexing(e: LexError) | Parsing(p: ParseError)

  /** Tokenize, then parse. */
  function ParseSource(source: string): Result<Program, SourceError> {
    match Lex(source)
    case Err(e) => Err(Lexing(e))
    case Ok(ts) =>
      match ParseProgram(ts)
      case Err(e) => Err(Parsing(e))
      case Ok(p) => Ok(p)
  }

  /** The text of a program, as few parentheses as possible. */
  function SourceOf(p: Program): string {
    Render(PrintProgram(p))
  }

  /** Tokenizing and parsing the text of a program gives the program back. */
  lemma SourceReadBack(p: Program)
    requires ProgramOk(p) && ProgramNames(p)
    ensures ParseSource(SourceOf(p)) == Ok(p)
  {
    hide ParseProgram, Lex, Render, ValidToken;
    FunctionsTokensValid(p.functions);
    LexRender(PrintProgram(p));
    ProgramReadBack(p);
  }

  /** Parse, print, parse is parse: every accepted source text, printed afresh, is read as the same program. */
  lemma AcceptedSource(source: string)
    requires ParseSource(source).Ok?
    ensures ParseSource(SourceOf(ParseSource(source).value)) == ParseSource(source)
  {
    hide ParseProgram, Lex, Render, ProgramNames, ProgramOk;
    LexGives(source);
    ParsePrintParse(Lex(source).value);
    SourceReadBack(ParseSource(source).value);
  }

  lemma {:induction false} LexEndsWithEof(s: string)
    requires Lex(s).Ok?
    ensures var ts := Lex(s).value; |ts| > 0 && ts[|ts| - 1] == Token(EOF, "")
  {
    hide First;
    if s != "" {
      LexEndsWithEof(s[First(s).value.length..]);
    }
  }

  lemma ValidIsNoEof(t: Token)
    requires ValidToken(t)
    ensures t.kind != EOF
  {
  }

  lemma {:induction false} SourceHasNoEof(ts: seq<Token>, s: string)
    requires SourceText(ts, s)
    ensures forall i :: 0 <= i < |ts| ==> ts[i].kind != EOF
    decreases |ts|
  {
    hide ValidToken, Gap, Continues;
    if ts != [] {
      var i, j :| 0 <= i < j <= |s| && TokenAt(ts[0], s, i, j) && SourceText(ts[1..], s[j..]);
      ValidIsNoEof(ts[0]);
      SourceHasNoEof(ts[1..], s[j..]);
    }
  }

  /**
   Front end: a source text is accepted as the program p exactly when it spells, with any blanks and comments, tokens
   that are a text of p, with any parentheses.
   */
  lemma SourceParsesExactly(source: string, p: Program)
    ensures ParseSource(source) == Ok(p) <==> exists ts :: SourceText(ts, source) && ProgramText(p, ts)
  {
    hide Lex, SourceText, ProgramText, ParseProgram;
    if ParseSource(source) == Ok(p) {
      LexEndsWithEof(source);
      var all := Lex(source).value;
      var ts := all[..|all| - 1];
      assert all == ts + END;
      LexesExactly(source, ts);
      SourceHasNoEof(ts, source);
      ParsesExactly(p, ts, END[0]);
    }
    if exists ts :: SourceText(ts, source) && ProgramText(p, ts) {
      var ts :| SourceText(ts, source) && ProgramText(p, ts);
      LexesExactly(source, ts);
      SourceHasNoEof(ts, source);
      ParsesExactly(p, ts, END[0]);
    }
  }
}
