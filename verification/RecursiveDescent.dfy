/** The recursive-descent parser as the compiler has it: a position in the token list and a depth counter. */
module RecursiveDescent {
  import opened Words
  import opened Ast
  import opened Tokens
  import opened Grammar

  /** The method returned what the specification says, and stands where it says. */
  ghost predicate Did<T>(spec: Parsed<T>, r: Result<T, ParseError>, rest: seq<Token>) {
    match spec
    case Ok(step) => r == Ok(step.node) && rest == step.rest
    case Err(e) => r == Err(e)
  }

  /** The depth counter is left one too high by the error that reports too deep nesting, and by no other. */
  function Overshoot<T>(r: Result<T, ParseError>): nat {
    if r.Err? && r.error == TooDeep then 1 else 0
  }

  class Parser {
    const tokens: seq<Token>
    var pos: nat
    var exprDepth: nat

    /** The position is always on a token, because nothing moves past an EOF. */
    ghost predicate Valid()
      reads this`pos
    {
      pos < |tokens| && tokens[|tokens| - 1].kind == EOF
    }

    ghost function Rest(): (ts: seq<Token>)
      requires Valid()
      reads this`pos
      ensures ts != [] && ts[|ts| - 1].kind == EOF && |ts| == |tokens| - pos
    {
      tokens[pos..]
    }

    constructor (tokens: seq<Token>)
      requires tokens != [] && tokens[|tokens| - 1].kind == EOF
      ensures Valid() && Rest() == tokens && exprDepth == 0
    {
      this.tokens, pos, exprDepth := tokens, 0, 0;
    }

    method PeekKind() returns (k: Kind)
      requires Valid()
      ensures k == Peek(Rest()) == Rest()[0].kind
    {
      k := tokens[pos].kind;
    }

    method Advance() returns (t: Token)
      requires Valid() && Peek(Rest()) != EOF
      modifies this`pos
      ensures Valid() && old(Rest()) == [t] + Rest() && Rest() == old(Rest())[1..]
    {
      t := tokens[pos];
      pos := pos + 1;
    }

    method ExpectKind(k: Kind) returns (r: Result<string, ParseError>)
      requires Valid() && k != EOF
      modifies this`pos
      ensures Valid() && Did(Expect(old(Rest()), k), r, Rest()) && Overshoot(r) == 0
    {
      if tokens[pos].kind != k {
        return Err(Expected(k));
      }
      var t := Advance();
      return Ok(t.value);
    }

    /** Consumes a token of the kind if it is next. */
    method Match(k: Kind) returns (found: bool)
      requires Valid() && k != EOF
      modifies this`pos
      ensures Valid() && found == (Peek(old(Rest())) == k)
      ensures Rest() == if found then old(Rest())[1..] else old(Rest())
    {
      found := tokens[pos].kind == k;
      if found {
        var _ := Advance();
      }
    }

    // ---- Expressions ----

    method Expression() returns (r: Result<Expr, ParseError>)
      requires Valid()
      modifies this
      ensures Valid() && exprDepth == old(exprDepth) + Overshoot(r)
      ensures Did(ParseExpression(old(Rest()), old(exprDepth)), r, Rest())
      decreases |tokens| - pos, 9
    {
      hide Rest, Consumes;
      exprDepth := exprDepth + 1;
      if exprDepth > MAX_EXPR_DEPTH {
        return Err(TooDeep);
      }
      r := Level(0);
      exprDepth := exprDepth - 1;
    }

    /** One precedence level; || is level 0 and * level 5. */
    method Level(level: nat) returns (r: Result<Expr, ParseError>)
      requires Valid() && level <= UNARY
      modifies this
      ensures Valid() && exprDepth == old(exprDepth) + Overshoot(r)
      ensures Did(ParseLevel(level, old(Rest()), old(exprDepth)), r, Rest())
      decreases |tokens| - pos, 8 - level
    {
      hide Rest, Consumes, ParseUnary, BinOpAt;
      if level == UNARY {
        r := UnaryExpr();
        return;
      }
      r := Level(level + 1);
      if r.Err? {
        return;
      }
      var left := r.value;
      var k := PeekKind();
      while BinOpAt(level, k).Some?
        invariant Valid() && exprDepth == old(exprDepth) && k == Peek(Rest()) && pos > old(pos)
        invariant ParseLevel(level, old(Rest()), exprDepth) == ParseTail(level, left, Rest(), exprDepth)
        decreases |tokens| - pos
      {
        NotEof(level, k);
        var op := BinOpAt(level, k).value;
        var _ := Advance();
        r := Level(level + 1);
        if r.Err? {
          return;
        }
        left := Binary(op, left, r.value);
        k := PeekKind();
      }
      return Ok(left);
    }

    lemma NotEof(level: nat, k: Kind)
      requires BinOpAt(level, k).Some?
      ensures k != EOF
    {
    }

    method UnaryExpr() returns (r: Result<Expr, ParseError>)
      requires Valid()
      modifies this
      ensures Valid() && exprDepth == old(exprDepth) + Overshoot(r)
      ensures Did(ParseUnary(old(Rest()), old(exprDepth)), r, Rest())
      decreases |tokens| - pos, 1
    {
      hide Rest, Consumes, ParsePrimary;
      var k := PeekKind();
      match UnOpOf(k)
      case None =>
        r := Primary();
      case Some(op) =>
        var _ := Advance();
        r := UnaryExpr();
        if r.Ok? {
          r := Ok(Unary(op, r.value));
        }
    }

    method Primary() returns (r: Result<Expr, ParseError>)
      requires Valid()
      modifies this
      ensures Valid() && exprDepth == old(exprDepth) + Overshoot(r)
      ensures Did(ParsePrimary(old(Rest()), old(exprDepth)), r, Rest())
      decreases |tokens| - pos, 0
    {
      hide Rest, Consumes, ParseExpression, ParseArgs;
      var k := PeekKind();
      match k
      case INT_LIT =>
        var tok := Advance();
        var val := DigitsValue(tok.value);
        return if val > 2147483647 || val < -2147483648 then Err(IntRange) else Ok(IntLit(val));
      case TRUE =>
        var _ := Advance();
        return Ok(BoolLit(true));
      case FALSE =>
        var _ := Advance();
        return Ok(BoolLit(false));
      case IDENT =>
        var tok := Advance();
        var open := Match(LPAREN);
        if !open {
          return Ok(Var(tok.value));
        }
        var args := Arguments();
        if args.Err? {
          return Err(args.error);
        }
        var close := ExpectKind(RPAREN);
        return if close.Err? then Err(close.error) else Ok(Call(tok.value, args.value));
      case LPAREN =>
        var _ := Advance();
        r := Expression();
        if r.Ok? {
          var close := ExpectKind(RPAREN);
          if close.Err? {
            r := Err(close.error);
          }
        }
      case _ =>
        return Err(Unexpected(k));
    }

    method Arguments() returns (r: Result<seq<Expr>, ParseError>)
      requires Valid()
      modifies this
      ensures Valid() && exprDepth == old(exprDepth) + Overshoot(r)
      ensures Did(ParseArgs(old(Rest()), old(exprDepth)), r, Rest())
      decreases |tokens| - pos, 11
    {
      hide Rest, Consumes, ParseExpression;
      var k := PeekKind();
      if k == RPAREN {
        return Ok([]);
      }
      var e := Expression();
      if e.Err? {
        return Err(e.error);
      }
      var args := [e.value];
      ghost var spec := ParseArgList(old(Rest()), exprDepth);
      var more := Match(COMMA);
      while more
        invariant Valid() && exprDepth == old(exprDepth) && pos > old(pos)
        invariant more ==> spec == Joined(args, ParseArgList(Rest(), exprDepth))
        invariant !more ==> spec == Ok(Step(args, Rest()))
        decreases |tokens| - pos, more
      {
        e := Expression();
        if e.Err? {
          return Err(e.error);
        }
        if Peek(Rest()) == COMMA {
          JoinedMore(args, e.value, ParseArgList(Rest()[1..], exprDepth));
        }
        args := args + [e.value];
        more := Match(COMMA);
      }
      return Ok(args);
    }

    /** A list that is done, in front of the rest of it. */
    static ghost function Joined<T>(done: seq<T>, rest: Parsed<seq<T>>): Parsed<seq<T>> {
      match rest
      case Ok(step) => Ok(Step(done + step.node, step.rest))
      case Err(e) => Err(e)
    }

    static lemma JoinedMore<T>(done: seq<T>, x: T, rest: Parsed<seq<T>>)
      ensures Joined(done, Joined([x], rest)) == Joined(done + [x], rest)
    {
      if rest.Ok? {
        assert done + ([x] + rest.value.node) == (done + [x]) + rest.value.node;
      }
    }

    // ---- Statements ----

    method Statement() returns (r: Result<Stmt, ParseError>)
      requires Valid() && exprDepth == 0
      modifies this
      ensures Valid() && exprDepth == Overshoot(r) && Did(ParseStatement(old(Rest())), r, Rest())
      decreases |tokens| - pos, 4
    {
      hide Rest, Consumes, ParseIf, ParseWhile, ParseVarDecl, ParseReturn, ParseAssignment, ParseExprStmt;
      var k := PeekKind();
      if k == LET {
        r := VarDeclStmt();
      } else if k == IF {
        r := IfStmt();
      } else if k == WHILE {
        r := WhileStmt();
      } else if k == RETURN {
        r := ReturnStmt();
      } else {
        var assignment := LooksLikeAssignment();
        if k == IDENT && assignment {
          r := AssignmentStmt();
        } else {
          r := ExpressionStmt();
        }
      }
    }

    method LooksLikeAssignment() returns (b: bool)
      requires Valid()
      ensures b == IsAssignment(Rest())
    {
      if pos + 1 >= |tokens| {
        return false;
      }
      return tokens[pos + 1].kind == EQ && (pos + 2 >= |tokens| || tokens[pos + 2].kind != EQ);
    }

    method Terminated() returns (r: Result<Expr, ParseError>)
      requires Valid() && exprDepth == 0
      modifies this
      ensures Valid() && exprDepth == Overshoot(r) && Did(ParseTerminated(old(Rest())), r, Rest())
    {
      hide Rest, Consumes, ParseExpression, Expect;
      r := Expression();
      if r.Ok? {
        var end := ExpectKind(SEMICOLON);
        if end.Err? {
          r := Err(end.error);
        }
      }
    }

    method VarDeclStmt() returns (r: Result<Stmt, ParseError>)
      requires Valid() && exprDepth == 0
      modifies this
      ensures Valid() && exprDepth == Overshoot(r) && Did(ParseVarDecl(old(Rest())), r, Rest())
    {
      hide Rest, Consumes, ParseTerminated, Expect;
      var let_ := ExpectKind(LET);
      if let_.Err? {
        return Err(let_.error);
      }
      var name := ExpectKind(IDENT);
      if name.Err? {
        return Err(name.error);
      }
      var eq := ExpectKind(EQ);
      if eq.Err? {
        return Err(eq.error);
      }
      var init := Terminated();
      return if init.Err? then Err(init.error) else Ok(VarDecl(name.value, init.value));
    }

    method AssignmentStmt() returns (r: Result<Stmt, ParseError>)
      requires Valid() && exprDepth == 0
      modifies this
      ensures Valid() && exprDepth == Overshoot(r) && Did(ParseAssignment(old(Rest())), r, Rest())
    {
      hide Rest, Consumes, ParseTerminated, Expect;
      var name := ExpectKind(IDENT);
      if name.Err? {
        return Err(name.error);
      }
      var eq := ExpectKind(EQ);
      if eq.Err? {
        return Err(eq.error);
      }
      var val := Terminated();
      return if val.Err? then Err(val.error) else Ok(Assign(name.value, val.value));
    }

    method ReturnStmt() returns (r: Result<Stmt, ParseError>)
      requires Valid() && exprDepth == 0
      modifies this
      ensures Valid() && exprDepth == Overshoot(r) && Did(ParseReturn(old(Rest())), r, Rest())
    {
      hide Rest, Consumes, ParseTerminated, Expect;
      var return_ := ExpectKind(RETURN);
      if return_.Err? {
        return Err(return_.error);
      }
      var bare := Match(SEMICOLON);
      if bare {
        return Ok(ReturnVoid);
      }
      var e := Terminated();
      return if e.Err? then Err(e.error) else Ok(Return(e.value));
    }

    method ExpressionStmt() returns (r: Result<Stmt, ParseError>)
      requires Valid() && exprDepth == 0
      modifies this
      ensures Valid() && exprDepth == Overshoot(r) && Did(ParseExprStmt(old(Rest())), r, Rest())
    {
      hide Rest, Consumes, ParseTerminated;
      var e := Terminated();
      return if e.Err? then Err(e.error) else Ok(ExprStmt(e.value));
    }

    method Condition() returns (r: Result<Expr, ParseError>)
      requires Valid() && exprDepth == 0
      modifies this
      ensures Valid() && exprDepth == Overshoot(r) && Did(ParseCondition(old(Rest())), r, Rest())
    {
      hide Rest, Consumes, ParseExpression, Expect;
      var open := ExpectKind(LPAREN);
      if open.Err? {
        return Err(open.error);
      }
      r := Expression();
      if r.Ok? {
        var close := ExpectKind(RPAREN);
        if close.Err? {
          r := Err(close.error);
        }
      }
    }

    method IfStmt() returns (r: Result<Stmt, ParseError>)
      requires Valid() && exprDepth == 0
      modifies this
      ensures Valid() && exprDepth == Overshoot(r) && Did(ParseIf(old(Rest())), r, Rest())
      decreases |tokens| - pos, 3
    {
      hide Rest, Consumes, ParseCondition, ParseBlock, Expect;
      var if_ := ExpectKind(IF);
      if if_.Err? {
        return Err(if_.error);
      }
      var cond := Condition();
      if cond.Err? {
        return Err(cond.error);
      }
      var thn := Block();
      if thn.Err? {
        return Err(thn.error);
      }
      var hasElse := Match(ELSE);
      if !hasElse {
        return Ok(IfThen(cond.value, thn.value));
      }
      var els := Block();
      return if els.Err? then Err(els.error) else Ok(IfElse(cond.value, thn.value, els.value));
    }

    method WhileStmt() returns (r: Result<Stmt, ParseError>)
      requires Valid() && exprDepth == 0
      modifies this
      ensures Valid() && exprDepth == Overshoot(r) && Did(ParseWhile(old(Rest())), r, Rest())
      decreases |tokens| - pos, 3
    {
      hide Rest, Consumes, ParseCondition, ParseBlock, Expect;
      var while_ := ExpectKind(WHILE);
      if while_.Err? {
        return Err(while_.error);
      }
      var cond := Condition();
      if cond.Err? {
        return Err(cond.error);
      }
      var body := Block();
      return if body.Err? then Err(body.error) else Ok(While(cond.value, body.value));
    }

    method Block() returns (r: Result<seq<Stmt>, ParseError>)
      requires Valid() && exprDepth == 0
      modifies this
      ensures Valid() && exprDepth == Overshoot(r) && Did(ParseBlock(old(Rest())), r, Rest())
      decreases |tokens| - pos, 2
    {
      hide Rest, Consumes, ParseStatement, Expect;
      var open := ExpectKind(LBRACE);
      if open.Err? {
        return Err(open.error);
      }
      ghost var spec := ParseStatements(Rest());
      var stmts: seq<Stmt> := [];
      var k := PeekKind();
      JoinedNone(spec);
      while k != RBRACE
        invariant Valid() && exprDepth == 0 && k == Peek(Rest()) && pos > old(pos)
        invariant spec == Joined(stmts, ParseStatements(Rest()))
        decreases |tokens| - pos
      {
        var s := Statement();
        if s.Err? {
          return Err(s.error);
        }
        JoinedMore(stmts, s.value, ParseStatements(Rest()));
        stmts := stmts + [s.value];
        k := PeekKind();
      }
      assert stmts + [] == stmts;
      var close := ExpectKind(RBRACE);
      return if close.Err? then Err(close.error) else Ok(stmts);
    }

    static lemma JoinedNone<T>(rest: Parsed<seq<T>>)
      ensures Joined([], rest) == rest
    {
      if rest.Ok? {
        assert [] + rest.value.node == rest.value.node;
      }
    }

    // ---- Functions and programs ----

    method Parameters() returns (r: Result<seq<string>, ParseError>)
      requires Valid()
      modifies this`pos
      ensures Valid() && Did(ParseParams(old(Rest())), r, Rest()) && Overshoot(r) == 0
    {
      hide Rest, Consumes, Expect;
      var k := PeekKind();
      if k == RPAREN {
        return Ok([]);
      }
      var name := ExpectKind(IDENT);
      if name.Err? {
        return Err(name.error);
      }
      var params := [name.value];
      ghost var spec := ParseParamList(old(Rest()));
      var more := Match(COMMA);
      while more
        invariant Valid()
        invariant more ==> spec == Joined(params, ParseParamList(Rest()))
        invariant !more ==> spec == Ok(Step(params, Rest()))
        decreases |tokens| - pos, more
      {
        name := ExpectKind(IDENT);
        if name.Err? {
          return Err(name.error);
        }
        if Peek(Rest()) == COMMA {
          JoinedMore(params, name.value, ParseParamList(Rest()[1..]));
        }
        params := params + [name.value];
        more := Match(COMMA);
      }
      return Ok(params);
    }

    method Header() returns (r: Result<string, ParseError>)
      requires Valid()
      modifies this`pos
      ensures Valid() && Did(ParseHeader(old(Rest())), r, Rest()) && Overshoot(r) == 0
    {
      hide Rest, Consumes, Expect;
      r := ExpectKind(FN);
      if r.Err? {
        return;
      }
      r := ExpectKind(IDENT);
      if r.Err? {
        return;
      }
      var open := ExpectKind(LPAREN);
      if open.Err? {
        r := open;
      }
    }

    method Function() returns (r: Result<FunctionDef, ParseError>)
      requires Valid() && exprDepth == 0
      modifies this
      ensures Valid() && exprDepth == Overshoot(r) && Did(ParseFunction(old(Rest())), r, Rest())
    {
      hide Rest, Consumes, ParseHeader, ParseParams, ParseBlock, Expect;
      var name := Header();
      if name.Err? {
        return Err(name.error);
      }
      var params := Parameters();
      if params.Err? {
        return Err(params.error);
      }
      var close := ExpectKind(RPAREN);
      if close.Err? {
        return Err(close.error);
      }
      var body := Block();
      return if body.Err? then Err(body.error) else Ok(FunctionDef(name.value, params.value, body.value));
    }

    /** Parses a whole program; on any EOF-terminated list it ends in a program or an error. */
    method Parse() returns (r: Result<Program, ParseError>)
      requires Valid() && exprDepth == 0
      modifies this
      ensures Valid() && r == ParseProgram(old(Rest()))
    {
      hide Rest, Consumes, ParseFunction;
      var functions: seq<FunctionDef> := [];
      ghost var spec := ParseFunctions(Rest());
      ghost var more := spec;
      assert more.Ok? ==> [] + more.value == more.value;
      var k := PeekKind();
      while k != EOF
        invariant Valid() && exprDepth == 0 && k == Peek(Rest()) && more == ParseFunctions(Rest())
        invariant spec == match more case Ok(fs) => Ok(functions + fs) case Err(e) => Err(e)
        decreases |tokens| - pos
      {
        var f := Function();
        if f.Err? {
          return Err(f.error);
        }
        more := ParseFunctions(Rest());
        if more.Ok? {
          assert functions + ([f.value] + more.value) == (functions + [f.value]) + more.value;
        }
        functions := functions + [f.value];
        k := PeekKind();
      }
      assert functions + [] == functions;
      return Ok(Program(functions));
    }
  }
}
