/** Which source texts spell which tokens: the lexer decides this relation, with blanks and comments anywhere. */
module SourceTexts {
  import opened Words
  import opened Tokens
  import opened Lexer
  import opened Names

  /** A token that stands for itself in source text. */
  ghost predicate ValidToken(t: Token) {
    match t.kind
    case INT_LIT => t.value != "" && forall i :: 0 <= i < |t.value| ==> '0' <= t.value[i] <= '9'
    case IDENT => IsIdentifier(t.value)
    case EOF => false
    case k => t.value == Spelling(k)
  }

  /** A word: an identifier or a keyword. */
  predicate IsWord(t: Token) {
    t.kind in {TRUE, FALSE, IDENT, FN, LET, IF, ELSE, WHILE, RETURN}
  }

  /** A comment, without the end of its line. */
  ghost predicate Comment(c: string) {
    |c| >= 2 && c[0] == '/' && c[1] == '/' && forall i :: 0 <= i < |c| ==> c[i] != '\n'
  }

  /** Blanks, newlines and comments with their newlines, in any mix. */
  ghost predicate Gap(g: string) {
    || g == ""
    || (g[0] in {' ', '\t', '\r', '\n'} && Gap(g[1..]))
    || exists k | 2 <= k < |g| :: Comment(g[..k]) && g[k] == '\n' && Gap(g[k + 1..])
  }

  /** A gap that may end in a comment without a newline. */
  ghost predicate LastGap(g: string) {
    Gap(g) || exists k | 0 <= k <= |g| :: Gap(g[..k]) && Comment(g[k..])
  }

  /** Whether a character right behind the token would belong to it, or make something else of it. */
  predicate Continues(t: Token, c: char) {
    if t.kind == INT_LIT then '0' <= c <= '9'
    else if IsWord(t) then 'a' <= c <= 'z' || 'A' <= c <= 'Z' || c == '_' || '0' <= c <= '9'
    else if t.kind in {EQ, BANG, LT, GT} then c == '='
    else t.kind == SLASH && c == '/'
  }

  /** Behind a gap, the token from i to j. */
  ghost predicate TokenAt(t: Token, s: string, i: nat, j: nat) {
    && i < j <= |s| && Gap(s[..i]) && ValidToken(t) && s[i..j] == t.value
    && (j < |s| ==> !Continues(t, s[j]))
  }

  /** The text s spells the tokens ts. */
  ghost predicate SourceText(ts: seq<Token>, s: string)
    decreases |ts|
  {
    if ts == [] then LastGap(s)
    else exists i, j | 0 <= i < j <= |s| :: TokenAt(ts[0], s, i, j) && SourceText(ts[1..], s[j..])
  }

  // ---- Skipping gaps ----

  lemma {:induction false} LineIs(c: string, rest: string)
    requires forall i :: 0 <= i < |c| ==> c[i] != '\n'
    requires rest != "" ==> rest[0] == '\n'
    ensures LineSpan(c + rest) == |c|
  {
    if c == "" {
      assert c + rest == rest;
    } else {
      assert (c + rest)[1..] == c[1..] + rest;
      LineIs(c[1..], rest);
    }
  }

  lemma CommentIsSkipped(c: string, rest: string)
    requires Comment(c) && (rest != "" ==> rest[0] == '\n')
    ensures Lex(c + rest) == Lex(rest)
  {
    hide LineSpan, DigitSpan, WordSpan;
    var s := c + rest;
    LineIs(c, rest);
    assert s[0] == '/' && s[1] == '/' && s[|c|..] == rest;
    assert First(s) == Ok(Munch(None, |c|));
  }

  lemma BlankIsSkipped(c: char, rest: string)
    requires c in {' ', '\t', '\r', '\n'}
    ensures Lex([c] + rest) == Lex(rest)
  {
    assert ([c] + rest)[1..] == rest;
  }

  lemma SplitText(g: string, k: nat, s: string)
    requires k < |g|
    ensures g + s == g[..k] + ([g[k]] + (g[k + 1..] + s))
  {
    assert g == g[..k] + ([g[k]] + g[k + 1..]);
  }

  lemma {:induction false} GapIsSkipped(g: string, s: string)
    requires Gap(g)
    ensures Lex(g + s) == Lex(s)
    decreases |g|
  {
    hide Lex, Comment;
    if g == "" {
      assert g + s == s;
    } else if g[0] in {' ', '\t', '\r', '\n'} && Gap(g[1..]) {
      assert g + s == [g[0]] + (g[1..] + s);
      BlankIsSkipped(g[0], g[1..] + s);
      GapIsSkipped(g[1..], s);
    } else {
      var k :| 2 <= k < |g| && Comment(g[..k]) && g[k] == '\n' && Gap(g[k + 1..]);
      SplitText(g, k, s);
      CommentIsSkipped(g[..k], [g[k]] + (g[k + 1..] + s));
      BlankIsSkipped(g[k], g[k + 1..] + s);
      GapIsSkipped(g[k + 1..], s);
    }
  }

  /** A comment ends with its line: what follows the newline is read as if it stood alone. */
  lemma CommentEndsWithLine(c: string, s: string)
    requires forall i :: 0 <= i < |c| ==> c[i] != '\n'
    ensures Lex("//" + c + "\n" + s) == Lex(s)
    ensures Lex("//" + c) == Ok([Token(EOF, "")])
  {
    hide Lex;
    var comment := "//" + c;
    CommentIsSkipped(comment, "\n" + s);
    assert comment + "\n" + s == comment + ("\n" + s);
    BlankIsSkipped('\n', s);
    CommentIsSkipped(comment, "");
    assert comment + "" == comment;
    LexNothing();
  }

  lemma LexNothing()
    ensures Lex("") == Ok([Token(EOF, "")])
  {
  }

  lemma LastGapIsSkipped(g: string)
    requires LastGap(g)
    ensures Lex(g) == Ok([Token(EOF, "")])
  {
    hide Lex, Gap, Comment;
    LexNothing();
    if Gap(g) {
      GapIsSkipped(g, "");
      assert g + "" == g;
    } else {
      var k :| 0 <= k <= |g| && Gap(g[..k]) && Comment(g[k..]);
      assert g == g[..k] + g[k..] && g[k..] + "" == g[k..];
      GapIsSkipped(g[..k], g[k..]);
      CommentIsSkipped(g[k..], "");
    }
  }

  // ---- Taking a token ----

  lemma {:induction false} DigitSpanIs(v: string, rest: string)
    requires (forall i :: 0 <= i < |v| ==> IsDigit(v[i])) && (rest != "" ==> !IsDigit(rest[0]))
    ensures DigitSpan(v + rest) == |v|
  {
    if v == "" {
      assert v + rest == rest;
    } else {
      assert (v + rest)[1..] == v[1..] + rest;
      DigitSpanIs(v[1..], rest);
    }
  }

  lemma {:induction false} WordSpanIs(v: string, rest: string)
    requires (forall i :: 0 <= i < |v| ==> IsWordChar(v[i])) && (rest != "" ==> !IsWordChar(rest[0]))
    ensures WordSpan(v + rest) == |v|
  {
    if v == "" {
      assert v + rest == rest;
    } else {
      assert (v + rest)[1..] == v[1..] + rest;
      WordSpanIs(v[1..], rest);
    }
  }

  lemma WordIs(t: Token)
    requires ValidToken(t) && IsWord(t)
    ensures t.value != "" && IsAlpha(t.value[0]) && (forall i :: 0 <= i < |t.value| ==> IsWordChar(t.value[i]))
    ensures KeywordOf(t.value) == t.kind
  {
  }

  lemma OpIs(t: Token)
    requires ValidToken(t) && !IsWord(t) && t.kind != INT_LIT
    ensures 1 <= |t.value| <= 2 && !IsBlank(t.value[0]) && !IsDigit(t.value[0]) && !IsAlpha(t.value[0])
    ensures |t.value| == 2 ==> TwoCharOp(t.value[0], t.value[1]) == Some(t.kind) && t.value[0] != '/'
    ensures |t.value| == 1 ==> SingleOp(t.value[0]) == Some(t.kind)
  {
  }

  /** A one-character operator is not taken for a longer one or a comment unless the next character continues it. */
  lemma NoLongerOp(t: Token, c: char)
    requires ValidToken(t) && !IsWord(t) && t.kind != INT_LIT && |t.value| == 1 && !Continues(t, c)
    ensures TwoCharOp(t.value[0], c) == None && !(t.value[0] == '/' && c == '/')
  {
  }

  lemma TokenStarts(t: Token)
    requires ValidToken(t)
    ensures t.value != "" && t.value[0] !in {' ', '\t', '\r', '\n'}
  {
    hide Spelling;
    if t.kind != INT_LIT {
      if IsWord(t) {
        WordIs(t);
      } else {
        OpIs(t);
      }
    }
  }

  /** The lexer takes exactly the token when nothing continues it. */
  lemma FirstIs(t: Token, rest: string)
    requires ValidToken(t) && (rest != "" ==> !Continues(t, rest[0]))
    ensures |t.value| > 0 && First(t.value + rest) == Ok(Munch(Some(t), |t.value|))
  {
    hide DigitSpan, WordSpan, KeywordOf, TwoCharOp, SingleOp, Spelling, LineSpan;
    var s := t.value + rest;
    assert s[..|t.value|] == t.value;
    if t.kind == INT_LIT {
      DigitSpanIs(t.value, rest);
      assert s[0] == t.value[0];
    } else if IsWord(t) {
      WordIs(t);
      WordSpanIs(t.value, rest);
      assert s[0] == t.value[0];
    } else {
      OpIs(t);
      assert s[0] == t.value[0];
      if |t.value| == 1 && rest != "" {
        assert s[1] == rest[0];
        NoLongerOp(t, rest[0]);
      } else if |t.value| == 2 {
        assert s[1] == t.value[1];
      }
    }
  }

  lemma TokenIsTaken(t: Token, s: string, i: nat, j: nat)
    requires TokenAt(t, s, i, j) && Lex(s[j..]).Ok?
    ensures Lex(s) == Ok([t] + Lex(s[j..]).value)
  {
    hide First, ValidToken, Gap, Continues;
    var v, rest := t.value, s[j..];
    assert s == s[..i] + (v + rest);
    GapIsSkipped(s[..i], v + rest);
    FirstIs(t, rest);
    assert (v + rest)[|v|..] == rest;
  }

  lemma {:induction false} SourceIsLexed(ts: seq<Token>, s: string)
    requires SourceText(ts, s)
    ensures Lex(s) == Ok(ts + [Token(EOF, "")])
    decreases |ts|
  {
    hide Lex, TokenAt, LastGap;
    if ts == [] {
      LastGapIsSkipped(s);
      assert ts + [Token(EOF, "")] == [Token(EOF, "")];
    } else {
      var i, j :| 0 <= i < j <= |s| && TokenAt(ts[0], s, i, j) && SourceText(ts[1..], s[j..]);
      SourceIsLexed(ts[1..], s[j..]);
      TokenIsTaken(ts[0], s, i, j);
      assert ts + [Token(EOF, "")] == [ts[0]] + (ts[1..] + [Token(EOF, "")]);
    }
  }

  // ---- Nothing else is accepted ----

  lemma {:induction false} GapsJoin(a: string, b: string)
    requires Gap(a) && Gap(b)
    ensures Gap(a + b)
    decreases |a|
  {
    hide Comment;
    if a == "" {
      assert a + b == b;
    } else if a[0] in {' ', '\t', '\r', '\n'} && Gap(a[1..]) {
      GapsJoin(a[1..], b);
      assert (a + b)[1..] == a[1..] + b;
    } else {
      var k :| 2 <= k < |a| && Comment(a[..k]) && a[k] == '\n' && Gap(a[k + 1..]);
      GapsJoin(a[k + 1..], b);
      var g := a + b;
      assert g[..k] == a[..k] && g[k + 1..] == a[k + 1..] + b;
    }
  }

  /** A gap in front changes nothing. */
  lemma GapInFront(g: string, ts: seq<Token>, s: string)
    requires Gap(g) && SourceText(ts, s)
    ensures SourceText(ts, g + s)
  {
    hide Gap, Comment, ValidToken;
    var w := g + s;
    if ts == [] {
      if Gap(s) {
        GapsJoin(g, s);
      } else {
        var k :| 0 <= k <= |s| && Gap(s[..k]) && Comment(s[k..]);
        GapsJoin(g, s[..k]);
        var m := |g| + k;
        assert w[..m] == g + s[..k] && w[m..] == s[k..];
      }
    } else {
      var i, j :| 0 <= i < j <= |s| && TokenAt(ts[0], s, i, j) && SourceText(ts[1..], s[j..]);
      GapsJoin(g, s[..i]);
      var m, n := |g| + i, |g| + j;
      assert w[..m] == g + s[..i] && w[m..n] == s[i..j] && w[n..] == s[j..];
      assert n < |w| ==> w[n] == s[j];
      assert TokenAt(ts[0], w, m, n);
    }
  }

  lemma {:induction false} SpansAreMaximal(s: string)
    ensures DigitSpan(s) < |s| ==> !IsDigit(s[DigitSpan(s)])
    ensures WordSpan(s) < |s| ==> !IsWordChar(s[WordSpan(s)])
    ensures LineSpan(s) < |s| ==> s[LineSpan(s)] == '\n'
    ensures forall i :: 0 <= i < LineSpan(s) ==> s[i] != '\n'
    decreases |s|
  {
    if s != "" {
      SpansAreMaximal(s[1..]);
    }
  }

  lemma KeywordSpelt(w: string)
    requires KeywordOf(w) != IDENT
    ensures w == Spelling(KeywordOf(w)) && KeywordOf(w) in {TRUE, FALSE, FN, LET, IF, ELSE, WHILE, RETURN}
  {
  }

  lemma OpSpelt(c: char, d: char)
    ensures SingleOp(c).Some? ==> Spelling(SingleOp(c).value) == [c]
    ensures TwoCharOp(c, d).Some? ==> Spelling(TwoCharOp(c, d).value) == [c, d]
  {
  }

  /** An operator that a character continues is read together with it. */
  lemma ContinuedOp(c: char, d: char)
    requires SingleOp(c).Some? && c != '/' && TwoCharOp(c, d) == None
    ensures !Continues(Token(SingleOp(c).value, [c]), d)
  {
  }

  /** What the lexer takes first, if it is a token. */
  lemma FirstSpelt(s: string)
    requires s != "" && First(s).Ok? && First(s).value.token.Some?
    ensures var m := First(s).value; TokenAt(m.token.value, s, 0, m.length)
  {
    hide DigitSpan, WordSpan, LineSpan, KeywordOf, TwoCharOp, SingleOp, Spelling;
    SpansAreMaximal(s);
    var m := First(s).value;
    var t := m.token.value;
    assert s[..0] == "" && s[0..m.length] == s[..m.length];
    if IsAlpha(s[0]) {
      WordTaken(s);
    } else if !IsDigit(s[0]) {
      OpTaken(s);
      OpFirst(s);
    }
  }

  lemma SlashIs()
    ensures SingleOp('/') == Some(SLASH)
  {
  }

  lemma OpFirst(s: string)
    requires s != "" && !IsAlpha(s[0]) && !IsDigit(s[0]) && First(s).Ok? && First(s).value.token.Some?
    requires var t := First(s).value.token.value;
             && ValidToken(t) && !IsWord(t) && t.kind != INT_LIT
             && (|t.value| == 2 ==> t.kind !in {EQ, BANG, LT, GT, SLASH})
             && (t.kind == SLASH ==> s[0] == '/')
    ensures var m := First(s).value;
            m.token.value.value == s[..m.length] && (m.length < |s| ==> !Continues(m.token.value, s[m.length]))
  {
    SlashIs();
    hide DigitSpan, WordSpan, LineSpan, KeywordOf, TwoCharOp, SingleOp, Spelling, ValidToken;
    var m := First(s).value;
    if m.length == 1 && |s| > 1 && s[0] != '/' {
      ContinuedOp(s[0], s[1]);
    }
  }

  lemma WordTaken(s: string)
    requires s != "" && IsAlpha(s[0])
    ensures var w := s[..WordSpan(s)]; var t := Token(KeywordOf(w), w); ValidToken(t) && IsWord(t)
  {
    var w := s[..WordSpan(s)];
    if KeywordOf(w) != IDENT {
      KeywordSpelt(w);
    }
  }

  lemma OpTaken(s: string)
    requires s != "" && !IsAlpha(s[0]) && !IsDigit(s[0]) && First(s).Ok? && First(s).value.token.Some?
    ensures var t := First(s).value.token.value;
            && ValidToken(t) && !IsWord(t) && t.kind != INT_LIT
            && (|t.value| == 2 ==> t.kind !in {EQ, BANG, LT, GT, SLASH})
            && (t.kind == SLASH ==> s[0] == '/')
  {
    hide DigitSpan, WordSpan, LineSpan, KeywordOf;
    OpSpelt(s[0], if |s| > 1 then s[1] else ' ');
  }

  lemma {:induction false} LexedIsSource(s: string, ts: seq<Token>)
    requires Lex(s) == Ok(ts + [Token(EOF, "")])
    ensures SourceText(ts, s)
    decreases |s|
  {
    hide Gap, ValidToken, Continues, DigitSpan, WordSpan, LineSpan, KeywordOf, TwoCharOp, SingleOp;
    var end := [Token(EOF, "")];
    if s == "" {
      NothingIsGap();
      assert |ts + end| == 1;
    } else {
      var m := First(s).value;
      if m.token.Some? {
        TokenLexed(s, ts);
        LexedIsSource(s[m.length..], ts[1..]);
        FirstSpelt(s);
      } else {
        GapLexed(s, ts);
      }
    }
  }

  lemma NothingIsGap()
    ensures Gap("") && LastGap("")
  {
  }

  lemma TokenLexed(s: string, ts: seq<Token>)
    requires s != "" && Lex(s) == Ok(ts + [Token(EOF, "")]) && First(s).Ok? && First(s).value.token.Some?
    ensures ts != [] && ts[0] == First(s).value.token.value
    ensures Lex(s[First(s).value.length..]) == Ok(ts[1..] + [Token(EOF, "")])
  {
    hide First;
    var m, end := First(s).value, [Token(EOF, "")];
    var rest := Lex(s[m.length..]).value;
    assert [m.token.value] + rest == ts + end;
    LexedSomething(s[m.length..]);
    assert ts[0] == (ts + end)[0];
    assert ts[1..] + end == (ts + end)[1..] == rest;
  }

  lemma LexedSomething(s: string)
    requires Lex(s).Ok?
    ensures |Lex(s).value| >= 1
  {
    hide First;
  }

  lemma {:induction false} GapLexed(s: string, ts: seq<Token>)
    requires s != "" && Lex(s) == Ok(ts + [Token(EOF, "")]) && First(s).value.token.None?
    ensures SourceText(ts, s)
    decreases |s|, 0
  {
    hide Gap, ValidToken, SourceText;
    SpansAreMaximal(s);
    var m := First(s).value;
    if IsBlank(s[0]) {
      LexedIsSource(s[1..], ts);
      OneBlank(s[0]);
      GapInFront([s[0]], ts, s[1..]);
      assert s == [s[0]] + s[1..];
    } else {
      var n := LineSpan(s);
      assert Comment(s[..n]);
      if n == |s| {
        CommentAlone(s, ts);
      } else {
        assert s == s[..n] + ([s[n]] + s[n + 1..]);
        CommentIsSkipped(s[..n], [s[n]] + s[n + 1..]);
        BlankIsSkipped(s[n], s[n + 1..]);
        LexedIsSource(s[n + 1..], ts);
        CommentLine(s[..n]);
        GapInFront(s[..n] + "\n", ts, s[n + 1..]);
        assert s == (s[..n] + "\n") + s[n + 1..];
      }
    }
  }

  lemma OneBlank(c: char)
    requires c in {' ', '\t', '\r', '\n'}
    ensures Gap([c])
  {
    assert [c][1..] == "";
  }

  lemma CommentLine(c: string)
    requires Comment(c)
    ensures Gap(c + "\n")
  {
    var g := c + "\n";
    assert g[..|c|] == c && g[|c|] == '\n' && g[|c| + 1..] == "";
  }

  lemma CommentAlone(s: string, ts: seq<Token>)
    requires Comment(s) && Lex(s) == Ok(ts + [Token(EOF, "")])
    ensures SourceText(ts, s)
  {
    CommentIsSkipped(s, "");
    assert s + "" == s;
    LexNothing();
    assert ts == [];
    assert s[..0] == "" && s[0..] == s;
    NothingIsGap();
  }

  /** The lexer decides the relation: it returns these tokens and EOF exactly for the texts that spell them. */
  lemma LexesExactly(s: string, ts: seq<Token>)
    ensures Lex(s) == Ok(ts + [Token(EOF, "")]) <==> SourceText(ts, s)
  {
    hide Lex, SourceText;
    if SourceText(ts, s) {
      SourceIsLexed(ts, s);
    }
    if Lex(s) == Ok(ts + [Token(EOF, "")]) {
      LexedIsSource(s, ts);
    }
  }
}
