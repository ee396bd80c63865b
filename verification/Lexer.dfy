/** The lexer: maximal munch over ASCII source text. */
module Lexer {
  import opened Words
  import opened Tokens

  datatype LexError = UnexpectedCharacter(c: char)

  type Lexed = Result<seq<Token>, LexError>

  predicate IsDigit(c: char) { '0' <= c <= '9' }

  predicate IsAlpha(c: char) { 'a' <= c <= 'z' || 'A' <= c <= 'Z' || c == '_' }

  predicate IsWordChar(c: char) { IsAlpha(c) || IsDigit(c) }

  predicate IsBlank(c: char) { c == ' ' || c == '\t' || c == '\r' || c == '\n' }

  function DigitSpan(s: string): (n: nat)
    ensures n <= |s| && forall i :: 0 <= i < n ==> IsDigit(s[i])
  {
    if s != "" && IsDigit(s[0]) then 1 + DigitSpan(s[1..]) else 0
  }

  function WordSpan(s: string): (n: nat)
    ensures n <= |s| && forall i :: 0 <= i < n ==> IsWordChar(s[i])
    ensures s != "" && IsWordChar(s[0]) ==> n > 0
  {
    if s != "" && IsWordChar(s[0]) then 1 + WordSpan(s[1..]) else 0
  }

  function LineSpan(s: string): (n: nat)
    ensures n <= |s|
  {
    if s != "" && s[0] != '\n' then 1 + LineSpan(s[1..]) else 0
  }

  function KeywordOf(word: string): Kind {
    if word == "fn" then FN
    else if word == "let" then LET
    else if word == "if" then IF
    else if word == "else" then ELSE
    else if word == "while" then WHILE
    else if word == "return" then RETURN
    else if word == "true" then TRUE
    else if word == "false" then FALSE
    else IDENT
  }

  function TwoCharOp(a: char, b: char): Option<Kind> {
    if a == '=' && b == '=' then Some(EQEQ)
    else if a == '!' && b == '=' then Some(BANGEQ)
    else if a == '<' && b == '=' then Some(LTEQ)
    else if a == '>' && b == '=' then Some(GTEQ)
    else if a == '&' && b == '&' then Some(AMPAMP)
    else if a == '|' && b == '|' then Some(PIPEPIPE)
    else None
  }

  function SingleOp(c: char): Option<Kind> {
    match c
    case '(' => Some(LPAREN)
    case ')' => Some(RPAREN)
    case '{' => Some(LBRACE)
    case '}' => Some(RBRACE)
    case ';' => Some(SEMICOLON)
    case ',' => Some(COMMA)
    case '+' => Some(PLUS)
    case '-' => Some(MINUS)
    case '*' => Some(STAR)
    case '/' => Some(SLASH)
    case '%' => Some(PERCENT)
    case '!' => Some(BANG)
    case '=' => Some(EQ)
    case '<' => Some(LT)
    case '>' => Some(GT)
    case _ => None
  }

  /** The first token of a non-blank text and the text after it; a comment yields no token. */
  datatype Munch = Munch(token: Option<Token>, length: nat)

  function First(s: string): (r: Result<Munch, LexError>)
    requires s != ""
    ensures r.Ok? ==> 0 < r.value.length <= |s|
  {
    var c := s[0];
    if IsBlank(c) then Ok(Munch(None, 1))
    else if c == '/' && |s| > 1 && s[1] == '/' then Ok(Munch(None, LineSpan(s)))
    else if IsDigit(c) then Ok(Munch(Some(Token(INT_LIT, s[..DigitSpan(s)])), DigitSpan(s)))
    else if IsAlpha(c) then
      var word := s[..WordSpan(s)];
      Ok(Munch(Some(Token(KeywordOf(word), word)), WordSpan(s)))
    else if |s| > 1 && TwoCharOp(c, s[1]).Some? then
      Ok(Munch(Some(Token(TwoCharOp(c, s[1]).value, s[..2])), 2))
    else if SingleOp(c).Some? then Ok(Munch(Some(Token(SingleOp(c).value, s[..1])), 1))
    else Err(UnexpectedCharacter(c))
  }

  /** Tokens in order, ended by EOF. */
  function Lex(s: string): Lexed {
    if s == "" then Ok([Token(EOF, "")])
    else
      var munch :- First(s);
      var rest :- Lex(s[munch.length..]);
      Ok(if munch.token.Some? then [munch.token.value] + rest else rest)
  }

  // ---- The imperative scanner ----

  lemma NextBehind(done: seq<Token>, s: string)
    requires s != "" && First(s).Ok?
    ensures var m := First(s).value;
            Behind(done, Lex(s)) == Behind(if m.token.Some? then done + [m.token.value] else done, Lex(s[m.length..]))
  {
    hide First;
    var m := First(s).value;
    var rest := Lex(s[m.length..]);
    if rest.Ok? && m.token.Some? {
      assert done + ([m.token.value] + rest.value) == (done + [m.token.value]) + rest.value;
    }
  }

  method SkipLine(source: string, start: nat) returns (i: nat)
    requires start <= |source|
    ensures i == start + LineSpan(source[start..]) <= |source|
  {
    i := start;
    while i < |source| && source[i] != '\n'
      invariant start <= i <= |source|
      invariant start + LineSpan(source[start..]) == i + LineSpan(source[i..])
    {
      assert source[i..][1..] == source[i + 1..];
      i := i + 1;
    }
  }

  method ScanDigits(source: string, start: nat) returns (i: nat)
    requires start <= |source|
    ensures i == start + DigitSpan(source[start..]) <= |source|
  {
    i := start;
    while i < |source| && IsDigit(source[i])
      invariant start <= i <= |source|
      invariant start + DigitSpan(source[start..]) == i + DigitSpan(source[i..])
    {
      assert source[i..][1..] == source[i + 1..];
      i := i + 1;
    }
  }

  method ScanWord(source: string, start: nat) returns (i: nat)
    requires start <= |source|
    ensures i == start + WordSpan(source[start..]) <= |source|
  {
    i := start;
    while i < |source| && IsWordChar(source[i])
      invariant start <= i <= |source|
      invariant start + WordSpan(source[start..]) == i + WordSpan(source[i..])
    {
      assert source[i..][1..] == source[i + 1..];
      i := i + 1;
    }
  }

  method Tokenize(source: string) returns (r: Lexed)
    ensures r == Lex(source)
  {
    hide Lex, LineSpan, DigitSpan, WordSpan;
    var tokens: seq<Token> := [];
    var i := 0;
    while i < |source|
      invariant 0 <= i <= |source|
      invariant Lex(source) == Behind(tokens, Lex(source[i..]))
    {
      ghost var s := source[i..];
      var ch := source[i];
      FirstError(s);
      if First(s).Ok? {
        NextBehind(tokens, s);
        assert s[First(s).value.length..] == source[i + First(s).value.length..];
      }
      if IsBlank(ch) {
        i := i + 1;
      } else if ch == '/' && i + 1 < |source| && source[i + 1] == '/' {
        i := SkipLine(source, i);
      } else if IsDigit(ch) {
        var start := i;
        i := ScanDigits(source, i);
        assert source[start..i] == s[..i - start];
        tokens := tokens + [Token(INT_LIT, source[start..i])];
      } else if IsAlpha(ch) {
        var start := i;
        i := ScanWord(source, i);
        var word := source[start..i];
        assert word == s[..i - start];
        tokens := tokens + [Token(KeywordOf(word), word)];
      } else if i + 1 < |source| && TwoCharOp(ch, source[i + 1]).Some? {
        assert source[i..i + 2] == s[..2];
        tokens := tokens + [Token(TwoCharOp(ch, source[i + 1]).value, source[i..i + 2])];
        i := i + 2;
      } else if SingleOp(ch).Some? {
        assert [ch] == s[..1];
        tokens := tokens + [Token(SingleOp(ch).value, [ch])];
        i := i + 1;
      } else {
        return Err(UnexpectedCharacter(ch));
      }
    }
    assert source[i..] == "";
    LexEnd();
    return Ok(tokens + [Token(EOF, "")]);
  }

  lemma LexEnd()
    ensures Lex("") == Ok([Token(EOF, "")])
  {
  }

  lemma FirstError(s: string)
    requires s != ""
    ensures First(s).Err? ==> Lex(s) == Err(First(s).error)
  {
    hide First;
  }
}
