/** Tokens of GoL Script. */
module Tokens {
  datatype Kind =
    | INT_LIT | TRUE | FALSE | IDENT
    | FN | LET | IF | ELSE | WHILE | RETURN
    | LPAREN | RPAREN | LBRACE | RBRACE | SEMICOLON | COMMA
    | PLUS | MINUS | STAR | SLASH | PERCENT | BANG
    | EQ | EQEQ | BANGEQ | LT | GT | LTEQ | GTEQ | AMPAMP | PIPEPIPE
    | EOF

  /** A token without its source position. */
  datatype Token = Token(kind: Kind, value: string)

  /** The text of a token whose kind has only one. */
  function Spelling(k: Kind): string {
    match k
    case TRUE => "true"
    case FALSE => "false"
    case FN => "fn"
    case LET => "let"
    case IF => "if"
    case ELSE => "else"
    case WHILE => "while"
    case RETURN => "return"
    case LPAREN => "("
    case RPAREN => ")"
    case LBRACE => "{"
    case RBRACE => "}"
    case SEMICOLON => ";"
    case COMMA => ","
    case PLUS => "+"
    case MINUS => "-"
    case STAR => "*"
    case SLASH => "/"
    case PERCENT => "%"
    case BANG => "!"
    case EQ => "="
    case EQEQ => "=="
    case BANGEQ => "!="
    case LT => "<"
    case GT => ">"
    case LTEQ => "<="
    case GTEQ => ">="
    case AMPAMP => "&&"
    case PIPEPIPE => "||"
    case _ => ""
  }

  function Fixed(k: Kind): Token {
    Token(k, Spelling(k))
  }

  function Digit(d: nat): char
    requires d < 10
  {
    '0' + d as char
  }

  /** Decimal notation. */
  function Decimal(n: nat): (s: string)
    ensures |s| > 0
    ensures forall i :: 0 <= i < |s| ==> '0' <= s[i] <= '9'
  {
    if n < 10 then [Digit(n)] else Decimal(n / 10) + [Digit(n % 10)]
  }

  /** The value of a string of digits. */
  function DigitsValue(s: string): int {
    if s == "" then 0 else 10 * DigitsValue(s[..|s| - 1]) + (s[|s| - 1] as int - '0' as int)
  }

  lemma {:induction false} DecimalValue(n: nat)
    ensures DigitsValue(Decimal(n)) == n
  {
    if n < 10 {
      assert DigitsValue([Digit(n)][..0]) == 0;
    } else {
      DecimalValue(n / 10);
      var s := Decimal(n / 10);
      assert (s + [Digit(n % 10)])[..|s|] == s;
    }
  }

  function PowerOfTen(k: nat): nat {
    if k == 0 then 1 else 10 * PowerOfTen(k - 1)
  }

  /** A digit in front of k others stands for its multiple of the k-th power of ten; zeros in front change nothing. */
  lemma {:induction false} FrontDigit(c: char, s: string)
    ensures DigitsValue([c] + s) == (c as int - '0' as int) * PowerOfTen(|s|) + DigitsValue(s)
  {
    if s == "" {
      assert [c] + s == [c] && DigitsValue([c][..0]) == 0;
    } else {
      var front, last := s[..|s| - 1], s[|s| - 1];
      FrontDigit(c, front);
      assert ([c] + s)[..|s|] == [c] + front && ([c] + s)[|s|] == last;
      var d, p := c as int - '0' as int, PowerOfTen(|front|);
      assert 10 * (d * p) == d * (10 * p);
    }
  }
}
