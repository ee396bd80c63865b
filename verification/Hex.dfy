/** Genomes as hexadecimal text. */
module Hex {
  import opened Words
  import opened Biology

  const DIGITS := "0123456789abcdef"

  /** The value of a hexadecimal digit, of either case. */
  function DigitValue(c: char): (v: Option<int>)
    ensures v.Some? ==> 0 <= v.value < 16
  {
    if '0' <= c <= '9' then Some(c as int - '0' as int)
    else if 'a' <= c <= 'f' then Some(c as int - 'a' as int + 10)
    else if 'A' <= c <= 'F' then Some(c as int - 'A' as int + 10)
    else None
  }

  function ByteText(b: byte): string {
    [DIGITS[b as int / 16], DIGITS[b as int % 16]]
  }

  predicate IsSpace(c: char) {
    c in {' ', '\t', '\n', '\U{000B}', '\U{000C}', '\r'}
  }

  /**
   The low byte of what the C++ library reads from two characters in base 16: it skips a blank, takes a sign,
   and stops at what is no digit; None is its exception for no number at all.
   */
  function ReadByte(a: char, b: char): Option<byte> {
    var high, low := DigitValue(a), DigitValue(b);
    if high.Some? then Some((if low.Some? then high.value * 16 + low.value else high.value) as byte)
    else if low.None? then None
    else if IsSpace(a) || a == '+' then Some(low.value as byte)
    else if a == '-' then Some(((0 - low.value) % 256) as byte)
    else None
  }

  function Text(g: seq<byte>): (s: string)
    ensures |s| == 2 * |g|
  {
    if g == [] then "" else ByteText(g[0]) + Text(g[1..])
  }

  /** Pairs of characters as bytes, as far as both the text and the genome go; the rest of the genome is 0. */
  function ReadFrom(hex: string, g: Genome, i: nat): Option<Genome>
    requires i <= GENOME_LENGTH
    decreases GENOME_LENGTH - i
  {
    if i < GENOME_LENGTH && 2 * i + 1 < |hex| then
      var b := ReadByte(hex[2 * i], hex[2 * i + 1]);
      if b.None? then None else ReadFrom(hex, g[i := b.value], i + 1)
    else Some(g)
  }

  function Read(hex: string): Option<Genome> {
    ReadFrom(hex, seq(GENOME_LENGTH, _ => 0), 0)
  }

  method GenomeToHex(g: Genome) returns (s: string)
    ensures s == Text(g)
  {
    s := "";
    assert g[0..] == g;
    for i := 0 to GENOME_LENGTH
      invariant s + Text(g[i..]) == Text(g)
    {
      assert g[i..][0] == g[i] && g[i..][1..] == g[i + 1..];
      assert s + (ByteText(g[i]) + Text(g[i + 1..])) == s + ByteText(g[i]) + Text(g[i + 1..]);
      s := s + ByteText(g[i]);
    }
  }

  method HexToGenome(hex: string) returns (r: Option<Genome>)
    ensures r == Read(hex)
  {
    var g: Genome := seq(GENOME_LENGTH, _ => 0);
    var i := 0;
    while i < GENOME_LENGTH && i * 2 + 1 < |hex|
      invariant 0 <= i <= GENOME_LENGTH
      invariant Read(hex) == ReadFrom(hex, g, i)
    {
      var b := ReadByte(hex[2 * i], hex[2 * i + 1]);
      if b.None? {
        return None;
      }
      g := g[i := b.value];
      i := i + 1;
    }
    return Some(g);
  }

  lemma ByteReadBack(b: byte)
    ensures ReadByte(ByteText(b)[0], ByteText(b)[1]) == Some(b)
  {
    DigitReadBack(b as int / 16);
    DigitReadBack(b as int % 16);
  }

  lemma DigitReadBack(n: int)
    requires 0 <= n < 16
    ensures DigitValue(DIGITS[n]) == Some(n)
  {
    if n < 10 {
      assert DIGITS[n] == "0123456789"[n];
    } else {
      assert DIGITS[n] == "abcdef"[n - 10];
    }
  }

  lemma {:induction false} TextAt(g: seq<byte>, i: nat)
    requires i < |g|
    ensures Text(g)[2 * i] == ByteText(g[i])[0] && Text(g)[2 * i + 1] == ByteText(g[i])[1]
  {
    if i > 0 {
      TextAt(g[1..], i - 1);
    }
  }

  lemma {:induction false} ReadsOn(g: Genome, partial: Genome, i: nat)
    requires i <= GENOME_LENGTH && partial[..i] == g[..i]
    ensures ReadFrom(Text(g), partial, i) == Some(g)
    decreases GENOME_LENGTH - i
  {
    hide Text, ReadByte, ByteText;
    if i < GENOME_LENGTH {
      TextAt(g, i);
      ByteReadBack(g[i]);
      ReadsOn(g, partial[i := g[i]], i + 1);
    } else {
      assert partial == g;
    }
  }

  /** Reading the text of a genome gives the genome. */
  lemma ReadInvertsText(g: Genome)
    ensures Read(Text(g)) == Some(g)
  {
    ReadsOn(g, seq(GENOME_LENGTH, _ => 0), 0);
  }

  lemma DigitIs(n: int)
    requires 0 <= n < 16
    ensures DIGITS[n] == if n < 10 then '0' + n as char else 'a' + (n - 10) as char
  {
    if n < 10 {
      assert DIGITS[n] == "0123456789"[n];
    } else {
      assert DIGITS[n] == "abcdef"[n - 10];
    }
  }

  /** Two digits a byte, the high one first, letters in lower case. */
  lemma HexDigits(g: seq<byte>, i: nat)
    requires i < |g|
    ensures var high := g[i] as int / 16;
            Text(g)[2 * i] == if high < 10 then '0' + high as char else 'a' + (high - 10) as char
    ensures var low := g[i] as int % 16;
            Text(g)[2 * i + 1] == if low < 10 then '0' + low as char else 'a' + (low - 10) as char
  {
    hide DIGITS, Text;
    TextAt(g, i);
    DigitIs(g[i] as int / 16);
    DigitIs(g[i] as int % 16);
  }

  const UPPER_DIGITS := "0123456789ABCDEF"

  lemma UpperDigitReadBack(n: int)
    requires 0 <= n < 16
    ensures DigitValue(UPPER_DIGITS[n]) == Some(n)
  {
    if n < 10 {
      assert UPPER_DIGITS[n] == "0123456789"[n];
    } else {
      assert UPPER_DIGITS[n] == "ABCDEF"[n - 10];
    }
  }

  /** Reading does not care for the case of digits. */
  lemma EitherCase(high: int, low: int)
    requires 0 <= high < 16 && 0 <= low < 16
    ensures ReadByte(DIGITS[high], DIGITS[low]) == Some((16 * high + low) as byte)
    ensures ReadByte(UPPER_DIGITS[high], UPPER_DIGITS[low]) == Some((16 * high + low) as byte)
  {
    DigitReadBack(high);
    DigitReadBack(low);
    UpperDigitReadBack(high);
    UpperDigitReadBack(low);
  }

  /** Behind a character that is no digit the other one counts alone, negated modulo 256 behind a minus sign. */
  lemma OddPairs(n: int)
    requires 0 <= n < 16
    ensures ReadByte(' ', DIGITS[n]) == ReadByte('+', DIGITS[n]) == ReadByte(DIGITS[n], 'x') == Some(n as byte)
    ensures ReadByte('-', DIGITS[n]) == Some(((256 - n) % 256) as byte)
    ensures ReadByte('x', DIGITS[n]) == None && ReadByte('-', ' ') == None
  {
    DigitReadBack(n);
  }
}
