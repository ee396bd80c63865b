/**
 The snapshot codec: cells packed into bits, bytes written in base64 (section 4 of RFC 4648).
 Shifts and masks are written as division and remainder by powers of two.
 */
module Base64 {
  import opened Words

  /** The character of a six-bit value. */
  function CharOf(v: int): char
    requires 0 <= v < 64
  {
    if v < 26 then 'A' + v as char
    else if v < 52 then 'a' + (v - 26) as char
    else if v < 62 then '0' + (v - 52) as char
    else if v == 62 then '+'
    else '/'
  }

  /** The six-bit value of a character, or -1. */
  function IndexOf(c: char): (v: int)
    ensures -1 <= v < 64
  {
    if 'A' <= c <= 'Z' then c as int - 'A' as int
    else if 'a' <= c <= 'z' then c as int - 'a' as int + 26
    else if '0' <= c <= '9' then c as int - '0' as int + 52
    else if c == '+' then 62
    else if c == '/' then 63
    else -1
  }

  lemma IndexInverts(v: int)
    requires 0 <= v < 64
    ensures IndexOf(CharOf(v)) == v && CharOf(v) != '='
  {
  }

  function Triple(b0: byte, b1: byte, b2: byte): (t: int)
    ensures 0 <= t < 0x100_0000
  {
    b0 as int * 0x1_0000 + b1 as int * 0x100 + b2 as int
  }

  /** The four six-bit values of a 24-bit group. */
  function Sextet(t: int, i: nat): (v: int)
    requires 0 <= t < 0x100_0000 && i < 4
    ensures 0 <= v < 64
  {
    if i == 0 then t / 0x4_0000
    else if i == 1 then t / 0x1000 % 64
    else if i == 2 then t / 64 % 64
    else t % 64
  }

  function EncodeGroup(b0: byte, b1: byte, b2: byte): string {
    var t := Triple(b0, b1, b2);
    [CharOf(Sextet(t, 0)), CharOf(Sextet(t, 1)), CharOf(Sextet(t, 2)), CharOf(Sextet(t, 3))]
  }

  function EncodeLast(bs: seq<byte>): string
    requires |bs| < 3
  {
    if |bs| == 1 then
      var t := Triple(bs[0], 0, 0);
      [CharOf(Sextet(t, 0)), CharOf(Sextet(t, 1)), '=', '=']
    else if |bs| == 2 then
      var t := Triple(bs[0], bs[1], 0);
      [CharOf(Sextet(t, 0)), CharOf(Sextet(t, 1)), CharOf(Sextet(t, 2)), '=']
    else ""
  }

  function Encode(bs: seq<byte>): string {
    if |bs| < 3 then EncodeLast(bs) else EncodeGroup(bs[0], bs[1], bs[2]) + Encode(bs[3..])
  }

  datatype DecodeError = InvalidCharacter

  type Decoded = Result<seq<byte>, DecodeError>

  /** The value at a position; -1 past the end. */
  function At(s: string, i: nat): (v: int)
    ensures -1 <= v < 64
  {
    if i < |s| then IndexOf(s[i]) else -1
  }

  /** The bytes of one group; a missing third or fourth value drops its byte. */
  function GroupBytes(a: int, b: int, c: int, d: int): seq<byte>
    requires 0 <= a < 64 && 0 <= b < 64 && -1 <= c < 64 && -1 <= d < 64
  {
    var t := a * 0x4_0000 + b * 0x1000;
    var t2 := if c >= 0 then t + c * 64 else t;
    var t3 := if d >= 0 then t2 + d else t2;
    [t / 0x1_0000 % 0x100]
    + (if c >= 0 then [t2 / 0x100 % 0x100] else [])
    + (if d >= 0 then [t3 % 0x100] else [])
  }

  function Decode(s: string): Decoded
    decreases |s|
  {
    if s == "" || s[0] == '=' then Ok([])
    else
      var a, b, c, d := At(s, 0), At(s, 1), At(s, 2), At(s, 3);
      if a < 0 || b < 0 then Err(InvalidCharacter)
      else
        var rest :- Decode(if |s| >= 4 then s[4..] else "");
        Ok(GroupBytes(a, b, c, d) + rest)
  }

  method Base64Encode(bytes: seq<byte>) returns (out: string)
    ensures out == Encode(bytes)
  {
    hide EncodeGroup, CharOf, Sextet;
    out := "";
    var i := 0;
    while i + 2 < |bytes|
      invariant 0 <= i <= |bytes| && Encode(bytes) == out + Encode(bytes[i..])
    {
      var rest := bytes[i..];
      assert rest[3..] == bytes[i + 3..];
      var group := EncodeGroup(bytes[i], bytes[i + 1], bytes[i + 2]);
      assert out + (group + Encode(rest[3..])) == (out + group) + Encode(rest[3..]);
      out := out + group;
      i := i + 3;
    }
    if i + 1 == |bytes| || i + 2 == |bytes| {
      out := out + EncodeLast(bytes[i..]);
    } else {
      assert bytes[i..] == [] && out + "" == out;
    }
  }

  method Base64Decode(encoded: string) returns (r: Decoded)
    ensures r == Decode(encoded)
  {
    hide GroupBytes, IndexOf;
    var out: seq<byte> := [];
    var i := 0;
    ghost var whole := Decode(encoded);
    ghost var rest := encoded;
    assert whole.Ok? ==> [] + whole.value == whole.value;
    while i < |encoded|
      invariant 0 <= i && rest == if i < |encoded| then encoded[i..] else ""
      invariant whole == match Decode(rest) case Ok(bs) => Ok(out + bs) case Err(e) => Err(e)
    {
      if encoded[i] == '=' {
        break;
      }
      var a := IndexOf(encoded[i]);
      var b := if i + 1 < |encoded| then IndexOf(encoded[i + 1]) else -1;
      var c := if i + 2 < |encoded| then IndexOf(encoded[i + 2]) else -1;
      var d := if i + 3 < |encoded| then IndexOf(encoded[i + 3]) else -1;
      if a < 0 || b < 0 {
        return Err(InvalidCharacter);
      }
      ghost var next := if |rest| >= 4 then rest[4..] else "";
      var group := GroupBytes(a, b, c, d);
      if Decode(next).Ok? {
        assert out + (group + Decode(next).value) == (out + group) + Decode(next).value;
      }
      out := out + group;
      i := i + 4;
      rest := next;
    }
    assert out + [] == out;
    return Ok(out);
  }

  // ---- Round trip ----

  /** The 24 bits of three bytes, cut into four times six. */
  lemma SextetsAre(b0: byte, b1: byte, b2: byte)
    ensures var t := Triple(b0, b1, b2);
            && Sextet(t, 0) == b0 / 4
            && Sextet(t, 1) == b0 % 4 * 16 + b1 / 16
            && Sextet(t, 2) == b1 % 16 * 4 + b2 / 64
            && Sextet(t, 3) == b2 % 64
  {
    var t := Triple(b0, b1, b2);
    ModIs(t, 0x4_0000, b0 / 4, b0 % 4 * 0x1_0000 + b1 * 0x100 + b2);
    ModIs(t, 0x1000, b0 * 16 + b1 / 16, b1 % 16 * 0x100 + b2);
    ModIs(b0 * 16 + b1 / 16, 64, b0 / 4, b0 % 4 * 16 + b1 / 16);
    ModIs(t, 64, b0 * 1024 + b1 * 4 + b2 / 64, b2 % 64);
    ModIs(b0 * 1024 + b1 * 4 + b2 / 64, 64, b0 * 16 + b1 / 16, b1 % 16 * 4 + b2 / 64);
  }

  lemma GroupBytesAre(a: int, b: int, c: int, d: int)
    requires 0 <= a < 64 && 0 <= b < 64 && -1 <= c < 64 && -1 <= d < 64
    ensures var c0 := if c >= 0 then c else 0;
            var d0 := if d >= 0 then d else 0;
            GroupBytes(a, b, c, d) ==
              [a * 4 + b / 16]
              + (if c >= 0 then [b % 16 * 16 + c / 4] else [])
              + (if d >= 0 then [c0 % 4 * 64 + d0] else [])
  {
    var t := a * 0x4_0000 + b * 0x1000;
    var c0 := if c >= 0 then c else 0;
    var d0 := if d >= 0 then d else 0;
    ModIs(t, 0x1_0000, a * 4 + b / 16, b % 16 * 0x1000);
    var t2 := t + c0 * 64;
    ModIs(t2, 0x100, a * 1024 + b * 16 + c0 / 4, c0 % 4 * 64);
    ModIs(a * 1024 + b * 16 + c0 / 4, 0x100, a * 4 + b / 16, b % 16 * 16 + c0 / 4);
    ModIs(t2 + d0, 0x100, a * 1024 + b * 16 + c0 / 4, c0 % 4 * 64 + d0);
  }

  lemma GroupInverts(b0: byte, b1: byte, b2: byte)
    ensures var t := Triple(b0, b1, b2);
            && GroupBytes(Sextet(t, 0), Sextet(t, 1), Sextet(t, 2), Sextet(t, 3)) == [b0, b1, b2]
            && (b2 == 0 ==> GroupBytes(Sextet(t, 0), Sextet(t, 1), Sextet(t, 2), -1) == [b0, b1])
            && (b1 == 0 && b2 == 0 ==> GroupBytes(Sextet(t, 0), Sextet(t, 1), -1, -1) == [b0])
  {
    hide GroupBytes, Sextet;
    var t := Triple(b0, b1, b2);
    var s0, s1, s2, s3 := Sextet(t, 0), Sextet(t, 1), Sextet(t, 2), Sextet(t, 3);
    SextetsAre(b0, b1, b2);
    ModIs(s1, 16, b0 % 4, b1 / 16);
    ModIs(s2, 4, b1 % 16, b2 / 64);
    GroupBytesAre(s0, s1, s2, s3);
    GroupBytesAre(s0, s1, s2, -1);
    GroupBytesAre(s0, s1, -1, -1);
  }

  lemma DecodeTakesGroup(s: string, rest: string)
    requires |s| == 4 && IndexOf(s[0]) >= 0 && IndexOf(s[1]) >= 0
    ensures Decode(s + rest) ==
            match Decode(rest)
            case Ok(bs) => Ok(GroupBytes(IndexOf(s[0]), IndexOf(s[1]), IndexOf(s[2]), IndexOf(s[3])) + bs)
            case Err(e) => Err(e)
  {
    hide GroupBytes;
    assert (s + rest)[4..] == rest;
    assert IndexOf('=') == -1;
  }

  /** Decoding inverts encoding, for every byte string of every length. */
  lemma {:induction false} DecodeInvertsEncode(bs: seq<byte>)
    ensures Decode(Encode(bs)) == Ok(bs)
  {
    hide CharOf, IndexOf, Sextet, GroupBytes, Decode, Triple;
    DecodeNothing();
    if bs == [] {
    } else {
      var b0 := bs[0];
      var b1 := if |bs| > 1 then bs[1] else 0;
      var b2 := if |bs| > 2 then bs[2] else 0;
      var t := Triple(b0, b1, b2);
      IndexInverts(Sextet(t, 0));
      IndexInverts(Sextet(t, 1));
      IndexInverts(Sextet(t, 2));
      IndexInverts(Sextet(t, 3));
      PadIsNoIndex();
      GroupInverts(b0, b1, b2);
      if |bs| < 3 {
        var text := Encode(bs);
        assert text + "" == text;
        DecodeTakesGroup(text, "");
        var bytes := GroupBytes(IndexOf(text[0]), IndexOf(text[1]), IndexOf(text[2]), IndexOf(text[3]));
        assert bytes + [] == bs;
      } else {
        DecodeTakesGroup(EncodeGroup(b0, b1, b2), Encode(bs[3..]));
        DecodeInvertsEncode(bs[3..]);
        assert [b0, b1, b2] + bs[3..] == bs;
      }
    }
  }

  lemma DecodeNothing()
    ensures Decode("") == Ok([])
  {
  }

  lemma PadIsNoIndex()
    ensures IndexOf('=') == -1
  {
  }

  /** Encoded text is padded to whole groups of four, and the padding is at the end only. */
  lemma {:induction false} EncodedShape(bs: seq<byte>)
    ensures |Encode(bs)| == (|bs| + 2) / 3 * 4
    ensures forall i :: 0 <= i < |Encode(bs)| ==> (Encode(bs)[i] == '=' <==> i * 3 / 4 >= |bs|)
  {
    hide CharOf, Sextet;
    if |bs| > 0 {
      var t := Triple(bs[0], if |bs| > 1 then bs[1] else 0, if |bs| > 2 then bs[2] else 0);
      IndexInverts(Sextet(t, 0));
      IndexInverts(Sextet(t, 1));
      IndexInverts(Sextet(t, 2));
      IndexInverts(Sextet(t, 3));
    }
    if |bs| >= 3 {
      EncodedShape(bs[3..]);
      forall i | 4 <= i < |Encode(bs)|
        ensures Encode(bs)[i] == '=' <==> i * 3 / 4 >= |bs|
      {
        assert Encode(bs)[i] == Encode(bs[3..])[i - 4];
      }
    }
  }

  // ---- Which characters, and when decoding fails ----

  const UPPER := "ABCDEFGHIJKLMNOPQRSTUVWXYZ"
  const LOWER := "abcdefghijklmnopqrstuvwxyz"
  const ALPHABET := UPPER + LOWER + "0123456789+/"

  lemma UpperIs(v: int)
    requires 0 <= v < 26
    ensures |UPPER| == 26 && UPPER[v] == 'A' + v as char
  {
  }

  lemma LowerIs(v: int)
    requires 0 <= v < 26
    ensures |LOWER| == 26 && LOWER[v] == 'a' + v as char
  {
  }

  /** The characters in the order of table 1 of RFC 4648. */
  lemma CharIs(v: int)
    requires 0 <= v < 64
    ensures |ALPHABET| == 64 && CharOf(v) == ALPHABET[v]
  {
    hide UPPER, LOWER;
    UpperIs(if v < 26 then v else 0);
    LowerIs(if 26 <= v < 52 then v - 26 else 0);
    if v >= 52 {
      assert ALPHABET[v] == "0123456789+/"[v - 52];
    }
  }

  /** A character of the alphabet has its place as its value, and no other character has any. */
  lemma IndexIs(c: char)
    ensures |ALPHABET| == 64
    ensures IndexOf(c) >= 0 ==> ALPHABET[IndexOf(c)] == c
    ensures IndexOf(c) >= 0 <==> c in ALPHABET
  {
    hide ALPHABET;
    CharIs(0);
    if IndexOf(c) >= 0 {
      CharIs(IndexOf(c));
    }
    if c in ALPHABET {
      var v :| 0 <= v < |ALPHABET| && ALPHABET[v] == c;
      CharIs(v);
      IndexInverts(v);
    }
  }

  lemma FirstCharacters(bs: seq<byte>)
    requires bs != []
    ensures |Encode(bs)| >= 4 && |ALPHABET| == 64
    ensures var b0 := bs[0];
            var b1 := if 1 < |bs| then bs[1] else 0;
            var b2 := if 2 < |bs| then bs[2] else 0;
            && Encode(bs)[0] == ALPHABET[b0 / 4]
            && Encode(bs)[1] == ALPHABET[b0 % 4 * 16 + b1 / 16]
            && Encode(bs)[2] == (if 1 < |bs| then ALPHABET[b1 % 16 * 4 + b2 / 64] else '=')
            && Encode(bs)[3] == (if 2 < |bs| then ALPHABET[b2 % 64] else '=')
  {
    hide CharOf, Sextet, Triple, ALPHABET;
    var b0 := bs[0];
    var b1 := if |bs| > 1 then bs[1] else 0;
    var b2 := if |bs| > 2 then bs[2] else 0;
    SextetsAre(b0, b1, b2);
    CharIs(Sextet(Triple(b0, b1, b2), 0));
    CharIs(Sextet(Triple(b0, b1, b2), 1));
    CharIs(Sextet(Triple(b0, b1, b2), 2));
    CharIs(Sextet(Triple(b0, b1, b2), 3));
  }

  lemma {:induction false} TailEncoded(bs: seq<byte>, k: nat)
    requires 3 * k <= |bs|
    ensures |Encode(bs)| >= 4 * k && Encode(bs)[4 * k..] == Encode(bs[3 * k..])
  {
    hide EncodeLast, CharOf, Sextet, Triple;
    if k == 0 {
      assert bs[0..] == bs;
    } else {
      TailEncoded(bs[3..], k - 1);
      assert bs[3..][3 * (k - 1)..] == bs[3 * k..];
    }
  }

  /** Each group of three bytes, the last one filled up with zeros, is cut into four times six bits. */
  lemma EncodesExactly(bs: seq<byte>, k: nat)
    requires 3 * k < |bs|
    ensures |Encode(bs)| >= 4 * k + 4 && |ALPHABET| == 64
    ensures var b0 := bs[3 * k];
            var b1 := if 3 * k + 1 < |bs| then bs[3 * k + 1] else 0;
            var b2 := if 3 * k + 2 < |bs| then bs[3 * k + 2] else 0;
            && Encode(bs)[4 * k] == ALPHABET[b0 / 4]
            && Encode(bs)[4 * k + 1] == ALPHABET[b0 % 4 * 16 + b1 / 16]
            && Encode(bs)[4 * k + 2] == (if 3 * k + 1 < |bs| then ALPHABET[b1 % 16 * 4 + b2 / 64] else '=')
            && Encode(bs)[4 * k + 3] == (if 3 * k + 2 < |bs| then ALPHABET[b2 % 64] else '=')
  {
    hide ALPHABET, Encode;
    TailEncoded(bs, k);
    var rest := bs[3 * k..];
    FirstCharacters(rest);
    assert forall i :: 0 <= i < 4 ==> Encode(rest)[i] == Encode(bs)[4 * k + i];
  }

  /** A group that is reached, as neither it nor an earlier one begins with padding, and lacks one of two characters. */
  ghost predicate BrokenGroup(s: string, k: nat) {
    && 4 * k < |s|
    && (forall j :: 0 <= j <= k ==> s[4 * j] != '=')
    && (s[4 * k] !in ALPHABET || 4 * k + 1 >= |s| || s[4 * k + 1] !in ALPHABET)
  }

  lemma FirstGroup(s: string)
    ensures BrokenGroup(s, 0) <==> s != "" && s[0] != '=' && (At(s, 0) < 0 || At(s, 1) < 0)
  {
    hide ALPHABET, IndexOf;
    if s != "" {
      IndexIs(s[0]);
    }
    if |s| > 1 {
      IndexIs(s[1]);
    }
  }

  lemma LaterGroup(s: string, k: nat)
    requires |s| >= 4 && s[0] != '='
    ensures BrokenGroup(s[4..], k) <==> BrokenGroup(s, k + 1)
  {
    hide ALPHABET;
    if 4 * k < |s[4..]| {
      assert forall j :: 0 <= j <= k ==> s[4..][4 * j] == s[4 * (j + 1)];
      assert (forall j :: 0 <= j <= k + 1 ==> s[4 * j] != '=')
             <==> (forall j :: 0 <= j <= k ==> s[4..][4 * j] != '=') by {
        if forall j :: 0 <= j <= k ==> s[4..][4 * j] != '=' {
          forall j | 0 <= j <= k + 1
            ensures s[4 * j] != '='
          {
            if j > 0 {
              assert s[4..][4 * (j - 1)] != '=';
            }
          }
        }
      }
    }
  }

  /** Decoding fails if and only if there is such a group. */
  lemma {:induction false} DecodeFailsExactly(s: string)
    ensures Decode(s).Err? <==> exists k :: BrokenGroup(s, k)
    decreases |s|
  {
    hide GroupBytes, IndexOf, BrokenGroup, ALPHABET;
    FirstGroup(s);
    if s == "" || s[0] == '=' {
      NothingBroken(s);
    } else if |s| >= 4 && !BrokenGroup(s, 0) {
      DecodeFailsExactly(s[4..]);
      forall k: nat
        ensures BrokenGroup(s[4..], k) <==> BrokenGroup(s, k + 1)
      {
        LaterGroup(s, k);
      }
      if k: nat :| BrokenGroup(s, k) {
        assert k > 0 && BrokenGroup(s[4..], k - 1);
      }
    } else if |s| < 4 {
      ShortGroup(s);
    }
  }

  lemma StartsUnpadded(s: string, k: nat)
    requires BrokenGroup(s, k)
    ensures s != "" && s[0] != '='
  {
    hide ALPHABET;
    assert s[4 * 0] != '=';
  }

  lemma NothingBroken(s: string)
    requires s == "" || s[0] == '='
    ensures !exists k :: BrokenGroup(s, k)
  {
    hide ALPHABET, BrokenGroup;
    if k :| BrokenGroup(s, k) {
      StartsUnpadded(s, k);
    }
  }

  lemma ShortGroup(s: string)
    requires |s| < 4
    ensures forall k :: BrokenGroup(s, k) ==> k == 0
  {
    hide ALPHABET;
  }
}
