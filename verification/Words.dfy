/**
 Machine words: 32-bit wrap-around arithmetic as the VM's C++ does it, and the
 little-endian byte codes that the compiler writes and the VM and loader read.
 */
module Words {
  type byte = x: int | 0 <= x < 0x100
  type int32 = x: int | -0x8000_0000 <= x < 0x8000_0000

  datatype Option<+T> = None | Some(value: T)

  datatype Result<+T, +E> = Ok(value: T) | Err(error: E) {
    predicate IsFailure() { Err? }

    function PropagateFailure<U>(): Result<U, E>
      requires Err?
    {
      Err(error)
    }

    function Extract(): T
      requires Ok?
    {
      value
    }
  }

  /** What is still to come, behind what is done: the invariant of loops that collect a sequence. */
  function Behind<T, E>(done: seq<T>, rest: Result<seq<T>, E>): (r: Result<seq<T>, E>)
    ensures done == [] ==> r == rest
  {
    match rest
    case Ok(c) => assert done == [] ==> done + c == c; Ok(done + c)
    case Err(e) => Err(e)
  }

  lemma BehindMore<T, E>(done: seq<T>, c: seq<T>, rest: Result<seq<T>, E>)
    ensures rest.Ok? ==> Behind(done + c, rest) == Ok(done + (c + rest.value))
  {
    if rest.Ok? {
      assert done + (c + rest.value) == (done + c) + rest.value;
    }
  }

  function Max(a: nat, b: nat): nat {
    if a > b then a else b
  }

  // ---- Wrapping arithmetic ----

  /** The int32 congruent to x modulo 2^32. */
  function Wrap(x: int): (r: int32)
    ensures (r - x) % 0x1_0000_0000 == 0
    ensures -0x8000_0000 <= x < 0x8000_0000 ==> r == x
  {
    var m := x % 0x1_0000_0000;
    if m < 0x8000_0000 then m else m - 0x1_0000_0000
  }

  /** C++ division: truncates toward zero. */
  function TruncDiv(a: int, b: int): int
    requires b != 0
  {
    if a >= 0 then
      if b > 0 then a / b else -(a / -b)
    else
      if b > 0 then -(-a / b) else -a / -b
  }

  /** C++ remainder: takes the sign of the dividend. */
  function TruncMod(a: int, b: int): int
    requires b != 0
  {
    a - b * TruncDiv(a, b)
  }

  // ---- Little-endian codes ----

  function U16Bytes(v: int): (s: seq<byte>)
    requires 0 <= v < 0x1_0000
    ensures |s| == 2
  {
    [v % 0x100, v / 0x100]
  }

  function I16Bytes(v: int): (s: seq<byte>)
    requires -0x8000 <= v < 0x8000
    ensures |s| == 2
  {
    U16Bytes(if v < 0 then v + 0x1_0000 else v)
  }

  function U32Bytes(v: int): (s: seq<byte>)
    requires 0 <= v < 0x1_0000_0000
    ensures |s| == 4
  {
    [v % 0x100, v / 0x100 % 0x100, v / 0x1_0000 % 0x100, v / 0x100_0000]
  }

  function I32Bytes(v: int32): (s: seq<byte>)
    ensures |s| == 4
  {
    U32Bytes(if v < 0 then v + 0x1_0000_0000 else v)
  }

  function U16At(s: seq<byte>, i: nat): (v: int)
    requires i + 2 <= |s|
    ensures 0 <= v < 0x1_0000
  {
    s[i] as int + 0x100 * s[i + 1] as int
  }

  /** Sign extension from 16 bits. */
  function I16At(s: seq<byte>, i: nat): (v: int)
    requires i + 2 <= |s|
    ensures -0x8000 <= v < 0x8000
  {
    var u := U16At(s, i);
    if u >= 0x8000 then u - 0x1_0000 else u
  }

  function U32At(s: seq<byte>, i: nat): (v: int)
    requires i + 4 <= |s|
    ensures 0 <= v < 0x1_0000_0000
  {
    s[i] as int + 0x100 * s[i + 1] as int + 0x1_0000 * s[i + 2] as int + 0x100_0000 * s[i + 3] as int
  }

  function I32At(s: seq<byte>, i: nat): int32
    requires i + 4 <= |s|
  {
    var u := U32At(s, i);
    if u >= 0x8000_0000 then u - 0x1_0000_0000 else u
  }

  lemma U16RoundTrip(s: seq<byte>, i: nat, v: int)
    requires 0 <= v < 0x1_0000 && i + 2 <= |s| && s[i..i + 2] == U16Bytes(v)
    ensures U16At(s, i) == v
  {
    assert s[i] == s[i..i + 2][0] && s[i + 1] == s[i..i + 2][1];
  }

  lemma I16RoundTrip(s: seq<byte>, i: nat, v: int)
    requires -0x8000 <= v < 0x8000 && i + 2 <= |s| && s[i..i + 2] == I16Bytes(v)
    ensures I16At(s, i) == v
  {
    U16RoundTrip(s, i, if v < 0 then v + 0x1_0000 else v);
  }

  lemma U32RoundTrip(s: seq<byte>, i: nat, v: int)
    requires 0 <= v < 0x1_0000_0000 && i + 4 <= |s| && s[i..i + 4] == U32Bytes(v)
    ensures U32At(s, i) == v
  {
    var t := s[i..i + 4];
    assert s[i] == t[0] && s[i + 1] == t[1] && s[i + 2] == t[2] && s[i + 3] == t[3];
    assert v / 0x100 / 0x100 == v / 0x1_0000;
    assert v / 0x1_0000 / 0x100 == v / 0x100_0000;
  }

  lemma I32RoundTrip(s: seq<byte>, i: nat, v: int32)
    requires i + 4 <= |s| && s[i..i + 4] == I32Bytes(v)
    ensures I32At(s, i) == v
  {
    U32RoundTrip(s, i, if v < 0 then v + 0x1_0000_0000 else v);
  }

  // ---- Division ----

  /** Quotient and remainder are determined by their equation. */
  lemma ModIs(v: int, size: int, q: int, r: int)
    requires size > 0 && 0 <= r < size && v == size * q + r
    ensures v % size == r && v / size == q
  {
    var d := v / size - q;
    assert size * (v / size) == size * q + size * d;
    assert d >= 1 ==> size * d >= size;
    assert d <= -1 ==> size * d <= -size;
  }
}
