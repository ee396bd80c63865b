/** The .gob format byte by byte, and the loader as its exact reader. */
module GobLayout {
  import opened Words
  import opened Machine
  import Gob

  /** A number in two or four bytes, the lowest first. */
  predicate Two(b: seq<byte>, i: nat, v: int)
    requires i + 2 <= |b|
  {
    v == b[i] as int + 256 * b[i + 1] as int
  }

  predicate Four(b: seq<byte>, i: nat, v: int)
    requires i + 4 <= |b|
  {
    v == b[i] as int + 256 * b[i + 1] as int + 65536 * b[i + 2] as int + 16777216 * b[i + 3] as int
  }

  /** A constant is a tag and its bytes: 1 and a signed 32-bit number, or 2, a length and that many bytes. */
  ghost predicate ConstantText(c: Constant, b: seq<byte>) {
    match c
    case IntConst(n) => |b| == 5 && b[0] == 1 && Four(b, 1, if n < 0 then n as int + 4294967296 else n)
    case StrConst(s) => |b| == 3 + |s| && b[0] == 2 && Two(b, 1, |s|) && b[3..] == s
  }

  /** The constants one after the other, from position i to position j. */
  ghost predicate PoolText(cs: seq<Constant>, b: seq<byte>, i: nat, j: nat) {
    if cs == [] then i == j
    else exists k: nat | i <= k <= j <= |b| :: ConstantText(cs[0], b[i..k]) && PoolText(cs[1..], b, k, j)
  }

  /**
   A blob that holds a program: "BLOG" as the little-endian number 0x474F4C42 is stored, version 1, the counts, two
   bytes of flags, the constants, the code, and anything behind it.
   */
  ghost predicate BlobText(bc: Bytecode, b: seq<byte>) {
    && |b| >= 16 && b[0] == 0x42 && b[1] == 0x4C && b[2] == 0x4F && b[3] == 0x47 && Two(b, 4, 1)
    && Two(b, 6, |bc.constants|) && Four(b, 8, |bc.code|) && Two(b, 12, bc.localCount)
    && exists j: nat | 16 <= j && j + |bc.code| <= |b| ::
         PoolText(bc.constants, b, 16, j) && b[j..j + |bc.code|] == bc.code
  }

  lemma NumbersAre(b: seq<byte>, i: nat)
    ensures i + 2 <= |b| ==> forall v :: Two(b, i, v) <==> v == U16At(b, i)
    ensures i + 4 <= |b| ==> forall v :: Four(b, i, v) <==> v == U32At(b, i)
  {
  }

  lemma ConstantIs(b: seq<byte>, i: nat, k: nat, c: Constant)
    requires i <= k <= |b|
    ensures ConstantText(c, b[i..k]) <==>
              i < |b| && (
                || (b[i] == 1 && k == i + 5 && c == IntConst(I32At(b, i + 1)))
                || (b[i] == 2 && i + 3 <= k && k == i + 3 + U16At(b, i + 1) && c == StrConst(b[i + 3..k])))
  {
    var t := b[i..k];
    assert forall m :: 0 <= m < |t| ==> t[m] == b[i + m];
    if |t| >= 3 {
      assert t[3..] == b[i + 3..k];
    }
  }

  /** The loader reads a pool exactly when it is there. */
  lemma {:induction false} PoolExactly(b: seq<byte>, cs: seq<Constant>, i: nat, j: nat)
    requires i <= |b|
    ensures Gob.LoadPool(b, |cs|, i) == Ok(Gob.Pool(cs, j)) <==> PoolText(cs, b, i, j)
    decreases |cs|
  {
    hide I32At, U16At, ConstantText;
    if cs != [] {
      var r := Gob.LoadPool(b, |cs|, i);
      if r == Ok(Gob.Pool(cs, j)) {
        var k := if b[i] == 1 then i + 5 else i + 3 + U16At(b, i + 1);
        ConstantIs(b, i, k, cs[0]);
        PoolExactly(b, cs[1..], k, j);
        PoolStays(b, cs[1..], k, j);
      }
      if PoolText(cs, b, i, j) {
        var k: nat :| i <= k <= j <= |b| && ConstantText(cs[0], b[i..k]) && PoolText(cs[1..], b, k, j);
        ConstantIs(b, i, k, cs[0]);
        PoolExactly(b, cs[1..], k, j);
        assert cs == [cs[0]] + cs[1..];
      }
    }
  }

  lemma PoolStays(b: seq<byte>, cs: seq<Constant>, i: nat, j: nat)
    requires i <= |b| && Gob.LoadPool(b, |cs|, i) == Ok(Gob.Pool(cs, j))
    ensures i <= j <= |b|
  {
  }

  lemma HeaderIs(b: seq<byte>)
    requires |b| >= 16
    ensures U32At(b, 0) == Gob.MAGIC <==> b[0] == 0x42 && b[1] == 0x4C && b[2] == 0x4F && b[3] == 0x47
    ensures U16At(b, 4) == Gob.VERSION <==> Two(b, 4, 1)
    ensures forall v :: Two(b, 6, v) <==> v == U16At(b, 6)
    ensures forall v :: Two(b, 12, v) <==> v == U16At(b, 12)
    ensures forall v :: Four(b, 8, v) <==> v == U32At(b, 8)
  {
  }

  /** The loader accepts exactly the blobs of the format, each as the program that it holds. */
  lemma LoadsExactly(b: seq<byte>, bc: Bytecode)
    ensures Gob.Load(b) == Ok(bc) <==> BlobText(bc, b)
  {
    hide U16At, U32At, Gob.LoadPool, PoolText, Two, Four;
    if |b| >= 16 {
      HeaderIs(b);
      hide Gob.MAGIC, Gob.VERSION;
      var pool := Gob.LoadPool(b, U16At(b, 6), 16);
      if Gob.Load(b) == Ok(bc) {
        PoolExactly(b, bc.constants, 16, pool.value.offset);
      }
      if BlobText(bc, b) {
        var j: nat :| 16 <= j && j + |bc.code| <= |b| && PoolText(bc.constants, b, 16, j)
                      && b[j..j + |bc.code|] == bc.code;
        PoolExactly(b, bc.constants, 16, j);
      }
    }
  }

  /** What the compiler writes is such a blob, with nothing behind the code and no flags. */
  lemma WritesExactly(code: seq<byte>, localCount: nat, constants: seq<int32>)
    requires Gob.Fits(code, localCount, constants)
    ensures var b := Gob.Emit(code, localCount, constants).value;
            && BlobText(Bytecode(code, localCount, Gob.IntConsts(constants)), b)
            && |b| == 16 + 5 * |constants| + |code| && b[14] == 0 && b[15] == 0
  {
    hide BlobText, Gob.Load, Gob.IntConsts, Gob.HeaderBytes, Gob.PoolBytes;
    Gob.LoadInvertsEmit(code, localCount, constants);
    LoadsExactly(Gob.Emit(code, localCount, constants).value, Bytecode(code, localCount, Gob.IntConsts(constants)));
    PoolSize(constants);
    FlagsAreZero(|constants|, |code|, localCount);
  }

  lemma {:induction false} PoolSize(constants: seq<int32>)
    ensures |Gob.PoolBytes(constants)| == 5 * |constants|
  {
    hide I32Bytes;
    if constants != [] {
      PoolSize(constants[1..]);
    }
  }

  lemma FlagsAreZero(constCount: nat, codeSize: nat, localCount: nat)
    requires codeSize < 0x1_0000_0000 && localCount < 0x1_0000 && constCount < 0x1_0000
    ensures var h := Gob.HeaderBytes(constCount, codeSize, localCount); h[14] == 0 && h[15] == 0
  {
  }
}
