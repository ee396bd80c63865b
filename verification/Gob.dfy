/** The .gob container: the compiler's writer, the engine's loader, and their round trip. */
module Gob {
  import opened Words
  import opened Machine

  const MAGIC := 0x474F4C42
  const VERSION := 1
  const HEADER_SIZE := 16

  datatype LoadError =
    | TooSmall | InvalidMagic | UnsupportedVersion | PoolEnds | TruncatedInt | TruncatedLength | TruncatedString
    | UnknownTag | TruncatedCode

  // ---- Writer ----

  function PoolBytes(constants: seq<int32>): seq<byte> {
    if constants == [] then [] else [0x01] + I32Bytes(constants[0]) + PoolBytes(constants[1..])
  }

  /** The header's counts fit their fields. */
  predicate Fits(code: seq<byte>, localCount: nat, constants: seq<int32>) {
    |code| < 0x1_0000_0000 && localCount < 0x1_0000 && |constants| < 0x1_0000
  }

  function HeaderBytes(constCount: nat, codeSize: nat, localCount: nat): (s: seq<byte>)
    requires codeSize < 0x1_0000_0000 && localCount < 0x1_0000 && constCount < 0x1_0000
    ensures |s| == HEADER_SIZE
  {
    U32Bytes(MAGIC) + U16Bytes(VERSION) + U16Bytes(constCount) + U32Bytes(codeSize) + U16Bytes(localCount) + U16Bytes(0)
  }

  /** None when a count does not fit its header field. */
  function Emit(code: seq<byte>, localCount: nat, constants: seq<int32>): Option<seq<byte>> {
    if !Fits(code, localCount, constants) then None
    else Some(HeaderBytes(|constants|, |code|, localCount) + PoolBytes(constants) + code)
  }

  method EmitGob(code: seq<byte>, localCount: nat, constants: seq<int32>) returns (r: Option<seq<byte>>)
    ensures r == Emit(code, localCount, constants)
  {
    hide I32Bytes, HeaderBytes;
    var constPool: seq<byte> := [];
    for i := 0 to |constants|
      invariant PoolBytes(constants) == constPool + PoolBytes(constants[i..])
    {
      assert constants[i..][1..] == constants[i + 1..];
      PoolMore(constPool, constants[i], PoolBytes(constants[i + 1..]));
      constPool := constPool + [0x01];
      constPool := constPool + I32Bytes(constants[i]);
    }
    assert constants[|constants|..] == [] && constPool + [] == constPool;
    if |code| >= 0x1_0000_0000 || localCount >= 0x1_0000 || |constants| >= 0x1_0000 {
      return None;
    }
    var header := HeaderBytes(|constants|, |code|, localCount);
    return Some(header + constPool + code);
  }

  lemma PoolMore(done: seq<byte>, c: int32, rest: seq<byte>)
    ensures done + ([0x01] + I32Bytes(c) + rest) == done + [0x01] + I32Bytes(c) + rest
  {
  }

  // ---- Loader ----

  datatype Pool = Pool(constants: seq<Constant>, offset: nat)

  /** Reads count constants from offset on; every read is inside the blob. */
  function LoadPool(blob: seq<byte>, count: nat, offset: nat): (r: Result<Pool, LoadError>)
    requires offset <= |blob|
    ensures r.Ok? ==> offset <= r.value.offset <= |blob| && |r.value.constants| == count
  {
    if count == 0 then Ok(Pool([], offset))
    else if offset >= |blob| then Err(PoolEnds)
    else if blob[offset] == 0x01 then
      if offset + 5 > |blob| then Err(TruncatedInt)
      else
        var rest :- LoadPool(blob, count - 1, offset + 5);
        Ok(Pool([IntConst(I32At(blob, offset + 1))] + rest.constants, rest.offset))
    else if blob[offset] == 0x02 then
      if offset + 3 > |blob| then Err(TruncatedLength)
      else
        var len := U16At(blob, offset + 1);
        if offset + 3 + len > |blob| then Err(TruncatedString)
        else
          var rest :- LoadPool(blob, count - 1, offset + 3 + len);
          Ok(Pool([StrConst(blob[offset + 3..offset + 3 + len])] + rest.constants, rest.offset))
    else Err(UnknownTag)
  }

  function Load(blob: seq<byte>): Result<Bytecode, LoadError> {
    if |blob| < HEADER_SIZE then Err(TooSmall)
    else if U32At(blob, 0) != MAGIC then Err(InvalidMagic)
    else if U16At(blob, 4) != VERSION then Err(UnsupportedVersion)
    else
      var pool :- LoadPool(blob, U16At(blob, 6), HEADER_SIZE);
      var codeSize := U32At(blob, 8);
      if pool.offset + codeSize > |blob| then Err(TruncatedCode)
      else Ok(Bytecode(blob[pool.offset..pool.offset + codeSize], U16At(blob, 12), pool.constants))
  }

  /** The constants that are done, in front of the rest of the pool. */
  ghost function PoolBehind(done: seq<Constant>, rest: Result<Pool, LoadError>): (r: Result<Pool, LoadError>)
    ensures done == [] ==> r == rest
  {
    match rest
    case Ok(p) => assert done == [] ==> done + p.constants == p.constants; Ok(Pool(done + p.constants, p.offset))
    case Err(e) => Err(e)
  }

  lemma PoolBehindMore(done: seq<Constant>, c: Constant, rest: Result<Pool, LoadError>)
    ensures rest.Ok? ==>
              PoolBehind(done + [c], rest) == Ok(Pool(done + ([c] + rest.value.constants), rest.value.offset))
  {
    if rest.Ok? {
      assert done + ([c] + rest.value.constants) == (done + [c]) + rest.value.constants;
    }
  }

  method LoadBytecode(blob: seq<byte>) returns (r: Result<Bytecode, LoadError>)
    ensures r == Load(blob)
  {
    hide I32At, U16At, U32At, LoadPool;
    if |blob| < 16 {
      return Err(TooSmall);
    }
    if U32At(blob, 0) != MAGIC {
      return Err(InvalidMagic);
    }
    if U16At(blob, 4) != VERSION {
      return Err(UnsupportedVersion);
    }
    var constCount := U16At(blob, 6);
    var codeSize := U32At(blob, 8);
    var localCount := U16At(blob, 12);
    var pool := LoadConstants(blob, constCount);
    if pool.Err? {
      return Err(pool.error);
    }
    var offset := pool.value.offset;
    if offset + codeSize > |blob| {
      return Err(TruncatedCode);
    }
    return Ok(Bytecode(blob[offset..offset + codeSize], localCount, pool.value.constants));
  }

  /** The loop over the constant pool, which begins behind the header. */
  method LoadConstants(blob: seq<byte>, constCount: nat) returns (r: Result<Pool, LoadError>)
    requires |blob| >= HEADER_SIZE
    ensures r == LoadPool(blob, constCount, HEADER_SIZE)
  {
    hide I32At, U16At;
    var constants: seq<Constant> := [];
    var offset := HEADER_SIZE;
    for i := 0 to constCount
      invariant HEADER_SIZE <= offset <= |blob|
      invariant LoadPool(blob, constCount, HEADER_SIZE) == PoolBehind(constants, LoadPool(blob, constCount - i, offset))
    {
      if offset >= |blob| {
        return Err(PoolEnds);
      }
      var tag := blob[offset];
      var left := constCount - i - 1;
      if tag == 0x01 {
        if offset + 5 > |blob| {
          return Err(TruncatedInt);
        }
        var c := IntConst(I32At(blob, offset + 1));
        PoolBehindMore(constants, c, LoadPool(blob, left, offset + 5));
        constants := constants + [c];
        offset := offset + 5;
      } else if tag == 0x02 {
        if offset + 3 > |blob| {
          return Err(TruncatedLength);
        }
        var len := U16At(blob, offset + 1);
        if offset + 3 + len > |blob| {
          return Err(TruncatedString);
        }
        var c := StrConst(blob[offset + 3..offset + 3 + len]);
        PoolBehindMore(constants, c, LoadPool(blob, left, offset + 3 + len));
        constants := constants + [c];
        offset := offset + 3 + len;
      } else {
        return Err(UnknownTag);
      }
    }
    assert constants + [] == constants;
    return Ok(Pool(constants, offset));
  }

  // ---- Round trip ----

  function IntConsts(constants: seq<int32>): seq<Constant> {
    if constants == [] then [] else [IntConst(constants[0])] + IntConsts(constants[1..])
  }

  /** The first constant of a pool in its place. */
  lemma ConstantAt(before: seq<byte>, bytes: seq<byte>, rest: seq<byte>, after: seq<byte>)
    requires |bytes| == 4
    ensures var blob := before + ([0x01] + bytes + rest) + after;
            && blob == before + [0x01] + bytes + rest + after
            && |blob| >= |before| + 5 && blob[|before|] == 0x01 && blob[|before| + 1..|before| + 1 + 4] == bytes
  {
    var blob := before + ([0x01] + bytes + rest) + after;
    assert blob[|before|..|before| + 1] == [0x01];
    assert blob[|before|] == blob[|before|..|before| + 1][0];
  }

  lemma {:induction false} PoolReadBack(before: seq<byte>, constants: seq<int32>, after: seq<byte>)
    ensures LoadPool(before + PoolBytes(constants) + after, |constants|, |before|)
         == Ok(Pool(IntConsts(constants), |before| + |PoolBytes(constants)|))
    decreases constants
  {
    if constants != [] {
      hide I32Bytes, I32At, U16At;
      var bytes := I32Bytes(constants[0]);
      var rest := PoolBytes(constants[1..]);
      assert PoolBytes(constants) == [0x01] + bytes + rest;
      assert IntConsts(constants) == [IntConst(constants[0])] + IntConsts(constants[1..]);
      hide PoolBytes, IntConsts;
      var front := before + [0x01] + bytes;
      var blob := before + PoolBytes(constants) + after;
      ConstantAt(before, bytes, rest, after);
      I32RoundTrip(blob, |before| + 1, constants[0]);
      PoolReadBack(front, constants[1..], after);
    }
  }

  lemma HeaderReadBack(constCount: nat, codeSize: nat, localCount: nat, rest: seq<byte>)
    requires codeSize < 0x1_0000_0000 && localCount < 0x1_0000 && constCount < 0x1_0000
    ensures var blob := HeaderBytes(constCount, codeSize, localCount) + rest;
            && U32At(blob, 0) == MAGIC && U16At(blob, 4) == VERSION && U16At(blob, 6) == constCount
            && U32At(blob, 8) == codeSize && U16At(blob, 12) == localCount
  {
    hide U32Bytes, U16Bytes, U32At, U16At;
    var blob := HeaderBytes(constCount, codeSize, localCount) + rest;
    assert blob[0..0 + 4] == U32Bytes(MAGIC);
    assert blob[4..4 + 2] == U16Bytes(VERSION);
    assert blob[6..6 + 2] == U16Bytes(constCount);
    assert blob[8..8 + 4] == U32Bytes(codeSize);
    assert blob[12..12 + 2] == U16Bytes(localCount);
    U32RoundTrip(blob, 0, MAGIC);
    U16RoundTrip(blob, 4, VERSION);
    U16RoundTrip(blob, 6, constCount);
    U32RoundTrip(blob, 8, codeSize);
    U16RoundTrip(blob, 12, localCount);
  }

  /** Loading what the writer wrote gives back the code, the local count and the constants. */
  lemma LoadInvertsEmit(code: seq<byte>, localCount: nat, constants: seq<int32>)
    requires Fits(code, localCount, constants)
    ensures Load(Emit(code, localCount, constants).value) == Ok(Bytecode(code, localCount, IntConsts(constants)))
  {
    hide HeaderBytes, PoolBytes, U32At, U16At, LoadPool, IntConsts;
    var header := HeaderBytes(|constants|, |code|, localCount);
    var pool := PoolBytes(constants);
    var blob := header + pool + code;
    assert blob == header + (pool + code);
    HeaderReadBack(|constants|, |code|, localCount, pool + code);
    PoolReadBack(header, constants, code);
    assert blob[|header| + |pool|..|header| + |pool| + |code|] == code;
  }

  predicate StandsAt(blob: seq<byte>, start: nat, part: seq<byte>) {
    start + |part| <= |blob| && blob[start..start + |part|] == part
  }

  /** A loaded program is cut out of the blob: its code is a slice that lies behind the header. */
  lemma LoadedInsideBlob(blob: seq<byte>)
    requires Load(blob).Ok?
    ensures var bc := Load(blob).value;
            exists start: nat :: HEADER_SIZE <= start && StandsAt(blob, start, bc.code)
    ensures |Load(blob).value.code| == U32At(blob, 8) && |Load(blob).value.constants| == U16At(blob, 6)
  {
    hide LoadPool, U32At, U16At;
    var start := LoadPool(blob, U16At(blob, 6), HEADER_SIZE).value.offset;
    assert StandsAt(blob, start, Load(blob).value.code);
  }
}
