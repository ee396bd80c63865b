/** Grids of 0/1 cells as bit fields, most significant bit first. */
module BitFields {
  import opened Words
  import Base64

  function Mask(j: nat): bv8
    requires j < 8
  {
    1 << (7 - j)
  }

  predicate BitSet(b: bv8, j: nat)
    requires j < 8
  {
    b & Mask(j) != 0
  }

  /** Setting one bit leaves the others alone. */
  lemma OrSetsOneBit(b: bv8, j: nat, i: nat)
    requires j < 8 && i < 8
    ensures BitSet(b | Mask(j), i) <==> i == j || BitSet(b, i)
  {
  }

  /** Shifting a bit to the bottom and masking reads it. */
  lemma ShiftReadsBit(b: bv8, j: nat)
    requires j < 8
    ensures (b >> (7 - j)) & 1 == if BitSet(b, j) then 1 else 0
  {
  }

  lemma NoBitsOfZero(j: nat)
    requires j < 8
    ensures !BitSet(0, j)
  {
  }

  function PackedSize(n: nat): nat {
    (n + 7) / 8
  }

  /** Bit i of the field, counted across bytes. */
  predicate FieldBit(packed: seq<bv8>, i: nat)
    requires i / 8 < |packed|
  {
    BitSet(packed[i / 8], i % 8)
  }

  /** packed is the bit field of the first n cells; its spare bits are zero. */
  ghost predicate IsPacked(packed: seq<bv8>, cells: seq<nat>, n: nat)
    requires n <= |cells|
  {
    && |packed| == PackedSize(|cells|)
    && forall i: nat :: i / 8 < |packed| ==> (FieldBit(packed, i) <==> i < n && cells[i] != 0)
  }

  method PackBits(cells: seq<nat>) returns (packed: seq<bv8>)
    ensures IsPacked(packed, cells, |cells|)
  {
    hide BitSet, Mask;
    var bytes := new bv8[PackedSize(|cells|)](_ => 0);
    forall i: nat | i / 8 < bytes.Length ensures !FieldBit(bytes[..], i) {
      NoBitsOfZero(i % 8);
    }
    for i := 0 to |cells|
      invariant IsPacked(bytes[..], cells, i)
    {
      if cells[i] != 0 {
        ghost var before := bytes[..];
        bytes[i / 8] := bytes[i / 8] | Mask(i % 8);
        OrInField(before, i, bytes[..]);
      }
    }
    return bytes[..];
  }

  lemma OrInField(before: seq<bv8>, i: nat, after: seq<bv8>)
    requires i / 8 < |before| && after == before[i / 8 := before[i / 8] | Mask(i % 8)]
    ensures forall k: nat :: k / 8 < |after| ==> (FieldBit(after, k) <==> k == i || FieldBit(before, k))
  {
    hide BitSet, Mask;
    forall k: nat | k / 8 < |after|
      ensures FieldBit(after, k) <==> k == i || FieldBit(before, k)
    {
      OrSetsOneBit(before[i / 8], i % 8, k % 8);
    }
  }

  /** The cells that a bit field describes; cells beyond its end are 0. */
  function Unpack(packed: seq<bv8>, total: nat): (cells: seq<nat>)
    ensures |cells| == total
  {
    seq(total, i requires 0 <= i < total => if i / 8 < |packed| && FieldBit(packed, i) then 1 else 0)
  }

  method UnpackBits(packed: seq<bv8>, total: nat) returns (cells: seq<nat>)
    ensures cells == Unpack(packed, total)
  {
    hide BitSet, Mask;
    var out := new nat[total](_ => 0);
    for i := 0 to total
      invariant forall k :: 0 <= k < i ==> out[k] == Unpack(packed, total)[k]
      invariant forall k :: i <= k < total ==> out[k] == 0
    {
      if i / 8 < |packed| {
        out[i] := if BitSet(packed[i / 8], i % 8) then 1 else 0;
      }
    }
    assert out[..] == Unpack(packed, total);
    return out[..];
  }

  /** The frontend's decoder shifts and masks instead; it computes the same cells. */
  method FrontendUnpackBits(packed: seq<bv8>, total: nat) returns (cells: seq<nat>)
    ensures cells == Unpack(packed, total)
  {
    hide BitSet, Mask;
    var out := new nat[total](_ => 0);
    for i := 0 to total
      invariant forall k :: 0 <= k < i ==> out[k] == Unpack(packed, total)[k]
      invariant forall k :: i <= k < total ==> out[k] == 0
    {
      var byteIdx := i / 8;
      var bitIdx := 7 - i % 8;
      if byteIdx < |packed| {
        ShiftReadsBit(packed[byteIdx], i % 8);
        out[i] := ((packed[byteIdx] >> bitIdx) & 1) as int;
      }
    }
    assert out[..] == Unpack(packed, total);
    return out[..];
  }

  /** Unpacking gives the cells back exactly when they are all 0 or 1; otherwise it normalizes them to that. */
  lemma UnpackInvertsPack(cells: seq<nat>, packed: seq<bv8>)
    requires IsPacked(packed, cells, |cells|)
    ensures Unpack(packed, |cells|) == cells <==> forall i :: 0 <= i < |cells| ==> cells[i] <= 1
    ensures forall i :: 0 <= i < |cells| ==> Unpack(packed, |cells|)[i] == if cells[i] == 0 then 0 else 1
  {
    hide BitSet;
    var u := Unpack(packed, |cells|);
    forall i | 0 <= i < |cells|
      ensures u[i] == if cells[i] == 0 then 0 else 1
    {
      assert FieldBit(packed, i) <==> cells[i] != 0;
    }
    if u == cells {
      assert forall i :: 0 <= i < |cells| ==> cells[i] == u[i];
    }
  }

  /** The bit field is unique, so packing is a function of the cells. */
  lemma PackedUnique(p: seq<bv8>, q: seq<bv8>, cells: seq<nat>)
    requires IsPacked(p, cells, |cells|) && IsPacked(q, cells, |cells|)
    ensures p == q
  {
    hide BitSet;
    forall m | 0 <= m < |p|
      ensures p[m] == q[m]
    {
      forall j: nat | j < 8
        ensures BitSet(p[m], j) == BitSet(q[m], j)
      {
        var i := m * 8 + j;
        assert i / 8 == m && i % 8 == j;
        assert FieldBit(p, i) == FieldBit(q, i);
      }
      SameBits(p[m], q[m]);
    }
  }

  lemma SameBits(a: bv8, b: bv8)
    requires forall j: nat :: j < 8 ==> BitSet(a, j) == BitSet(b, j)
    ensures a == b
  {
    assert BitSet(a, 0) == BitSet(b, 0) && BitSet(a, 1) == BitSet(b, 1) && BitSet(a, 2) == BitSet(b, 2);
    assert BitSet(a, 3) == BitSet(b, 3) && BitSet(a, 4) == BitSet(b, 4) && BitSet(a, 5) == BitSet(b, 5);
    assert BitSet(a, 6) == BitSet(b, 6) && BitSet(a, 7) == BitSet(b, 7);
  }

  // ---- The whole way: cells, bits, text, and back ----

  function AsBytes(s: seq<bv8>): (r: seq<byte>)
    ensures |r| == |s|
  {
    seq(|s|, i requires 0 <= i < |s| => s[i] as int)
  }

  function AsBits(s: seq<byte>): (r: seq<bv8>)
    ensures |r| == |s|
  {
    seq(|s|, i requires 0 <= i < |s| => s[i] as bv8)
  }

  lemma BitsOfBytes(s: seq<bv8>)
    ensures AsBits(AsBytes(s)) == s
  {
  }

  /** A resource grid as a snapshot writes it. */
  method EncodeGrid(cells: seq<nat>) returns (text: string)
    ensures exists packed :: IsPacked(packed, cells, |cells|) && text == Base64.Encode(AsBytes(packed))
  {
    var packed := PackBits(cells);
    text := Base64.Base64Encode(AsBytes(packed));
  }

  /** A resource grid as a snapshot reader, or the frontend, reads it. */
  function DecodeGrid(text: string, total: nat): Result<seq<nat>, Base64.DecodeError> {
    var bytes :- Base64.Decode(text);
    Ok(Unpack(AsBits(bytes), total))
  }

  /** The text of a 0/1 grid of any size is read back as the same grid. */
  lemma GridTextReadBack(cells: seq<nat>, packed: seq<bv8>)
    requires IsPacked(packed, cells, |cells|) && forall i :: 0 <= i < |cells| ==> cells[i] <= 1
    ensures DecodeGrid(Base64.Encode(AsBytes(packed)), |cells|) == Ok(cells)
  {
    hide Base64.Decode, Base64.Encode, Unpack, IsPacked;
    Base64.DecodeInvertsEncode(AsBytes(packed));
    BitsOfBytes(packed);
    UnpackInvertsPack(cells, packed);
  }
}
