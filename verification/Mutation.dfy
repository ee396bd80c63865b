/** Mutation bit by bit: each of the 128 bits of a genome has a draw of its own. */
module Mutation {
  import opened Words
  import opened Random
  import opened Biology

  /** Bit j of a byte, the lowest being bit 0. */
  function Bit(b: byte, j: nat): bool
    requires j < 8
  {
    BvBit(b as bv8, j)
  }

  function BvBit(x: bv8, j: nat): bool
    requires j < 8
  {
    (x >> j) & 1 == 1
  }

  function Xor(x: bv8, bit: nat): bv8
    requires bit < 8
  {
    x ^ (1 << bit)
  }

  /** Bit k of a genome, counted from the lowest bit of its first byte. */
  function GenomeBit(g: Genome, k: nat): bool
    requires k < 8 * GENOME_LENGTH
  {
    Bit(g[k / 8], k % 8)
  }

  /** Whether the draw that is n bits ahead flips its bit. */
  function Flips(rng: Rng, rate: real, n: nat): bool {
    if rate <= 0.0 then false
    else if rate >= 1.0 then true
    else rng.units(rng.used + n) < rate
  }

  lemma XorFlips(x: bv8, bit: nat, j: nat)
    requires bit < 8 && j < 8
    ensures BvBit(Xor(x, bit), j) == if j == bit then !BvBit(x, j) else BvBit(x, j)
  {
    XorFlipsBit(x, bit as bv8, j as bv8);
    assert j == bit <==> j as bv8 == bit as bv8;
  }

  lemma XorFlipsBit(x: bv8, bit: bv8, j: bv8)
    requires bit < 8 && j < 8
    ensures ((x ^ (1 << bit)) >> j) & 1 == 1 <==> if j == bit then (x >> j) & 1 != 1 else (x >> j) & 1 == 1
  {
  }

  lemma BitsBack(y: bv8)
    ensures (y as int) as bv8 == y
  {
  }

  lemma FlipIsXor(b: byte, bit: nat)
    requires bit < 8
    ensures FlipBit(b, bit) as bv8 == Xor(b as bv8, bit)
  {
    BitsBack(Xor(b as bv8, bit));
  }

  lemma FlipsOneBit(b: byte, bit: nat, j: nat)
    requires bit < 8 && j < 8
    ensures Bit(FlipBit(b, bit), j) == if j == bit then !Bit(b, j) else Bit(b, j)
  {
    hide FlipBit, Xor, BvBit;
    FlipIsXor(b, bit);
    XorFlips(b as bv8, bit, j);
  }

  lemma FlipsInGenome(g: Genome, i: nat, k: nat)
    requires i < 8 * GENOME_LENGTH && k < 8 * GENOME_LENGTH
    ensures GenomeBit(g[i / 8 := FlipBit(g[i / 8], i % 8)], k) == if k == i then !GenomeBit(g, k) else GenomeBit(g, k)
  {
    hide FlipBit, Bit;
    if k / 8 == i / 8 {
      FlipsOneBit(g[i / 8], i % 8, k % 8);
    }
  }

  /** Each bit from the given one on is flipped exactly when its own draw comes up, and no other bit changes. */
  lemma {:induction false} MutateExactly(g: Genome, rng: Rng, rate: real, from: nat, k: nat)
    requires from <= 8 * GENOME_LENGTH && k < 8 * GENOME_LENGTH
    ensures var flipped := k >= from && Flips(rng, rate, k - from);
            GenomeBit(Mutate(g, rng, rate, from).0, k) == if flipped then !GenomeBit(g, k) else GenomeBit(g, k)
    decreases 8 * GENOME_LENGTH - from
  {
    hide FlipBit, GenomeBit;
    if from < 8 * GENOME_LENGTH {
      var (flip, rng') := Chance(rng, rate);
      var g' := if flip then g[from / 8 := FlipBit(g[from / 8], from % 8)] else g;
      FlipsInGenome(g, from, k);
      MutateExactly(g', rng', rate, from + 1, k);
    }
  }
}
