/**
 Random draws as an oracle: any stream of numbers may come, so a statement about all streams is about all outcomes.
 */
module Random {
  import opened Words

  type Unit = x: real | 0.0 <= x < 1.0

  /** What comes of the draws: a number for a draw from a range of integers, another for one from 0 to 1. */
  datatype Rng = Rng(stream: nat -> nat, units: nat -> Unit, used: nat)

  function UniformInt(rng: Rng, lo: int, hi: int): (r: (int, Rng))
    requires lo <= hi
    ensures lo <= r.0 <= hi
  {
    (lo + rng.stream(rng.used) % (hi - lo + 1), rng.(used := rng.used + 1))
  }

  /** Never for p <= 0 and always for p >= 1, without a draw; otherwise if the draw is below p. */
  function Chance(rng: Rng, p: real): (r: (bool, Rng))
    ensures p <= 0.0 ==> !r.0 && r.1 == rng
    ensures p >= 1.0 ==> r.0 && r.1 == rng
  {
    if p <= 0.0 then (false, rng)
    else if p >= 1.0 then (true, rng)
    else (rng.units(rng.used) < p, rng.(used := rng.used + 1))
  }
}
