/** How a first world is drawn: shares of terrain and minerals. */
module Founding {
  import opened Random
  import opened Biology
  import opened Engine

  // ---- Terrain ----

  /** How many of the first n rolls select a terrain. */
  function RollsFor(t: Terrain, n: nat): nat {
    if n == 0 then 0 else (if TerrainOf(n - 1) == t then 1 else 0) + RollsFor(t, n - 1)
  }

  /** Of 100 rolls the first thirty give forest, ten more water, another ten rock, and the last fifty plain. */
  lemma {:induction false} TerrainShares(n: nat)
    requires n <= 100
    ensures RollsFor(Forest, n) == if n < 30 then n else 30
    ensures RollsFor(Water, n) == if n < 30 then 0 else if n < 40 then n - 30 else 10
    ensures RollsFor(Rock, n) == if n < 40 then 0 else if n < 50 then n - 40 else 10
    ensures RollsFor(Plain, n) == if n < 50 then 0 else n - 50
  {
    if n > 0 {
      TerrainShares(n - 1);
    }
  }

  // ---- Minerals ----

  /** The rock cells from i to below j. */
  function Rocks(terrain: seq<Terrain>, i: nat, j: nat): nat
    requires i <= j <= |terrain|
    decreases j - i
  {
    if i == j then 0 else (if terrain[i] == Rock then 1 else 0) + Rocks(terrain, i + 1, j)
  }

  /** Each rock cell in its turn gets one unit if its own draw is below 0.3; all other cells stay. */
  lemma {:induction false} MinesExactly(terrain: seq<Terrain>, cells: seq<nat>, i: nat, rng: Rng, j: nat)
    requires i <= |terrain| == |cells| && j < |terrain|
    ensures var mined := Mine(terrain, cells, i, rng).0;
            |mined| == |cells|
            && mined[j] == if i <= j && terrain[j] == Rock && rng.units(rng.used + Rocks(terrain, i, j)) < 0.3 then 1
                           else cells[j]
    decreases |terrain| - i
  {
    if i < |terrain| {
      if terrain[i] == Rock {
        var (lucky, rng') := Chance(rng, 0.3);
        MinesExactly(terrain, if lucky then cells[i := 1] else cells, i + 1, rng', j);
      } else {
        MinesExactly(terrain, cells, i + 1, rng, j);
      }
    }
  }
}
