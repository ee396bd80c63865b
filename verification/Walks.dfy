/** Where agents go in a step, what they leave behind, and what they pay: from the draws alone. */
module Walks {
  import opened Words
  import opened Random
  import opened Biology
  import opened Torus
  import opened Life
  import opened LifeProperties

  // ---- Directions ----

  /** One cell up, right, down or left, around the edges: y grows downwards. */
  function Neighbour(p: Position, way: nat, width: nat, height: nat): Position
    requires way < 4 && width > 0 && height > 0
  {
    if way == 0 then Position(p.x % width, (p.y - 1) % height)
    else if way == 1 then Position((p.x + 1) % width, p.y % height)
    else if way == 2 then Position(p.x % width, (p.y + 1) % height)
    else Position((p.x - 1) % width, p.y % height)
  }

  lemma StepsToNeighbour(p: Position, way: nat, land: ValidLand)
    requires way < 4
    ensures Step(p, DirectionOf(way), land) == Neighbour(p, way, land.width, land.height)
  {
  }

  /** Turns are quarter turns: to the right along the order of the directions, to the left against it. */
  lemma TurnsAreQuarters(way: nat)
    requires way < 4
    ensures TurnRight(DirectionOf(way)) == DirectionOf((way + 1) % 4)
    ensures TurnLeft(DirectionOf(way)) == DirectionOf((way + 3) % 4)
  {
  }

  // ---- The walk of a step ----

  /** The positions after each of n moves; each takes one draw. */
  function Path(p: Position, rng: Rng, n: nat, width: nat, height: nat): (r: seq<Position>)
    requires width > 0 && height > 0
    ensures |r| == n
    decreases n
  {
    if n == 0 then []
    else
      var q := Neighbour(p, rng.stream(rng.used) % 4, width, height);
      [q] + Path(q, rng.(used := rng.used + 1), n - 1, width, height)
  }

  ghost predicate Visits(path: seq<Position>, i: nat, land: ValidLand) {
    exists k :: 0 <= k < |path| && CellOf(path[k], land) == i
  }

  /** What entering the cells of a path costs beyond the ordinary. */
  function Toll(path: seq<Position>, swim: int, land: ValidLand): int {
    if path == [] then 0
    else EntryCost(land.terrain[CellOf(path[0], land)], swim) - 1 + Toll(path[1..], swim, land)
  }

  /** The cells of the path are emptied, and nothing else changes. */
  ghost predicate Harvested(path: seq<Position>, before: ValidLand, after: ValidLand) {
    && after.width == before.width && after.height == before.height && after.terrain == before.terrain
    && forall i :: 0 <= i < |before.terrain| ==>
         if Visits(path, i, before) then after.food[i] == 0 && after.water[i] == 0 && after.mineral[i] == 0
         else && after.food[i] == before.food[i] && after.water[i] == before.water[i]
              && after.mineral[i] == before.mineral[i]
  }

  function Last(p: Position, path: seq<Position>): Position {
    if path == [] then p else path[|path| - 1]
  }

  lemma HarvestedFirst(q: Position, path: seq<Position>, land: ValidLand, mid: ValidLand, after: ValidLand)
    requires var i := CellOf(q, land);
             mid == land.(food := land.food[i := 0], water := land.water[i := 0], mineral := land.mineral[i := 0])
    requires Harvested(path, mid, after)
    ensures Harvested([q] + path, land, after)
  {
    hide Index;
    var all := [q] + path;
    forall i | 0 <= i < |land.terrain|
      ensures Visits(all, i, land) <==> CellOf(q, land) == i || Visits(path, i, mid)
    {
      if Visits(path, i, mid) {
        var k :| 0 <= k < |path| && CellOf(path[k], mid) == i;
        assert all[k + 1] == path[k];
      }
      if CellOf(q, land) == i {
        assert all[0] == q;
      }
      if Visits(all, i, land) && CellOf(q, land) != i {
        var k :| 0 <= k < |all| && CellOf(all[k], land) == i;
        assert path[k - 1] == all[k];
      }
    }
  }

  lemma {:induction false} TollIgnoresHarvest(path: seq<Position>, swim: int, a: ValidLand, b: ValidLand)
    requires a.width == b.width && a.height == b.height && a.terrain == b.terrain
    ensures Toll(path, swim, a) == Toll(path, swim, b)
  {
    if path != [] {
      TollIgnoresHarvest(path[1..], swim, a, b);
    }
  }

  /** The moves of a step follow the path of their draws, empty its cells and cost its toll. */
  lemma {:induction false} MovesWalk(a: Agent, t: Traits, n: nat, land: ValidLand, rng: Rng)
    ensures var r, path := Moves(a, t, n, land, rng), Path(a.pos, rng, n, land.width, land.height);
            && r.agent.pos == Last(a.pos, path) && r.rng == rng.(used := rng.used + n)
            && Harvested(path, land, r.land) && Surcharges(a, t, n, land, rng) == Toll(path, t.swim, land)
            && r.agent == a.(pos := r.agent.pos, energy := r.agent.energy, hydration := r.agent.hydration)
    decreases n
  {
    hide Step, CellOf, EntryCost, Neighbour;
    if n > 0 {
      var way := rng.stream(rng.used) % 4;
      var rng' := rng.(used := rng.used + 1);
      assert UniformInt(rng, 0, 3) == (way, rng');
      StepsToNeighbour(a.pos, way, land);
      var q := Neighbour(a.pos, way, land.width, land.height);
      var (a', land') := Move(a, t, DirectionOf(way), land);
      MovesWalk(a', t, n - 1, land', rng');
      var rest := Path(q, rng', n - 1, land.width, land.height);
      var r := Moves(a', t, n - 1, land', rng');
      HarvestedFirst(q, rest, land, land', r.land);
      TollIgnoresHarvest(rest, t.swim, land, land');
      assert ([q] + rest)[1..] == rest;
    }
  }

  /**
   A step of a live agent, from the draws: it makes as many moves as its speed, ends where they lead, has emptied their
   cells, gains what they held, pays their toll and its metabolism, loses one water, and lives if and only if it has
   energy and water left. A dead one does nothing.
   */
  lemma StepExactly(a: Agent, land: ValidLand, rng: Rng)
    ensures !a.alive ==> StepAgent(a, land, rng) == Acted(a, land, rng)
    ensures a.alive ==>
              var r, t := StepAgent(a, land, rng), Decode(a.genome);
              var path := Path(a.pos, rng, t.speed, land.width, land.height);
              && r.rng == rng.(used := rng.used + t.speed) && Harvested(path, land, r.land)
              && r.agent.pos == Last(a.pos, path)
              && r.agent.energy == a.energy + t.forage * (Sum(land.food) - Sum(r.land.food))
                                   + (Sum(land.mineral) - Sum(r.land.mineral)) - Toll(path, t.swim, land) - t.metabolism
              && r.agent.hydration == a.hydration + t.forage * (Sum(land.water) - Sum(r.land.water)) - 1
              && (r.agent.alive <==> r.agent.energy > 0 && r.agent.hydration > 0)
              && r.agent.id == a.id && r.agent.genome == a.genome && r.agent.facing == a.facing
  {
    hide Moves, Path, Toll, Surcharges, Sum, Harvested, Decode;
    if a.alive {
      var t := Decode(a.genome);
      MovesWalk(a, t, t.speed, land, rng);
      MovesLedger(a, t, t.speed, land, rng);
    }
  }

  // ---- Traits ----

  /** The one integer nearest to the interpolation of a gene onto lo .. hi. */
  ghost predicate Nearest(value: int, gene: byte, lo: int, hi: int) {
    -255 < 2 * (255 * (value - lo) - gene as int * (hi - lo)) < 255
  }

  /** Each trait is its gene, interpolated onto its own range. */
  lemma TraitsAre(g: Genome)
    ensures var t := Decode(g);
            && Nearest(t.vision, g[0], 1, 5) && Nearest(t.speed, g[1], 1, 3) && Nearest(t.metabolism, g[2], 1, 5)
            && Nearest(t.reproductionThreshold, g[3], 50, 200)
            && Nearest(t.swim, g[4], 0, 3) && Nearest(t.forage, g[5], 1, 3)
  {
    hide MapByte;
    MapByteNearest(g[0], 1, 5, MapByte(g[0], 1, 5));
    MapByteNearest(g[1], 1, 3, MapByte(g[1], 1, 3));
    MapByteNearest(g[2], 1, 5, MapByte(g[2], 1, 5));
    MapByteNearest(g[3], 50, 200, MapByte(g[3], 50, 200));
    MapByteNearest(g[4], 0, 3, MapByte(g[4], 0, 3));
    MapByteNearest(g[5], 1, 3, MapByte(g[5], 1, 3));
  }
}
