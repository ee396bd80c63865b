/** Messages on a toroidal grid. */
module Radio {
  import opened Words
  import opened Torus

  /** One of the offsets lo .. hi - 1 from centre falls on v. */
  ghost predicate Hits(centre: int, lo: int, hi: int, v: int, size: int)
    requires size > 0
  {
    exists d :: lo <= d < hi && Lands(centre, d, v, size)
  }

  predicate Lands(centre: int, d: int, v: int, size: int)
    requires size > 0
  {
    Congruent(centre + d, v, size)
  }

  /** A position that a broadcast reaches. */
  ghost predicate Reached(p: Position, centre: Position, radius: int, width: nat, height: nat)
    requires width > 0 && height > 0
  {
    Hits(centre.x, -radius, radius + 1, p.x, width) && Hits(centre.y, -radius, radius + 1, p.y, height)
  }

  /** Reached by the rows above offset dy. */
  ghost predicate DoneRows(p: Position, centre: Position, radius: int, dy: int, width: nat, height: nat)
    requires width > 0 && height > 0
  {
    Hits(centre.y, -radius, dy, p.y, height) && Hits(centre.x, -radius, radius + 1, p.x, width)
  }

  /** Reached by the rows above offset dy, or by row dy left of offset dx. */
  ghost predicate Done(p: Position, centre: Position, radius: int, dy: int, dx: int, width: nat, height: nat)
    requires width > 0 && height > 0
  {
    DoneRows(p, centre, radius, dy, width, height) ||
    (Lands(centre.y, dy, p.y, height) && Hits(centre.x, -radius, dx, p.x, width))
  }

  class RadioGrid {
    const grid: Grid<int32>

    ghost predicate Valid() { grid.Valid() }

    constructor (width: nat, height: nat)
      requires width > 0 && height > 0
      ensures Valid() && fresh(grid) && fresh(grid.cells) && grid.width == width && grid.height == height
      ensures forall p :: Listen(p) == 0
    {
      grid := new Grid<int32>(width, height, 0);
    }

    function Listen(p: Position): int32
      requires Valid()
      reads grid.cells
    {
      grid.At(p)
    }

    /** Afterwards a position reads the message exactly when the broadcast reaches it; all others are as before. */
    method Broadcast(pos: Position, message: int32, radius: int)
      requires Valid()
      modifies grid.cells
      ensures forall p ::
                Listen(p) == if Reached(p, pos, radius, grid.width, grid.height) then message else old(Listen(p))
    {
      ghost var w, h := grid.width, grid.height;
      var dy := -radius;
      while dy <= radius
        invariant -radius <= dy
        invariant dy <= radius + 1 || radius < 0
        invariant forall p :: Listen(p) == if DoneRows(p, pos, radius, dy, w, h) then message else old(Listen(p))
      {
        var dx := -radius;
        while dx <= radius
          invariant -radius <= dx <= radius + 1
          invariant forall p :: Listen(p) == if Done(p, pos, radius, dy, dx, w, h) then message else old(Listen(p))
        {
          ghost var next := dx + 1;
          forall p
            ensures Done(p, pos, radius, dy, next, w, h) <==>
                    Done(p, pos, radius, dy, dx, w, h) || (Lands(pos.y, dy, p.y, h) && Lands(pos.x, dx, p.x, w))
          {
            HitsMore(pos.x, -radius, dx, p.x, w);
          }
          grid.Set(Position(pos.x + dx, pos.y + dy), message);
          dx := dx + 1;
        }
        ghost var next, last := dy + 1, radius + 1;
        forall p ensures DoneRows(p, pos, radius, next, w, h) <==> Done(p, pos, radius, dy, last, w, h) {
          HitsMore(pos.y, -radius, dy, p.y, h);
        }
        dy := dy + 1;
      }
    }

    method Reset()
      requires Valid()
      modifies grid.cells
      ensures forall p :: Listen(p) == 0
    {
      for i := 0 to grid.cells.Length
        invariant forall j :: 0 <= j < i ==> grid.cells[j] == 0
      {
        grid.cells[i] := 0;
      }
    }
  }

  lemma HitsMore(centre: int, lo: int, hi: int, v: int, size: int)
    requires size > 0 && lo <= hi
    ensures Hits(centre, lo, hi + 1, v, size) <==> Hits(centre, lo, hi, v, size) || Lands(centre, hi, v, size)
  {
  }

  /** A broadcast whose diameter spans both dimensions reaches every position. */
  lemma WideBroadcastCovers(p: Position, centre: Position, radius: nat, width: nat, height: nat)
    requires 0 < width <= 2 * radius + 1 && 0 < height <= 2 * radius + 1
    ensures Reached(p, centre, radius, width, height)
  {
    WideHits(centre.x, radius, p.x, width);
    WideHits(centre.y, radius, p.y, height);
  }

  lemma WideHits(centre: int, radius: nat, v: int, size: nat)
    requires 0 < size <= 2 * radius + 1
    ensures Hits(centre, 0 - radius, radius + 1, v, size)
  {
    var d := (v - centre + radius) % size - radius;
    var q := (v - centre + radius) / size;
    assert v - centre + radius == size * q + (d + radius);
    assert centre + d - v == size * -q + 0 by { assert size * -q == -(size * q); }
    ModIs(centre + d - v, size, -q, 0);
    assert Lands(centre, d, v, size);
  }

  /** A broadcast narrower than the grid does not reach the positions just outside its square. */
  lemma NarrowBroadcastMisses(centre: Position, radius: nat, width: nat, height: nat)
    requires 2 * radius + 1 < width && height > 0
    ensures !Reached(Position(centre.x + radius + 1, centre.y), centre, radius, width, height)
  {
    var v := centre.x + radius + 1;
    forall d | 0 - radius <= d < radius + 1
      ensures !Lands(centre.x, d, v, width)
    {
      ModIs(centre.x + d - v, width, -1, width + d - radius - 1);
    }
  }
}
