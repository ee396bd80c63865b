/** Toroidal storage: positions wrap around in both directions. */
module Torus {
  import opened Words

  datatype Position = Position(x: int, y: int)

  /** The engine's wrap: C++ remainder, corrected when negative; it is the residue modulo size. */
  function WrapTo(v: int, size: int): (r: int)
    requires size > 0
    ensures 0 <= r < size && r == v % size
  {
    TruncModSign(v, size);
    var r := TruncMod(v, size);
    if r < 0 then r + size else r
  }

  lemma TruncModSign(v: int, size: int)
    requires size > 0
    ensures v >= 0 ==> TruncMod(v, size) == v % size
    ensures v < 0 ==> TruncMod(v, size) == if v % size == 0 then 0 else v % size - size
  {
    if v < 0 {
      var q := -v / size;
      assert -v == size * q + -v % size;
      assert v == size * -q - -v % size by { assert size * -q == -(size * q); }
      ModIs(v, size, if -v % size == 0 then -q else -q - 1, if -v % size == 0 then 0 else size - -v % size);
    }
  }

  predicate Congruent(a: int, b: int, size: int)
    requires size > 0
  {
    (a - b) % size == 0
  }

  lemma CongruentIff(a: int, b: int, size: int)
    requires size > 0
    ensures Congruent(a, b, size) <==> a % size == b % size
  {
    var qa, qb := a / size, b / size;
    assert a - b == size * (qa - qb) + (a % size - b % size) by {
      assert size * (qa - qb) == size * qa - size * qb;
    }
    if a % size >= b % size {
      ModIs(a - b, size, qa - qb, a % size - b % size);
    } else {
      assert size * (qa - qb - 1) == size * (qa - qb) - size;
      ModIs(a - b, size, qa - qb - 1, a % size - b % size + size);
    }
  }

  function Area(width: nat, height: nat): nat {
    width * height
  }

  /** Row-major cell number. */
  function Cell(x: nat, y: nat, width: nat): nat {
    y * width + x
  }

  lemma CellInside(x: nat, y: nat, width: nat, height: nat)
    requires x < width && y < height
    ensures Cell(x, y, width) < Area(width, height)
    ensures Cell(x, y, width) % width == x && Cell(x, y, width) / width == y
  {
    assert y * width + width <= height * width by {
      assert (y + 1) * width <= height * width;
    }
    ModIs(Cell(x, y, width), width, y, x);
  }

  /** Every cell number below the area is that of exactly one pair of coordinates. */
  lemma CellOnto(k: nat, width: nat, height: nat)
    requires width > 0 && k < Area(width, height)
    ensures k % width < width && k / width < height && Cell(k % width, k / width, width) == k
  {
    var q := k / width;
    assert q >= height ==> width * q >= width * height;
  }

  function Index(p: Position, width: nat, height: nat): (i: nat)
    requires width > 0 && height > 0
    ensures i < Area(width, height)
  {
    CellInside(WrapTo(p.x, width), WrapTo(p.y, height), width, height);
    Cell(WrapTo(p.x, width), WrapTo(p.y, height), width)
  }

  function WrapPosition(p: Position, width: nat, height: nat): Position
    requires width > 0 && height > 0
  {
    Position(WrapTo(p.x, width), WrapTo(p.y, height))
  }

  predicate Inside(p: Position, width: nat, height: nat) {
    0 <= p.x < width && 0 <= p.y < height
  }

  /** Two positions share a cell exactly when they are congruent in both directions. */
  lemma SameCell(p: Position, q: Position, width: nat, height: nat)
    requires width > 0 && height > 0
    ensures Index(p, width, height) == Index(q, width, height)
       <==> Congruent(p.x, q.x, width) && Congruent(p.y, q.y, height)
  {
    CellInside(WrapTo(p.x, width), WrapTo(p.y, height), width, height);
    CellInside(WrapTo(q.x, width), WrapTo(q.y, height), width, height);
    CongruentIff(p.x, q.x, width);
    CongruentIff(p.y, q.y, height);
  }

  lemma WrapKeepsCell(p: Position, width: nat, height: nat)
    requires width > 0 && height > 0
    ensures Inside(WrapPosition(p, width, height), width, height)
    ensures Index(WrapPosition(p, width, height), width, height) == Index(p, width, height)
  {
    ModIs(WrapTo(p.x, width), width, 0, WrapTo(p.x, width));
    ModIs(WrapTo(p.y, height), height, 0, WrapTo(p.y, height));
  }

  class Grid<T(0)> {
    const width: nat
    const height: nat
    const cells: array<T>

    ghost predicate Valid()
    {
      width > 0 && height > 0 && cells.Length == Area(width, height)
    }

    constructor (width: nat, height: nat, fill: T)
      requires width > 0 && height > 0
      ensures Valid() && this.width == width && this.height == height && fresh(cells)
      ensures forall i :: 0 <= i < cells.Length ==> cells[i] == fill
    {
      this.width, this.height := width, height;
      cells := new T[Area(width, height)](_ => fill);
    }

    function At(p: Position): T
      requires Valid()
      reads cells
    {
      cells[Index(p, width, height)]
    }

    /** Changes one cell, and so exactly the positions congruent to p. */
    method Set(p: Position, value: T)
      requires Valid()
      modifies cells
      ensures cells[..] == old(cells[..])[Index(p, width, height) := value]
      ensures forall q ::
                At(q) == if Congruent(p.x, q.x, width) && Congruent(p.y, q.y, height) then value else old(At(q))
    {
      cells[Index(p, width, height)] := value;
      forall q
        ensures At(q) == if Congruent(p.x, q.x, width) && Congruent(p.y, q.y, height) then value else old(At(q))
      {
        SameCell(p, q, width, height);
      }
    }
  }
}
