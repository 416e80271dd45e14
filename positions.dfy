/**
 * Board cells (Position.java). A cell has a fixed row and column and two flags
 * that only ever go from false to true: `occupied` and `hit`.
 */
module Positions {

  /** A bare board coordinate: the part of a position that equality looks at. */
  datatype Cell = Cell(row: int, column: int)

  function Abs(x: int): nat {
    if x < 0 then -x else x
  }

  /** Two cells are adjacent when they differ by at most one in both row and column. */
  predicate Adjacent(a: Cell, b: Cell) {
    Abs(a.row - b.row) <= 1 && Abs(a.column - b.column) <= 1
  }

  /** Chebyshev (king-move) distance between two cells. */
  function Chebyshev(a: Cell, b: Cell): (d: nat)
    ensures d >= Abs(a.row - b.row) && d >= Abs(a.column - b.column)
    ensures d == Abs(a.row - b.row) || d == Abs(a.column - b.column)
  {
    var dr, dc := Abs(a.row - b.row), Abs(a.column - b.column);
    if dr < dc then dc else dr
  }

  /** Adjacency is exactly Chebyshev distance at most one, so diagonals count. */
  lemma AdjacentIffChebyshev(a: Cell, b: Cell)
    ensures Adjacent(a, b) <==> Chebyshev(a, b) <= 1
  {
  }

  /** Every cell is adjacent to itself, and adjacency is symmetric. */
  lemma AdjacentReflexiveSymmetric(a: Cell, b: Cell)
    ensures Adjacent(a, a)
    ensures Adjacent(a, b) <==> Adjacent(b, a)
  {
  }

  class Position {
    const row: int
    const column: int
    var occupied: bool
    var hit: bool

    /** A new position is at the given coordinates, neither occupied nor hit. */
    constructor (row: int, column: int)
      ensures this.row == row && this.column == column
      ensures !occupied && !hit
    {
      this.row := row;
      this.column := column;
      occupied := false;
      hit := false;
    }

    /** The coordinates of this position, without its flags. */
    function Loc(): Cell {
      Cell(row, column)
    }

    /** Value equality: same row and same column; the flags play no part. */
    predicate Equals(other: Position)
      ensures Equals(other) <==> Loc() == other.Loc()
    {
      row == other.row && column == other.column
    }

    predicate IsAdjacentTo(other: Position)
      ensures IsAdjacentTo(other) <==> Chebyshev(Loc(), other.Loc()) <= 1
    {
      Adjacent(Loc(), other.Loc())
    }

    /** Marks the position as occupied; nothing else changes. */
    method Occupy()
      modifies this`occupied
      ensures occupied && hit == old(hit)
    {
      occupied := true;
    }

    /** Marks the position as hit; nothing else changes, and a hit is never undone. */
    method Shoot()
      modifies this`hit
      ensures hit && occupied == old(occupied)
    {
      hit := true;
    }
  }

  /** The coordinates of a list of positions, in order. */
  function CellsOf(ps: seq<Position>): (cells: seq<Cell>)
    ensures |cells| == |ps|
    ensures forall i :: 0 <= i < |ps| ==> cells[i] == ps[i].Loc()
  {
    seq(|ps|, i requires 0 <= i < |ps| => ps[i].Loc())
  }

  /** Appending a position appends its coordinates. */
  lemma CellsOfSnoc(ps: seq<Position>, p: Position)
    ensures CellsOf(ps + [p]) == CellsOf(ps) + [p.Loc()]
  {
    assert forall i :: 0 <= i < |ps| + 1 ==> CellsOf(ps + [p])[i] == (CellsOf(ps) + [p.Loc()])[i];
  }

  /** Every position of the list is newly allocated and neither occupied nor hit. */
  twostate predicate AllNew(new ps: seq<Position>)
    reads ps
  {
    forall p :: p in ps ==> fresh(p) && !p.occupied && !p.hit
  }

  /** Equality of positions is an equivalence that ignores the flags. */
  lemma EqualsIsEquivalence(p: Position, q: Position, r: Position)
    ensures p.Equals(p)
    ensures p.Equals(q) ==> q.Equals(p)
    ensures p.Equals(q) && q.Equals(r) ==> p.Equals(r)
  {
  }

  /** Equal positions are adjacent. */
  lemma EqualImpliesAdjacent(p: Position, q: Position)
    requires p.Equals(q)
    ensures p.IsAdjacentTo(q)
  {
  }
}
