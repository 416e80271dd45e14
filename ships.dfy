/**
 * Ships (Ship.java and its five subclasses). A ship owns the positions it
 * covers; they are computed once, by the constructor of its kind, from the
 * facing and the anchor, and afterwards only their hit flags change.
 */
module Ships {
  import opened Wrappers
  import opened Directions
  import opened Positions
  import opened Shapes

  /** Some cell of `cells` is adjacent to `c`. */
  predicate Near(cells: seq<Cell>, c: Cell) {
    exists i :: 0 <= i < |cells| && Adjacent(cells[i], c)
  }

  /** Some cell of `a` is adjacent to some cell of `b`. */
  predicate TooCloseCells(a: seq<Cell>, b: seq<Cell>) {
    exists j :: 0 <= j < |b| && Near(a, b[j])
  }

  /** Being too close is symmetric. */
  lemma {:induction false} TooCloseSymmetric(a: seq<Cell>, b: seq<Cell>)
    ensures TooCloseCells(a, b) <==> TooCloseCells(b, a)
  {
    if TooCloseCells(a, b) {
      var j :| 0 <= j < |b| && Near(a, b[j]);
      var i :| 0 <= i < |a| && Adjacent(a[i], b[j]);
      AdjacentReflexiveSymmetric(a[i], b[j]);
      assert Near(b, a[i]);
    }
    if TooCloseCells(b, a) {
      var j :| 0 <= j < |a| && Near(b, a[j]);
      var i :| 0 <= i < |b| && Adjacent(b[i], a[j]);
      AdjacentReflexiveSymmetric(b[i], a[j]);
      assert Near(a, b[i]);
    }
  }

  /** Cells that share a cell are too close; in particular any non-empty list is too close to itself. */
  lemma SharedCellTooClose(a: seq<Cell>, b: seq<Cell>, c: Cell)
    requires c in a && c in b
    ensures TooCloseCells(a, b)
  {
    var i :| 0 <= i < |a| && a[i] == c;
    var j :| 0 <= j < |b| && b[j] == c;
    AdjacentReflexiveSymmetric(c, c);
    assert Near(a, b[j]);
  }

  /** A straight run of `n` new positions from the anchor (the loops of Caravel, Carrack and Frigate). */
  method LayStraight(a: Cell, n: nat, vertical: bool) returns (cells: seq<Position>)
    ensures CellsOf(cells) == Run(a, n, vertical)
    ensures AllNew(cells)
  {
    cells := [];
    for i := 0 to n
      invariant CellsOf(cells) == Run(a, i, vertical)
      invariant AllNew(cells)
    {
      var p: Position;
      if vertical {
        p := new Position(a.row + i, a.column);
      } else {
        p := new Position(a.row, a.column + i);
      }
      cells := cells + [p];
      assert CellsOf(cells)[i] == Run(a, i + 1, vertical)[i];
    }
  }

  /** Galleon facing North: a bar of three along the anchor's row, then a stem of two below its middle. */
  method FillNorth(a: Cell) returns (cells: seq<Position>)
    ensures Some(CellsOf(cells)) == GalleonShape(North, a)
    ensures AllNew(cells)
  {
    cells := [];
    for i := 0 to 3
      invariant |cells| == i
      invariant forall j :: 0 <= j < i ==> cells[j].Loc() == Cell(a.row, a.column + j)
      invariant AllNew(cells)
    {
      var p := new Position(a.row, a.column + i);
      cells := cells + [p];
    }
    var p := new Position(a.row + 1, a.column + 1);
    var q := new Position(a.row + 2, a.column + 1);
    cells := cells + [p, q];
    assert CellsOf(cells) == GalleonShape(North, a).value;
  }

  /** Galleon facing South: a stem of two down from the anchor, then a bar of three centred below it. */
  method FillSouth(a: Cell) returns (cells: seq<Position>)
    ensures Some(CellsOf(cells)) == GalleonShape(South, a)
    ensures AllNew(cells)
  {
    cells := [];
    for i := 0 to 2
      invariant |cells| == i
      invariant forall j :: 0 <= j < i ==> cells[j].Loc() == Cell(a.row + j, a.column)
      invariant AllNew(cells)
    {
      var p := new Position(a.row + i, a.column);
      cells := cells + [p];
    }
    for j := 2 to 5
      invariant |cells| == j
      invariant forall k :: 0 <= k < 2 ==> cells[k].Loc() == Cell(a.row + k, a.column)
      invariant forall k :: 2 <= k < j ==> cells[k].Loc() == Cell(a.row + 2, a.column + k - 3)
      invariant AllNew(cells)
    {
      var p := new Position(a.row + 2, a.column + j - 3);
      cells := cells + [p];
    }
    assert CellsOf(cells) == GalleonShape(South, a).value;
  }

  /** Galleon facing East: the anchor, a bar of three ending below it, and one cell under the bar's end. */
  method FillEast(a: Cell) returns (cells: seq<Position>)
    ensures Some(CellsOf(cells)) == GalleonShape(East, a)
    ensures AllNew(cells)
  {
    var first := new Position(a.row, a.column);
    cells := [first];
    for i := 1 to 4
      invariant |cells| == i
      invariant cells[0].Loc() == a
      invariant forall k :: 1 <= k < i ==> cells[k].Loc() == Cell(a.row + 1, a.column + k - 3)
      invariant AllNew(cells)
    {
      var p := new Position(a.row + 1, a.column + i - 3);
      cells := cells + [p];
    }
    var last := new Position(a.row + 2, a.column);
    cells := cells + [last];
    assert CellsOf(cells) == GalleonShape(East, a).value;
  }

  /** Galleon facing West: the anchor, a bar of three starting below it, and one cell under the bar's start. */
  method FillWest(a: Cell) returns (cells: seq<Position>)
    ensures Some(CellsOf(cells)) == GalleonShape(West, a)
    ensures AllNew(cells)
  {
    var first := new Position(a.row, a.column);
    cells := [first];
    for i := 1 to 4
      invariant |cells| == i
      invariant cells[0].Loc() == a
      invariant forall k :: 1 <= k < i ==> cells[k].Loc() == Cell(a.row + 1, a.column + k - 1)
      invariant AllNew(cells)
    {
      var p := new Position(a.row + 1, a.column + i - 1);
      cells := cells + [p];
    }
    var last := new Position(a.row + 2, a.column);
    cells := cells + [last];
    assert CellsOf(cells) == GalleonShape(West, a).value;
  }

  class Ship {
    const kind: ShipKind
    const category: string
    const bearing: Compass
    const anchor: Position
    const positions: seq<Position>

    /** The coordinates the ship covers, in the order they were added. */
    function Cells(): seq<Cell> {
      CellsOf(positions)
    }

    /** The ship's invariant: its cells are the reference shape of its kind, facing and anchor. */
    ghost predicate Valid() {
      category == CategoryName(kind) && Shape(kind, bearing, anchor.Loc()) == Some(Cells())
    }

    /**
     * getSize: the fixed size of the ship's kind, between one (barca) and five
     * (galeao); a well-formed ship has exactly that many positions.
     */
    function GetSize(): (n: nat)
      ensures 1 <= n <= 5
      ensures n == 1 <==> kind == ShipKind.Barge
      ensures n == 5 <==> kind == ShipKind.Galleon
      ensures n == |Shape(kind, North, Cell(0, 0)).value|
      ensures Valid() ==> n == |positions|
    {
      ShapeWellFormed(kind, North, Cell(0, 0));
      ShapeWellFormed(kind, bearing, anchor.Loc());
      Size(kind)
    }

    /** The ship still floats while one of its positions is not hit. */
    predicate IsFloating()
      reads positions
    {
      exists i :: 0 <= i < |positions| && !positions[i].hit
    }

    /** What the invariant gives: size many distinct cells, the first at the anchor. */
    lemma ValidFacts()
      requires Valid()
      ensures |positions| == GetSize() >= 1
      ensures positions[0].Loc() == anchor.Loc()
      ensures Distinct(Cells())
      ensures forall i, j :: 0 <= i < j < |positions| ==> positions[i] != positions[j]
    {
      ShapeWellFormed(kind, bearing, anchor.Loc());
      assert Cells()[0] == positions[0].Loc();
      forall i, j | 0 <= i < j < |positions| ensures positions[i] != positions[j] {
        assert Cells()[i] != Cells()[j];
      }
    }

    /** Barge: the single cell at the anchor, whatever the facing. */
    constructor Barge(bearing: Compass, pos: Position)
      ensures kind == ShipKind.Barge && this.bearing == bearing && anchor == pos
      ensures Valid() && AllNew(positions)
    {
      kind := ShipKind.Barge;
      category := "Barca";
      this.bearing := bearing;
      anchor := pos;
      var p := new Position(pos.row, pos.column);
      positions := [p];
      new;
      assert Cells() == [anchor.Loc()];
    }

    /** Caravel: two cells in a straight run; the source throws for an Unknown facing. */
    constructor Caravel(bearing: Compass, pos: Position)
      requires bearing != Unknown
      ensures kind == ShipKind.Caravel && this.bearing == bearing && anchor == pos
      ensures Valid() && AllNew(positions)
    {
      kind := ShipKind.Caravel;
      category := "Caravela";
      this.bearing := bearing;
      anchor := pos;
      var cells := LayStraight(pos.Loc(), 2, bearing == North || bearing == South);
      positions := cells;
    }

    /** Carrack: three cells in a straight run; the source throws for an Unknown facing. */
    constructor Carrack(bearing: Compass, pos: Position)
      requires bearing != Unknown
      ensures kind == ShipKind.Carrack && this.bearing == bearing && anchor == pos
      ensures Valid() && AllNew(positions)
    {
      kind := ShipKind.Carrack;
      category := "Nau";
      this.bearing := bearing;
      anchor := pos;
      var cells := LayStraight(pos.Loc(), 3, bearing == North || bearing == South);
      positions := cells;
    }

    /** Frigate: four cells in a straight run; the source throws for an Unknown facing. */
    constructor Frigate(bearing: Compass, pos: Position)
      requires bearing != Unknown
      ensures kind == ShipKind.Frigate && this.bearing == bearing && anchor == pos
      ensures Valid() && AllNew(positions)
    {
      kind := ShipKind.Frigate;
      category := "Fragata";
      this.bearing := bearing;
      anchor := pos;
      var cells := LayStraight(pos.Loc(), 4, bearing == North || bearing == South);
      positions := cells;
    }

    /** Galleon: one of four hand-written five-cell shapes; the source throws for an Unknown facing. */
    constructor Galleon(bearing: Compass, pos: Position)
      requires bearing != Unknown
      ensures kind == ShipKind.Galleon && this.bearing == bearing && anchor == pos
      ensures Valid() && AllNew(positions)
    {
      kind := ShipKind.Galleon;
      category := "Galeao";
      this.bearing := bearing;
      anchor := pos;
      var cells: seq<Position>;
      match bearing {
        case North => cells := FillNorth(pos.Loc());
        case East => cells := FillEast(pos.Loc());
        case South => cells := FillSouth(pos.Loc());
        case West => cells := FillWest(pos.Loc());
      }
      positions := cells;
    }

    /** stillFloating: true iff one of the ship's positions is not hit. */
    method StillFloating() returns (floating: bool)
      requires Valid()
      ensures floating == IsFloating()
    {
      ValidFacts();
      for i := 0 to GetSize()
        invariant forall j :: 0 <= j < i ==> positions[j].hit
      {
        if !positions[i].hit {
          return true;
        }
      }
      return false;
    }

    /** getTopMostPos: the smallest row the ship covers. */
    method TopMostPos() returns (top: int)
      requires Valid()
      ensures forall i :: 0 <= i < |positions| ==> top <= positions[i].row
      ensures exists i :: 0 <= i < |positions| && positions[i].row == top
    {
      ValidFacts();
      top := positions[0].row;
      for i := 1 to GetSize()
        invariant forall j :: 0 <= j < i ==> top <= positions[j].row
        invariant exists j :: 0 <= j < i && positions[j].row == top
      {
        if positions[i].row < top {
          top := positions[i].row;
        }
      }
    }

    /** getBottomMostPos: the largest row the ship covers. */
    method BottomMostPos() returns (bottom: int)
      requires Valid()
      ensures forall i :: 0 <= i < |positions| ==> positions[i].row <= bottom
      ensures exists i :: 0 <= i < |positions| && positions[i].row == bottom
    {
      ValidFacts();
      bottom := positions[0].row;
      for i := 1 to GetSize()
        invariant forall j :: 0 <= j < i ==> positions[j].row <= bottom
        invariant exists j :: 0 <= j < i && positions[j].row == bottom
      {
        if positions[i].row > bottom {
          bottom := positions[i].row;
        }
      }
    }

    /** getLeftMostPos: the smallest column the ship covers. */
    method LeftMostPos() returns (left: int)
      requires Valid()
      ensures forall i :: 0 <= i < |positions| ==> left <= positions[i].column
      ensures exists i :: 0 <= i < |positions| && positions[i].column == left
    {
      ValidFacts();
      left := positions[0].column;
      for i := 1 to GetSize()
        invariant forall j :: 0 <= j < i ==> left <= positions[j].column
        invariant exists j :: 0 <= j < i && positions[j].column == left
      {
        if positions[i].column < left {
          left := positions[i].column;
        }
      }
    }

    /** getRightMostPos: the largest column the ship covers. */
    method RightMostPos() returns (right: int)
      requires Valid()
      ensures forall i :: 0 <= i < |positions| ==> positions[i].column <= right
      ensures exists i :: 0 <= i < |positions| && positions[i].column == right
    {
      ValidFacts();
      right := positions[0].column;
      for i := 1 to GetSize()
        invariant forall j :: 0 <= j < i ==> positions[j].column <= right
        invariant exists j :: 0 <= j < i && positions[j].column == right
      {
        if positions[i].column > right {
          right := positions[i].column;
        }
      }
    }

    /** occupies: true iff some position of the ship equals `pos` by row and column. */
    method Occupies(pos: Position) returns (occupies: bool)
      requires Valid()
      ensures occupies <==> pos.Loc() in Cells()
    {
      ValidFacts();
      for i := 0 to GetSize()
        invariant forall j :: 0 <= j < i ==> Cells()[j] != pos.Loc()
      {
        if positions[i].Equals(pos) {
          assert Cells()[i] == pos.Loc();
          return true;
        }
      }
      return false;
    }

    /** tooCloseTo(IPosition): true iff some cell of the ship is adjacent to `pos`. */
    method TooCloseToPosition(pos: Position) returns (close: bool)
      requires Valid()
      ensures close == Near(Cells(), pos.Loc())
    {
      ValidFacts();
      for i := 0 to GetSize()
        invariant forall j :: 0 <= j < i ==> !Adjacent(Cells()[j], pos.Loc())
      {
        if positions[i].IsAdjacentTo(pos) {
          assert Adjacent(Cells()[i], pos.Loc());
          return true;
        }
      }
      return false;
    }

    /** tooCloseTo(IShip): true iff some cell of `other` is adjacent to some cell of this ship. */
    method TooCloseTo(other: Ship) returns (close: bool)
      requires Valid()
      ensures close == TooCloseCells(Cells(), other.Cells())
    {
      var k := 0;
      while k < |other.positions|
        invariant 0 <= k <= |other.positions|
        invariant forall j :: 0 <= j < k ==> !Near(Cells(), other.Cells()[j])
      {
        close := TooCloseToPosition(other.positions[k]);
        if close {
          assert Near(Cells(), other.Cells()[k]);
          return;
        }
        k := k + 1;
      }
      return false;
    }

    /**
     * shoot: marks as hit exactly the positions equal to `pos`; nothing else
     * changes, and a sunk ship stays sunk.
     */
    method Shoot(pos: Position)
      requires Valid()
      modifies positions
      ensures forall i :: 0 <= i < |positions| ==>
        positions[i].hit == (old(positions[i].hit) || positions[i].Loc() == pos.Loc())
      ensures forall i :: 0 <= i < |positions| ==> positions[i].occupied == old(positions[i].occupied)
      ensures !old(IsFloating()) ==> !IsFloating()
    {
      ValidFacts();
      for i := 0 to |positions|
        invariant forall j :: 0 <= j < i ==>
          positions[j].hit == (old(positions[j].hit) || positions[j].Loc() == pos.Loc())
        invariant forall j :: i <= j < |positions| ==> positions[j].hit == old(positions[j].hit)
        invariant forall j :: 0 <= j < |positions| ==> positions[j].occupied == old(positions[j].occupied)
      {
        if positions[i].Equals(pos) {
          positions[i].Shoot();
        }
      }
    }
  }

  /** What the factory produced: a ship, or the reason none was produced. */
  datatype Built = Built(ship: Ship) | UnknownKind | InvalidBearing

  /**
   * buildShip: the ship of the kind named by `token`, UnknownKind (null in
   * the source) for any other token, InvalidBearing where the kind's
   * constructor throws for an Unknown facing.
   */
  method BuildShip(token: string, bearing: Compass, pos: Position) returns (r: Built)
    ensures r.UnknownKind? <==> KindOfToken(token).None?
    ensures r.InvalidBearing? <==> KindOfToken(token).Some? && Shape(KindOfToken(token).value, bearing, pos.Loc()).None?
    ensures r.Built? ==>
      Some(r.ship.kind) == KindOfToken(token) && r.ship.bearing == bearing && r.ship.anchor == pos &&
      fresh(r.ship) && r.ship.Valid() && AllNew(r.ship.positions)
  {
    var kind := KindOfToken(token);
    if kind.None? {
      return UnknownKind;
    }
    var k := kind.value;
    ShapeWellFormed(k, bearing, pos.Loc());
    if k != ShipKind.Barge && bearing == Unknown {
      return InvalidBearing;
    }
    var s: Ship;
    if k == ShipKind.Barge {
      s := new Ship.Barge(bearing, pos);
    } else if k == ShipKind.Caravel {
      s := new Ship.Caravel(bearing, pos);
    } else if k == ShipKind.Carrack {
      s := new Ship.Carrack(bearing, pos);
    } else if k == ShipKind.Frigate {
      s := new Ship.Frigate(bearing, pos);
    } else {
      s := new Ship.Galleon(bearing, pos);
    }
    r := Built(s);
  }
}
