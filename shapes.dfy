/**
 * The five ship kinds and, for each, the cells it covers given a facing and an
 * anchor cell (Barge.java, Caravel.java, Carrack.java, Frigate.java,
 * Galleon.java). These are the reference shapes the ship constructors are
 * proved against.
 */
module Shapes {
  import opened Wrappers
  import opened Directions
  import opened Positions

  datatype ShipKind = Barge | Caravel | Carrack | Frigate | Galleon

  /** The fixed number of cells of each kind (getSize). */
  function Size(k: ShipKind): nat {
    match k
    case Barge => 1
    case Caravel => 2
    case Carrack => 3
    case Frigate => 4
    case Galleon => 5
  }

  /** The category name each kind reports. */
  function CategoryName(k: ShipKind): string {
    match k
    case Barge => "Barca"
    case Caravel => "Caravela"
    case Carrack => "Nau"
    case Frigate => "Fragata"
    case Galleon => "Galeao"
  }

  /** The lower-case token the factory recognises for each kind. */
  function Token(k: ShipKind): string {
    match k
    case Barge => "barca"
    case Caravel => "caravela"
    case Carrack => "nau"
    case Frigate => "fragata"
    case Galleon => "galeao"
  }

  /** The factory's lookup: the kind whose token is `token`, or None for any other string. */
  function KindOfToken(token: string): (r: Option<ShipKind>)
    ensures r.Some? ==> Token(r.value) == token
    ensures r.None? <==> forall k: ShipKind :: Token(k) != token
  {
    if token == "barca" then Some(Barge)
    else if token == "caravela" then Some(Caravel)
    else if token == "nau" then Some(Carrack)
    else if token == "fragata" then Some(Frigate)
    else if token == "galeao" then Some(Galleon)
    else None
  }

  /** Every kind's token is recognised as that kind. */
  lemma TokenRoundTrip(k: ShipKind)
    ensures KindOfToken(Token(k)) == Some(k)
  {
  }

  /** The category a kind reports is not the token the factory accepts: they differ in the capital letter. */
  lemma CategoryIsNotToken(k: ShipKind)
    ensures KindOfToken(CategoryName(k)) == None
  {
  }

  /** A straight run of `n` cells from the anchor, downwards or rightwards. */
  function Run(a: Cell, n: nat, vertical: bool): (cells: seq<Cell>)
    ensures |cells| == n
  {
    seq(n, i requires 0 <= i < n =>
      if vertical then Cell(a.row + i, a.column) else Cell(a.row, a.column + i))
  }

  /** The five hand-written galleon shapes; no shape for an Unknown facing. */
  function GalleonShape(b: Compass, a: Cell): Option<seq<Cell>> {
    var r, c := a.row, a.column;
    match b
    case North => Some([Cell(r, c), Cell(r, c + 1), Cell(r, c + 2), Cell(r + 1, c + 1), Cell(r + 2, c + 1)])
    case South => Some([Cell(r, c), Cell(r + 1, c), Cell(r + 2, c - 1), Cell(r + 2, c), Cell(r + 2, c + 1)])
    case East => Some([Cell(r, c), Cell(r + 1, c - 2), Cell(r + 1, c - 1), Cell(r + 1, c), Cell(r + 2, c)])
    case West => Some([Cell(r, c), Cell(r + 1, c), Cell(r + 1, c + 1), Cell(r + 1, c + 2), Cell(r + 2, c)])
    case Unknown => None
  }

  /**
   * The cells a ship of kind `k` with facing `b` and anchor `a` covers, in the
   * order the constructors add them; None where the constructor throws.
   */
  function Shape(k: ShipKind, b: Compass, a: Cell): Option<seq<Cell>> {
    match k
    case Barge => Some([a])
    case Galleon => GalleonShape(b, a)
    case _ =>
      match b
      case North | South => Some(Run(a, Size(k), true))
      case East | West => Some(Run(a, Size(k), false))
      case Unknown => None
  }

  predicate Distinct(cells: seq<Cell>) {
    forall i, j :: 0 <= i < j < |cells| ==> cells[i] != cells[j]
  }

  /**
   * Only an Unknown facing fails, and only for kinds other than the barge; a
   * shape has exactly the kind's size, starts at the anchor and never covers a
   * cell twice.
   */
  lemma ShapeWellFormed(k: ShipKind, b: Compass, a: Cell)
    ensures Shape(k, b, a).None? <==> k != Barge && b == Unknown
    ensures Shape(k, b, a).Some? ==>
      var cells := Shape(k, b, a).value;
      |cells| == Size(k) && cells[0] == a && Distinct(cells)
  {
  }

  /** A barge covers exactly its anchor, whatever the facing. */
  lemma BargeIgnoresFacing(b: Compass, a: Cell)
    ensures Shape(Barge, b, a) == Some([a])
  {
  }

  /**
   * For the straight kinds, the cells are exactly the `Size(k)` cells from the
   * anchor along the anchor's column (North, South) or row (East, West).
   */
  lemma {:induction false} StraightShapeMembers(k: ShipKind, b: Compass, a: Cell, c: Cell)
    requires k in {Caravel, Carrack, Frigate} && b != Unknown
    ensures c in Shape(k, b, a).value <==>
      if b in {North, South} then
        c.column == a.column && a.row <= c.row < a.row + Size(k)
      else
        c.row == a.row && a.column <= c.column < a.column + Size(k)
  {
    var vertical := b in {North, South};
    var cells := Run(a, Size(k), vertical);
    assert Shape(k, b, a).value == cells;
    var i := if vertical then c.row - a.row else c.column - a.column;
    if 0 <= i < Size(k) && (if vertical then c.column == a.column else c.row == a.row) {
      assert cells[i] == c;
    }
  }

  /** North and South give the same straight run, and so do East and West. */
  lemma StraightShapeIgnoresSense(k: ShipKind, a: Cell)
    requires k in {Caravel, Carrack, Frigate}
    ensures Shape(k, North, a) == Shape(k, South, a)
    ensures Shape(k, East, a) == Shape(k, West, a)
  {
  }

  /** The example of a carrack anchored at (2,2) facing East. */
  lemma CarrackEastExample()
    ensures Shape(Carrack, East, Cell(2, 2)) == Some([Cell(2, 2), Cell(2, 3), Cell(2, 4)])
  {
    var cells := Run(Cell(2, 2), 3, false);
    assert Shape(Carrack, East, Cell(2, 2)) == Some(cells);
    assert cells[0] == Cell(2, 2) && cells[1] == Cell(2, 3) && cells[2] == Cell(2, 4);
    assert cells == [Cell(2, 2), Cell(2, 3), Cell(2, 4)];
  }

  /** The example of a galleon anchored at (0,0) facing North. */
  lemma GalleonNorthExample()
    ensures Shape(Galleon, North, Cell(0, 0)) == Some([Cell(0, 0), Cell(0, 1), Cell(0, 2), Cell(1, 1), Cell(2, 1)])
  {
  }
}
