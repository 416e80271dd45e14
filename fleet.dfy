/**
 * The fleet (Fleet.java): an ordered list of ships that grows only through
 * admission. A ship is admitted when the fleet is not over its size check,
 * the ship lies on the 10x10 board and no cell of it touches (or overlaps) a
 * cell of a ship already admitted.
 */
module Fleets {
  import opened Positions
  import opened Shapes
  import opened Ships

  const BOARD_SIZE: int := 10
  const FLEET_SIZE: int := 10

  predicate OnBoard(c: Cell) {
    0 <= c.row <= BOARD_SIZE - 1 && 0 <= c.column <= BOARD_SIZE - 1
  }

  predicate InsideBoard(cells: seq<Cell>) {
    forall i :: 0 <= i < |cells| ==> OnBoard(cells[i])
  }

  /** Some ship of `ships` is too close to `s`: the collision risk. */
  predicate Collides(ships: seq<Ship>, s: Ship) {
    exists i :: 0 <= i < |ships| && TooCloseCells(ships[i].Cells(), s.Cells())
  }

  /**
   * The admission rule. The size check lets a fleet that already holds
   * FLEET_SIZE ships take one more.
   */
  predicate Admissible(ships: seq<Ship>, s: Ship) {
    |ships| <= FLEET_SIZE && InsideBoard(s.Cells()) && !Collides(ships, s)
  }

  /** No ship is too close to a ship admitted after it. */
  ghost predicate Separated(ships: seq<Ship>) {
    forall i, j :: 0 <= i < j < |ships| ==> !TooCloseCells(ships[i].Cells(), ships[j].Cells())
  }

  /** Some ship of `ships` covers `c`. */
  predicate Occupied(ships: seq<Ship>, c: Cell) {
    exists i :: 0 <= i < |ships| && c in ships[i].Cells()
  }

  /** All the positions owned by the ships of `ships`. */
  ghost function Footprint(ships: seq<Ship>): (fp: set<Position>)
    ensures forall s, i :: s in ships && 0 <= i < |s.positions| ==> s.positions[i] in fp
  {
    set s, i | s in ships && 0 <= i < |s.positions| :: s.positions[i]
  }

  /** The ships whose category is `category`, in admission order. */
  function ShipsLike(ships: seq<Ship>, category: string): seq<Ship> {
    if ships == [] then []
    else
      var last := ships[|ships| - 1];
      ShipsLike(ships[..|ships| - 1], category) + (if last.category == category then [last] else [])
  }

  /** The ships that still float, in admission order. */
  function FloatingOf(ships: seq<Ship>): seq<Ship>
    reads Footprint(ships)
  {
    if ships == [] then []
    else
      var last := ships[|ships| - 1];
      assert Footprint(ships[..|ships| - 1]) <= Footprint(ships);
      assert forall p :: p in last.positions ==> p in Footprint(ships);
      FloatingOf(ships[..|ships| - 1]) + (if last.IsFloating() then [last] else [])
  }

  /** getShipsLike keeps exactly the ships of that category, and no more of them than the fleet has. */
  lemma {:induction false} ShipsLikeMembers(ships: seq<Ship>, category: string)
    ensures forall s :: s in ShipsLike(ships, category) <==> s in ships && s.category == category
    ensures |ShipsLike(ships, category)| <= |ships|
  {
    if ships != [] {
      var init := ships[..|ships| - 1];
      ShipsLikeMembers(init, category);
      assert ships == init + [ships[|ships| - 1]];
    }
  }

  /** getFloatingShips keeps exactly the ships that still float. */
  lemma {:induction false} FloatingOfMembers(ships: seq<Ship>)
    ensures forall s :: s in FloatingOf(ships) <==> s in ships && s.IsFloating()
    ensures |FloatingOf(ships)| <= |ships|
  {
    if ships != [] {
      var init := ships[..|ships| - 1];
      FloatingOfMembers(init);
      assert ships == init + [ships[|ships| - 1]];
    }
  }

  /** When every ship still floats (before any shot, say) the floating ships are the whole fleet. */
  lemma {:induction false} FloatingOfAllFloating(ships: seq<Ship>)
    requires forall i :: 0 <= i < |ships| ==> ships[i].IsFloating()
    ensures FloatingOf(ships) == ships
  {
    if ships != [] {
      var init := ships[..|ships| - 1];
      FloatingOfAllFloating(init);
      assert ships == init + [ships[|ships| - 1]];
    }
  }

  /** When every ship is sunk there are no floating ships left. */
  lemma {:induction false} FloatingOfAllSunk(ships: seq<Ship>)
    requires forall i :: 0 <= i < |ships| ==> !ships[i].IsFloating()
    ensures FloatingOf(ships) == []
  {
    if ships != [] {
      FloatingOfAllSunk(ships[..|ships| - 1]);
    }
  }

  /** Two different ships of a separated fleet never cover the same cell. */
  lemma SeparatedDisjoint(ships: seq<Ship>, i: nat, j: nat, c: Cell)
    requires Separated(ships)
    requires i < |ships| && j < |ships| && i != j
    requires c in ships[i].Cells()
    ensures c !in ships[j].Cells()
  {
    if c in ships[j].Cells() {
      if i < j {
        SharedCellTooClose(ships[i].Cells(), ships[j].Cells(), c);
      } else {
        SharedCellTooClose(ships[j].Cells(), ships[i].Cells(), c);
      }
      assert false;
    }
  }

  /** An admitted ship always collides with the fleet: the same ship cannot be admitted twice. */
  lemma AdmittedShipCollides(ships: seq<Ship>, k: nat)
    requires k < |ships| && ships[k].Valid()
    ensures Collides(ships, ships[k])
    ensures !Admissible(ships, ships[k])
  {
    ships[k].ValidFacts();
    var c := ships[k].Cells()[0];
    SharedCellTooClose(ships[k].Cells(), ships[k].Cells(), c);
  }

  class Fleet {
    var ships: seq<Ship>

    /** The fleet's invariant, established by admission alone. */
    ghost predicate Valid()
      reads this
    {
      && |ships| <= FLEET_SIZE + 1
      && (forall i :: 0 <= i < |ships| ==> ships[i].Valid() && InsideBoard(ships[i].Cells()))
      && Separated(ships)
    }

    /** A new fleet is empty. */
    constructor ()
      ensures Valid() && ships == []
    {
      ships := [];
    }

    /**
     * addShip: appends `s` when the admission rule holds and reports whether
     * it did; on refusal nothing changes.
     */
    method AddShip(s: Ship) returns (added: bool)
      requires Valid() && s.Valid()
      modifies this
      ensures added == Admissible(old(ships), s)
      ensures ships == if added then old(ships) + [s] else old(ships)
      ensures Valid()
    {
      added := false;
      if |ships| <= FLEET_SIZE {
        var inside := IsInsideBoard(s);
        if inside {
          var risk := CollisionRisk(s);
          if !risk {
            ships := ships + [s];
            added := true;
          }
        }
      }
    }

    /** isInsideBoard: the ship's extreme rows and columns all lie in 0..BOARD_SIZE-1. */
    method IsInsideBoard(s: Ship) returns (inside: bool)
      requires s.Valid()
      ensures inside == InsideBoard(s.Cells())
    {
      var left := s.LeftMostPos();
      var right := s.RightMostPos();
      var top := s.TopMostPos();
      var bottom := s.BottomMostPos();
      inside := left >= 0 && right <= BOARD_SIZE - 1 && top >= 0 && bottom <= BOARD_SIZE - 1;
      if !inside {
        var cells := s.Cells();
        if left < 0 {
          var i :| 0 <= i < |s.positions| && s.positions[i].column == left;
          assert !OnBoard(cells[i]);
        } else if right > BOARD_SIZE - 1 {
          var i :| 0 <= i < |s.positions| && s.positions[i].column == right;
          assert !OnBoard(cells[i]);
        } else if top < 0 {
          var i :| 0 <= i < |s.positions| && s.positions[i].row == top;
          assert !OnBoard(cells[i]);
        } else {
          var i :| 0 <= i < |s.positions| && s.positions[i].row == bottom;
          assert !OnBoard(cells[i]);
        }
      }
    }

    /** colisionRisk: some admitted ship is too close to `s`. */
    method CollisionRisk(s: Ship) returns (risk: bool)
      requires Valid()
      ensures risk == Collides(ships, s)
    {
      for i := 0 to |ships|
        invariant forall j :: 0 <= j < i ==> !TooCloseCells(ships[j].Cells(), s.Cells())
      {
        var close := ships[i].TooCloseTo(s);
        if close {
          return true;
        }
      }
      return false;
    }

    /** getShipsLike: the ships of the given category, in admission order. */
    method GetShipsLike(category: string) returns (like: seq<Ship>)
      ensures like == ShipsLike(ships, category)
    {
      like := [];
      for i := 0 to |ships|
        invariant like == ShipsLike(ships[..i], category)
      {
        assert ships[..i + 1][..i] == ships[..i];
        if ships[i].category == category {
          like := like + [ships[i]];
        }
      }
      assert ships[..|ships|] == ships;
    }

    /** getFloatingShips: the ships that still float, in admission order. */
    method GetFloatingShips() returns (floating: seq<Ship>)
      requires Valid()
      ensures floating == FloatingOf(ships)
    {
      floating := [];
      for i := 0 to |ships|
        invariant floating == FloatingOf(ships[..i])
      {
        label before:
        var f := ships[i].StillFloating();
        assert unchanged@before(Footprint(ships[..i]));
        assert ships[..i + 1][..i] == ships[..i];
        assert FloatingOf(ships[..i + 1]) ==
          FloatingOf(ships[..i]) + (if ships[i].IsFloating() then [ships[i]] else []);
        if f {
          floating := floating + [ships[i]];
        }
      }
      assert ships[..|ships|] == ships;
    }

    /** shipAt: the first ship, in admission order, that covers `pos`, or null. */
    method ShipAt(pos: Position) returns (s: Ship?)
      requires Valid()
      ensures s == null <==> !Occupied(ships, pos.Loc())
      ensures s != null ==> exists k :: 0 <= k < |ships| && ships[k] == s && pos.Loc() in s.Cells() &&
                                       (forall j :: 0 <= j < k ==> pos.Loc() !in ships[j].Cells())
    {
      for i := 0 to |ships|
        invariant forall j :: 0 <= j < i ==> pos.Loc() !in ships[j].Cells()
      {
        var occupies := ships[i].Occupies(pos);
        if occupies {
          return ships[i];
        }
      }
      return null;
    }
  }

  /**
   * A cell of one ship of a valid fleet belongs to no other ship, and no
   * other ship shares a position object with it.
   */
  lemma OthersApart(f: Fleet, k: nat, c: Cell)
    requires f.Valid()
    requires k < |f.ships| && c in f.ships[k].Cells()
    ensures forall t, i :: t in f.ships && t != f.ships[k] && 0 <= i < |t.positions| ==>
      t.positions[i] !in f.ships[k].positions && t.positions[i].Loc() != c
  {
    forall t, i | t in f.ships && t != f.ships[k] && 0 <= i < |t.positions|
      ensures t.positions[i] !in f.ships[k].positions && t.positions[i].Loc() != c
    {
      var j :| 0 <= j < |f.ships| && f.ships[j] == t;
      assert t.Cells()[i] == t.positions[i].Loc();
      SeparatedDisjoint(f.ships, j, k, t.positions[i].Loc());
      SeparatedDisjoint(f.ships, k, j, c);
    }
  }

  /** A cell no ship covers is the location of no position of the fleet. */
  lemma UnoccupiedCell(ships: seq<Ship>, c: Cell)
    requires !Occupied(ships, c)
    ensures forall t, i :: t in ships && 0 <= i < |t.positions| ==> t.positions[i].Loc() != c
  {
    forall t, i | t in ships && 0 <= i < |t.positions| ensures t.positions[i].Loc() != c {
      var m :| 0 <= m < |ships| && ships[m] == t;
      assert t.Cells()[i] == t.positions[i].Loc();
    }
  }

  /** The ship of a valid fleet that covers `c` is the only one that does. */
  lemma OccupantIs(f: Fleet, k: nat, c: Cell)
    requires f.Valid()
    requires k < |f.ships| && c in f.ships[k].Cells()
    ensures forall t :: t in f.ships && c in t.Cells() ==> t == f.ships[k]
  {
    forall t | t in f.ships && c in t.Cells() ensures t == f.ships[k] {
      var m :| 0 <= m < |f.ships| && f.ships[m] == t;
      OccupantUnique(f, c, m, k);
    }
  }

  /** In a valid fleet the ship covering a cell is unique. */
  lemma OccupantUnique(f: Fleet, c: Cell, i: nat, j: nat)
    requires f.Valid()
    requires i < |f.ships| && j < |f.ships|
    requires c in f.ships[i].Cells() && c in f.ships[j].Cells()
    ensures i == j
  {
    if i != j {
      SeparatedDisjoint(f.ships, i, j, c);
    }
  }
}
