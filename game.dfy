/**
 * A firing session against one fleet (Game.java). Each shot is classified as
 * invalid, repeated, a miss, a hit or a hit that sinks a ship; the session
 * keeps the ordered log of the shots that were neither invalid nor repeated,
 * and four counters.
 */
module Games {
  import opened Positions
  import opened Shapes
  import opened Ships
  import opened Fleets

  /**
   * The bounds check on shots. As written it accepts row and column
   * BOARD_SIZE, one past the last cell of the board.
   */
  predicate ValidShot(c: Cell)
    ensures OnBoard(c) ==> ValidShot(c)
    ensures ValidShot(c) && !OnBoard(c) ==>
      (c.row == BOARD_SIZE && 0 <= c.column <= BOARD_SIZE) || (c.column == BOARD_SIZE && 0 <= c.row <= BOARD_SIZE)
    ensures c.row == BOARD_SIZE && 0 <= c.column <= BOARD_SIZE ==> ValidShot(c)
    ensures c.column == BOARD_SIZE && 0 <= c.row <= BOARD_SIZE ==> ValidShot(c)
  {
    0 <= c.row <= BOARD_SIZE && 0 <= c.column <= BOARD_SIZE
  }

  /**
   * A shot on row or column BOARD_SIZE passes the bounds check, yet no ship
   * of a valid fleet covers it: it can only be logged as a miss.
   */
  lemma EdgeShotAlwaysMisses(f: Fleet, c: Cell)
    requires f.Valid()
    requires 0 <= c.row <= BOARD_SIZE && 0 <= c.column <= BOARD_SIZE
    requires c.row == BOARD_SIZE || c.column == BOARD_SIZE
    ensures ValidShot(c)
    ensures !OnBoard(c)
    ensures !Occupied(f.ships, c)
  {
    forall i, k | 0 <= i < |f.ships| && 0 <= k < |f.ships[i].Cells()|
      ensures f.ships[i].Cells()[k] != c
    {
      assert OnBoard(f.ships[i].Cells()[k]);
    }
  }

  /** No position of any ship of the fleet is hit. */
  ghost predicate NoHits(ships: seq<Ship>)
    reads Footprint(ships)
  {
    forall s, i :: s in ships && 0 <= i < |s.positions| ==> !s.positions[i].hit
  }

  /** Before any shot every ship of a fleet without hits still floats: the remaining count is the fleet size. */
  lemma RemainingAtStart(ships: seq<Ship>)
    requires forall i :: 0 <= i < |ships| ==> ships[i].Valid()
    requires NoHits(ships)
    ensures FloatingOf(ships) == ships
  {
    forall i | 0 <= i < |ships| ensures ships[i].IsFloating() {
      ships[i].ValidFacts();
      assert !ships[i].positions[0].hit;
    }
    FloatingOfAllFloating(ships);
  }

  /**
   * No cell occurs twice, stated the way the log grows: the last cell is new
   * and the cells before it have no repeats.
   */
  predicate NoRepeats(cells: seq<Cell>) {
    |cells| == 0 || (cells[|cells| - 1] !in cells[..|cells| - 1] && NoRepeats(cells[..|cells| - 1]))
  }

  /** What the log of a session keeps: no cell twice, and every cell passed the bounds check. */
  predicate LogInvariant(cells: seq<Cell>) {
    NoRepeats(cells) && forall i :: 0 <= i < |cells| ==> ValidShot(cells[i])
  }

  /** Appending a new cell that passed the bounds check keeps the log invariant. */
  lemma LogGrows(cells: seq<Cell>, c: Cell)
    requires LogInvariant(cells) && c !in cells && ValidShot(c)
    ensures LogInvariant(cells + [c])
  {
    assert (cells + [c])[..|cells|] == cells;
  }

  /** The incremental statement and the pairwise one agree. */
  lemma {:induction false} NoRepeatsIffDistinct(cells: seq<Cell>)
    ensures NoRepeats(cells) <==> Distinct(cells)
  {
    if |cells| > 0 {
      var init := cells[..|cells| - 1];
      NoRepeatsIffDistinct(init);
      if Distinct(cells) {
        assert Distinct(init) by {
          forall i, j | 0 <= i < j < |init| ensures init[i] != init[j] {
            assert init[i] == cells[i] && init[j] == cells[j];
          }
        }
      }
      if NoRepeats(cells) {
        forall i, j | 0 <= i < j < |cells| ensures cells[i] != cells[j] {
          if j < |cells| - 1 {
            assert init[i] == cells[i] && init[j] == cells[j];
          } else {
            assert init[i] == cells[i];
          }
        }
      }
    }
  }

  class Game {
    const fleet: Fleet
    var shots: seq<Position>
    var invalidShots: nat
    var repeatedShots: nat
    var hits: nat
    var sinks: nat

    /** The coordinates of the logged shots, in firing order. */
    function ShotCells(): seq<Cell>
      reads this`shots
    {
      CellsOf(shots)
    }

    /** The log's invariant: distinct shots, each of which passed the bounds check. */
    ghost predicate Valid()
      reads this`shots
    {
      LogInvariant(ShotCells())
    }

    /**
     * A new session on `fleet`: empty log, all counters at zero (the source
     * leaves the hit and sink counters unset).
     */
    constructor (fleet: Fleet)
      ensures this.fleet == fleet && shots == []
      ensures invalidShots == 0 && repeatedShots == 0 && hits == 0 && sinks == 0
      ensures Valid()
    {
      this.fleet := fleet;
      shots := [];
      invalidShots := 0;
      repeatedShots := 0;
      hits := 0;
      sinks := 0;
    }

    /** repeatedShot: some logged shot has the same row and column as `pos`. */
    method RepeatedShot(pos: Position) returns (repeated: bool)
      ensures repeated <==> pos.Loc() in ShotCells()
    {
      for i := 0 to |shots|
        invariant forall j :: 0 <= j < i ==> ShotCells()[j] != pos.Loc()
      {
        if shots[i].Equals(pos) {
          assert ShotCells()[i] == pos.Loc();
          return true;
        }
      }
      return false;
    }

    /**
     * fire: classifies one shot and updates the log, the counters and the hit
     * flags; returns the ship this very shot sank, or null.
     */
    method Fire(pos: Position) returns (sunk: Ship?)
      requires Valid() && fleet.Valid()
      modifies this, Footprint(fleet.ships)
      ensures Valid()
      ensures invalidShots + repeatedShots + |shots| == old(invalidShots + repeatedShots + |shots|) + 1
      ensures old(invalidShots) <= invalidShots && old(repeatedShots) <= repeatedShots
      ensures old(hits) <= hits && old(sinks) <= sinks
      ensures forall s, i :: s in fleet.ships && 0 <= i < |s.positions| ==>
        s.positions[i].occupied == old(s.positions[i].occupied)
      // An invalid shot is only counted.
      ensures !ValidShot(pos.Loc()) ==>
        && invalidShots == old(invalidShots) + 1
        && repeatedShots == old(repeatedShots) && hits == old(hits) && sinks == old(sinks)
        && shots == old(shots) && unchanged(Footprint(fleet.ships)) && sunk == null
      // A repeated shot is only counted.
      ensures ValidShot(pos.Loc()) && pos.Loc() in old(ShotCells()) ==>
        && repeatedShots == old(repeatedShots) + 1
        && invalidShots == old(invalidShots) && hits == old(hits) && sinks == old(sinks)
        && shots == old(shots) && unchanged(Footprint(fleet.ships)) && sunk == null
      // Any other shot is logged; the fleet cells it lands on are hit, and a hit is counted.
      ensures ValidShot(pos.Loc()) && pos.Loc() !in old(ShotCells()) ==>
        && shots == old(shots) + [pos]
        && invalidShots == old(invalidShots) && repeatedShots == old(repeatedShots)
        && hits == old(hits) + (if Occupied(fleet.ships, pos.Loc()) then 1 else 0)
        && sinks == old(sinks) + (if sunk == null then 0 else 1)
        && (forall s, i :: s in fleet.ships && 0 <= i < |s.positions| ==>
              s.positions[i].hit == (old(s.positions[i].hit) || s.positions[i].Loc() == pos.Loc()))
      // The ship returned is the one just hit, and it no longer floats.
      ensures sunk != null ==>
        && ValidShot(pos.Loc()) && pos.Loc() !in old(ShotCells())
        && sunk in fleet.ships && pos.Loc() in sunk.Cells() && !sunk.IsFloating()
      // A hit that returns null leaves the ship it hit floating.
      ensures sunk == null ==> forall s :: s in fleet.ships && pos.Loc() in s.Cells() ==> s.IsFloating() || !ValidShot(pos.Loc()) || pos.Loc() in old(ShotCells())
    {
      if !ValidShot(pos.Loc()) {
        invalidShots := invalidShots + 1;
        return null;
      }
      var repeated := RepeatedShot(pos);
      if repeated {
        repeatedShots := repeatedShots + 1;
        return null;
      }
      sunk := Record(pos);
      CellsOfSnoc(old(shots), pos);
      LogGrows(old(ShotCells()), pos.Loc());
    }

    /**
     * The branch of fire for a shot that is neither invalid nor repeated: the
     * shot is logged, and the ship at its coordinates, if any, is struck.
     */
    method Record(pos: Position) returns (sunk: Ship?)
      requires fleet.Valid()
      modifies this`shots, this`hits, this`sinks, Footprint(fleet.ships)
      ensures shots == old(shots) + [pos]
      ensures hits == old(hits) + (if Occupied(fleet.ships, pos.Loc()) then 1 else 0)
      ensures sinks == old(sinks) + (if sunk == null then 0 else 1)
      ensures forall t, i :: t in fleet.ships && 0 <= i < |t.positions| ==>
        && t.positions[i].hit == (old(t.positions[i].hit) || t.positions[i].Loc() == pos.Loc())
        && t.positions[i].occupied == old(t.positions[i].occupied)
      ensures sunk != null ==> sunk in fleet.ships && pos.Loc() in sunk.Cells() && !sunk.IsFloating()
      ensures sunk == null ==> forall t :: t in fleet.ships && pos.Loc() in t.Cells() ==> t.IsFloating()
    {
      shots := shots + [pos];
      var s := fleet.ShipAt(pos);
      if s == null {
        UnoccupiedCell(fleet.ships, pos.Loc());
        return null;
      }
      ghost var k :| 0 <= k < |fleet.ships| && fleet.ships[k] == s && pos.Loc() in s.Cells();
      OccupantIs(fleet, k, pos.Loc());
      sunk := Strike(pos, s, k);
    }

    /**
     * The hit branch of fire: `s`, the ship covering `pos`, is shot at `pos`;
     * the hit is counted, and `s` is counted and returned when it no longer
     * floats. `k` locates `s` in the fleet.
     */
    method Strike(pos: Position, s: Ship, ghost k: nat) returns (sunk: Ship?)
      requires fleet.Valid()
      requires k < |fleet.ships| && fleet.ships[k] == s && pos.Loc() in s.Cells()
      modifies this`hits, this`sinks, s.positions
      ensures hits == old(hits) + 1
      ensures sinks == old(sinks) + (if sunk == null then 0 else 1)
      ensures sunk == null || sunk == s
      ensures sunk == null <==> s.IsFloating()
      ensures forall t, i :: t in fleet.ships && 0 <= i < |t.positions| ==>
        && t.positions[i].hit == (old(t.positions[i].hit) || t.positions[i].Loc() == pos.Loc())
        && t.positions[i].occupied == old(t.positions[i].occupied)
    {
      OthersApart(fleet, k, pos.Loc());
      s.Shoot(pos);
      hits := hits + 1;
      var floating := s.StillFloating();
      if !floating {
        sinks := sinks + 1;
        return s;
      }
      return null;
    }

    /** getRemainingShips: the number of ships that still float, recomputed on each call. */
    method GetRemainingShips() returns (remaining: nat)
      requires fleet.Valid()
      ensures remaining == |FloatingOf(fleet.ships)|
      ensures remaining <= |fleet.ships|
      ensures remaining == 0 <==> forall i :: 0 <= i < |fleet.ships| ==> !fleet.ships[i].IsFloating()
    {
      var floating := fleet.GetFloatingShips();
      FloatingOfMembers(fleet.ships);
      if forall i :: 0 <= i < |fleet.ships| ==> !fleet.ships[i].IsFloating() {
        FloatingOfAllSunk(fleet.ships);
      }
      remaining := |floating|;
    }
  }
}
