# Battleship rules engine (Dafny model)

This project models the rules engine of a single-sided Battleship game. It
has four layers.

- **Board cells.** A position has a fixed row and column, and two flags that only ever go from false to true: hit and occupied.
- **Facings.** A facing is parsed from one character. West is written `o` (Oeste).
- **Ship geometry.** There are five ship kinds: barca, caravela, nau, fragata and galeao. Each one computes its cells once, from a facing and an anchor.
- **Fleet and game.**
  - A fleet admits a ship only when three things hold: the size check passes, the ship lies on the 10x10 board, and no cell of the ship touches or overlaps a cell of a ship already admitted.
  - A game classifies each shot as invalid, repeated, miss, hit or hit-and-sink. It keeps the log of the shots it accepted, plus four counters.

The modules follow the source files:
- `Wrappers` holds `Option`.
- `Directions` models `Compass.java`.
- `Positions` models `Position.java`.
- `Shapes` holds the reference cell lists of the five kinds: a pure definition of what `Barge.java`, `Caravel.java`, `Carrack.java`, `Frigate.java` and `Galleon.java` build.
- `Ships` models `Ship.java` and the five subclass constructors.
- `Fleets` models `Fleet.java`.
- `Games` models `Game.java`.

How the classes are modelled:
- `Position`, `Ship`, `Fleet` and `Game` are classes, because the source updates them in place.
- A ship owns a sequence of freshly allocated `Position` objects. Shooting a ship flips the hit flags of exactly those objects.
- The five ship subclasses become five named constructors of one `Ship` class, tagged with a `ShipKind`. Each constructor is proved to build the reference shape of its kind.
- The source throws `IllegalArgumentException` when a caravela, nau, fragata or galeao gets an UNKNOWN facing. The named constructors therefore require a known facing, and the factory `BuildShip` returns `InvalidBearing` in that case. It returns `UnknownKind` where the source returns null for an unknown token.

The source's off-by-one bounds are kept as written:
- The fleet's size check `size <= FLEET_SIZE` lets an eleventh ship in, so the fleet invariant bounds the fleet at `FLEET_SIZE + 1`.
- The shot bounds check accepts row and column `BOARD_SIZE` (10), one past the last cell. `Games.EdgeShotAlwaysMisses` proves that such a shot can never hit a ship of an admitted fleet.

Constants: `BOARD_SIZE = 10` and `FLEET_SIZE = 10` (src/main/java/iscteiul/ista/battleship/IFleet.java:12 and :15).

## Model

| member | source | states |
|---|---|---|
| Directions.CharToCompass | src/main/java/iscteiul/ista/battleship/Compass.java:73-92 | each of 'n', 's', 'e', 'o' gives its own facing and is the only character that does; every other character, 'w' included, gives Unknown |
| Directions.Compass.Direction | src/main/java/iscteiul/ista/battleship/Compass.java:52-54 | the character each facing was declared with: it is one of 'n', 's', 'e', 'o', 'u', and parsing it gives that facing back, Unknown included through the default case (the two clauses together force Unknown's character to be 'u') |
| Directions.DirectionInjective | src/main/java/iscteiul/ista/battleship/Compass.java:52-54 | distinct facings are declared with distinct characters |
| Positions.Position.constructor | src/main/java/iscteiul/ista/battleship/Position.java:23-28 | a new position has the given row and column and is neither occupied nor hit |
| Positions.Position.Equals | src/main/java/iscteiul/ista/battleship/Position.java:67-76 | two positions are equal iff row and column match; the flags play no part |
| Positions.EqualsIsEquivalence | src/main/java/iscteiul/ista/battleship/Position.java:67-76 | equality of positions is reflexive, symmetric and transitive |
| Positions.Position.IsAdjacentTo | src/main/java/iscteiul/ista/battleship/Position.java:86-88 | adjacency holds iff the Chebyshev distance of the two cells is at most one |
| Positions.AdjacentIffChebyshev | src/main/java/iscteiul/ista/battleship/Position.java:86-88 | both row and column differ by at most one iff the Chebyshev distance is at most one, so diagonal neighbours count |
| Positions.AdjacentReflexiveSymmetric | src/main/java/iscteiul/ista/battleship/Position.java:86-88 | every cell is adjacent to itself, and adjacency is symmetric |
| Positions.EqualImpliesAdjacent | src/main/java/iscteiul/ista/battleship/Position.java:86-88 | equal positions are adjacent |
| Positions.Position.Occupy | src/main/java/iscteiul/ista/battleship/Position.java:94-96 | sets the occupied flag and leaves the hit flag (and the constant coordinates) unchanged |
| Positions.Position.Shoot | src/main/java/iscteiul/ista/battleship/Position.java:102-104 | sets the hit flag, so a second shot changes nothing; the occupied flag and the coordinates are unchanged |
| Shapes.KindOfToken | src/main/java/iscteiul/ista/battleship/Ship.java:29-51 | the factory's dispatch: a kind is found only for its own token, and nothing is found iff the string is none of the five tokens |
| Shapes.TokenRoundTrip | src/main/java/iscteiul/ista/battleship/Ship.java:14-18 | each kind's token is recognised as that kind |
| Shapes.CategoryIsNotToken | src/main/java/iscteiul/ista/battleship/Barge.java:22 | the capitalised category a ship reports ("Barca", ...) is not accepted by the factory |
| Shapes.ShapeWellFormed | src/main/java/iscteiul/ista/battleship/Galleon.java:21-44 | a shape is missing exactly for an Unknown facing of a kind other than the barge; otherwise it has the kind's size, starts at the anchor and has pairwise distinct cells |
| Shapes.BargeIgnoresFacing | src/main/java/iscteiul/ista/battleship/Barge.java:35-38 | a barge covers exactly its anchor, whatever the facing, Unknown included |
| Shapes.StraightShapeMembers | src/main/java/iscteiul/ista/battleship/Carrack.java:39-55 | a caravela, nau or fragata covers exactly the size-many cells from the anchor down its column (North, South) or along its row (East, West) |
| Shapes.StraightShapeIgnoresSense | src/main/java/iscteiul/ista/battleship/Caravel.java:47-56 | North and South give the same cells, and so do East and West |
| Shapes.CarrackEastExample | src/main/java/iscteiul/ista/battleship/Carrack.java:47-51 | a nau anchored at (2,2) facing East covers (2,2), (2,3), (2,4) in that order |
| Shapes.GalleonNorthExample | src/main/java/iscteiul/ista/battleship/Galleon.java:61-67 | a galeao anchored at (0,0) facing North covers (0,0), (0,1), (0,2), (1,1), (2,1) in that order |
| Ships.LayStraight | src/main/java/iscteiul/ista/battleship/Frigate.java:23-39 | the constructor loop lays n new, unflagged positions whose coordinates are the straight run from the anchor |
| Ships.FillNorth | src/main/java/iscteiul/ista/battleship/Galleon.java:61-67 | lays new positions whose coordinates are exactly the North galeao shape, in order |
| Ships.FillSouth | src/main/java/iscteiul/ista/battleship/Galleon.java:74-81 | lays new positions whose coordinates are exactly the South galeao shape, in order |
| Ships.FillEast | src/main/java/iscteiul/ista/battleship/Galleon.java:88-94 | lays new positions whose coordinates are exactly the East galeao shape, in order |
| Ships.FillWest | src/main/java/iscteiul/ista/battleship/Galleon.java:101-107 | lays new positions whose coordinates are exactly the West galeao shape, in order |
| Ships.Ship.Barge | src/main/java/iscteiul/ista/battleship/Barge.java:35-38 | stores kind, facing and anchor; the single new position is at the anchor, for any facing |
| Ships.Ship.Caravel | src/main/java/iscteiul/ista/battleship/Caravel.java:40-60 | stores kind, facing and anchor; the new positions are the two-cell reference shape |
| Ships.Ship.Carrack | src/main/java/iscteiul/ista/battleship/Carrack.java:39-55 | stores kind, facing and anchor; the new positions are the three-cell reference shape |
| Ships.Ship.Frigate | src/main/java/iscteiul/ista/battleship/Frigate.java:23-39 | stores kind, facing and anchor; the new positions are the four-cell reference shape |
| Ships.Ship.Galleon | src/main/java/iscteiul/ista/battleship/Galleon.java:21-44 | stores kind, facing and anchor; the new positions are the five-cell shape of that facing |
| Ships.BuildShip | src/main/java/iscteiul/ista/battleship/Ship.java:29-51 | an unknown token gives no ship; a known token with an Unknown facing gives InvalidBearing except for the barge; otherwise the result is a new ship of that kind, facing and anchor with its reference shape |
| Ships.Ship.GetSize | src/main/java/iscteiul/ista/battleship/Barge.java:46-48 | the kind's fixed size: the number of cells of the kind's reference shape, from 1 (barca only) to 5 (galeao only), and for a well-formed ship the number of its positions; the same holds for the getSize of Caravel.java:67-69, Carrack.java:63-65 and Frigate.java:47-49 |
| Ships.Ship.ValidFacts | src/main/java/iscteiul/ista/battleship/Galleon.java:52-54 | for every kind (each subclass's getSize, here the galeao's), a well-formed ship has exactly getSize() positions (at least one), the first at the anchor, with pairwise distinct cells and distinct position objects |
| Ships.Ship.StillFloating | src/main/java/iscteiul/ista/battleship/Ship.java:123-128 | true iff some position of the ship is not hit |
| Ships.Ship.TopMostPos | src/main/java/iscteiul/ista/battleship/Ship.java:136-142 | the minimum row over the ship's positions: no row is smaller and some position has it |
| Ships.Ship.BottomMostPos | src/main/java/iscteiul/ista/battleship/Ship.java:150-156 | the maximum row over the ship's positions |
| Ships.Ship.LeftMostPos | src/main/java/iscteiul/ista/battleship/Ship.java:164-170 | the minimum column over the ship's positions |
| Ships.Ship.RightMostPos | src/main/java/iscteiul/ista/battleship/Ship.java:178-184 | the maximum column over the ship's positions |
| Ships.Ship.Occupies | src/main/java/iscteiul/ista/battleship/Ship.java:193-200 | true iff some position of the ship has the row and column of `pos` |
| Ships.Ship.TooCloseToPosition | src/main/java/iscteiul/ista/battleship/Ship.java:228-233 | true iff some cell of the ship is adjacent to `pos` |
| Ships.Ship.TooCloseTo | src/main/java/iscteiul/ista/battleship/Ship.java:210-219 | true iff some cell of `other` is adjacent to some cell of this ship |
| Ships.TooCloseSymmetric | src/main/java/iscteiul/ista/battleship/Ship.java:210-233 | being too close is symmetric |
| Ships.SharedCellTooClose | src/main/java/iscteiul/ista/battleship/Ship.java:210-233 | ships that share a cell are too close; in particular every ship is too close to itself |
| Ships.Ship.Shoot | src/main/java/iscteiul/ista/battleship/Ship.java:243-250 | marks as hit exactly the positions with the coordinates of `pos`; other positions and all occupied flags are unchanged; a sunk ship stays sunk |
| Fleets.Fleet.constructor | src/main/java/iscteiul/ista/battleship/Fleet.java:31-33 | a new fleet is empty and satisfies the fleet invariant |
| Fleets.Fleet.AddShip | src/main/java/iscteiul/ista/battleship/Fleet.java:55-62 | admits iff size <= FLEET_SIZE, every cell is on the board and no admitted ship is too close; on success appends at the end, on refusal changes nothing; keeps the invariant (at most FLEET_SIZE + 1 ships, all on the board, pairwise not too close) |
| Fleets.Fleet.IsInsideBoard | src/main/java/iscteiul/ista/battleship/Fleet.java:116-119 | the four extreme rows and columns are in 0..BOARD_SIZE-1 iff every cell of the ship is on the board |
| Fleets.Fleet.CollisionRisk | src/main/java/iscteiul/ista/battleship/Fleet.java:127-133 | true iff some admitted ship is too close to `s` |
| Fleets.AdmittedShipCollides | src/main/java/iscteiul/ista/battleship/Fleet.java:127-133 | an admitted ship always collides with the fleet, so the same ship is never admitted twice |
| Fleets.SeparatedDisjoint | src/main/java/iscteiul/ista/battleship/Fleet.java:127-133 | two different ships of a fleet that keeps the invariant never cover the same cell |
| Fleets.Fleet.GetShipsLike | src/main/java/iscteiul/ista/battleship/Fleet.java:71-78 | the result is the ordered subsequence of ships of that category |
| Fleets.ShipsLikeMembers | src/main/java/iscteiul/ista/battleship/Fleet.java:71-78 | a ship is in the result iff it is in the fleet and has that category; the result is no longer than the fleet |
| Fleets.Fleet.GetFloatingShips | src/main/java/iscteiul/ista/battleship/Fleet.java:87-94 | the result is the ordered subsequence of ships that still float |
| Fleets.FloatingOfMembers | src/main/java/iscteiul/ista/battleship/Fleet.java:87-94 | a ship is in the result iff it is in the fleet and still floats; the result is no longer than the fleet |
| Fleets.FloatingOfAllFloating | src/main/java/iscteiul/ista/battleship/Fleet.java:87-94 | when every ship floats, the result is the whole fleet |
| Fleets.FloatingOfAllSunk | src/main/java/iscteiul/ista/battleship/Fleet.java:87-94 | when every ship is sunk, the result is empty |
| Fleets.Fleet.ShipAt | src/main/java/iscteiul/ista/battleship/Fleet.java:103-108 | null iff no ship covers `pos`; otherwise the first ship, in admission order, that covers it |
| Fleets.OccupantUnique | src/main/java/iscteiul/ista/battleship/Fleet.java:103-108 | in a fleet that keeps the invariant, at most one ship covers a cell |
| Fleets.OccupantIs | src/main/java/iscteiul/ista/battleship/Fleet.java:103-108 | the ship found covering a cell is the only ship of the fleet that covers it |
| Fleets.OthersApart | src/main/java/iscteiul/ista/battleship/Game.java:50-52 | shooting the ship found at a cell touches no position of any other ship: they neither share position objects nor have that cell |
| Fleets.UnoccupiedCell | src/main/java/iscteiul/ista/battleship/Game.java:50-51 | when no ship covers the cell of a shot, no position of the fleet has that cell, so a miss changes no flag |
| Games.ValidShot | src/main/java/iscteiul/ista/battleship/Game.java:131-134 | accepts every cell of the board and, beyond it, every cell of row or column BOARD_SIZE whose other coordinate is in 0..BOARD_SIZE, and nothing else: rows and columns 0..BOARD_SIZE inclusive, one past the last cell |
| Games.EdgeShotAlwaysMisses | src/main/java/iscteiul/ista/battleship/Game.java:131-134 | a shot on row or column BOARD_SIZE (10), other coordinate in 0..10, passes the bounds check although it is off the board, and no ship of an admitted fleet covers it |
| Games.LogGrows | src/main/java/iscteiul/ista/battleship/Game.java:49 | appending a shot that passed the bounds check and is not yet logged keeps the log free of repeats and within 0..10 on both axes |
| Games.NoRepeatsIffDistinct | src/main/java/iscteiul/ista/battleship/Game.java:142-147 | the log's incremental no-repeat property is equivalent to its cells being pairwise distinct |
| Games.Game.constructor | src/main/java/iscteiul/ista/battleship/Game.java:26-31 | a new game has the given fleet, an empty log and all four counters at zero |
| Games.Game.RepeatedShot | src/main/java/iscteiul/ista/battleship/Game.java:142-147 | true iff some logged shot has the row and column of `pos` |
| Games.Game.Fire | src/main/java/iscteiul/ista/battleship/Game.java:42-62 | an invalid shot only increments the invalid counter; a repeated shot only increments the repeated counter; any other shot is appended to the log, hits exactly the fleet positions with its coordinates, and adds one hit iff a ship covers it; the result is non-null only when the ship hit is now sunk, and the sink counter rises by one exactly then; invalid + repeated + log length grows by exactly one, every counter is monotone, and the log stays free of repeats |
| Games.Game.Record | src/main/java/iscteiul/ista/battleship/Game.java:49-57 | a new shot is logged; the hit counter rises iff some ship covers it; the sink counter rises iff a ship is returned; that ship covers the shot and no longer floats, and a null result leaves every ship covering the shot afloat |
| Games.Game.Strike | src/main/java/iscteiul/ista/battleship/Game.java:51-56 | the ship covering the shot is shot and one hit is counted; it is returned and one sink counted iff it no longer floats; only the positions with the shot's coordinates change |
| Games.Game.GetRemainingShips | src/main/java/iscteiul/ista/battleship/Game.java:120-123 | the number of ships that still float, recomputed on each call, never more than the fleet size, and zero exactly when every ship is sunk |
| Games.RemainingAtStart | src/main/java/iscteiul/ista/battleship/Game.java:120-123 | before any hit, every ship floats and the remaining ships are the whole fleet |

## Left out

- Console output is not modelled. This covers `Tasks.java` (a Scanner-driven command loop with logging) and the print methods of `Fleet` and `Game`.
- `toString` of Position, Ship and Compass is not modelled. It is display only.
- `Position.hashCode` is not modelled. It mixes in the mutable flags and no hash collection uses it.
- The getters are plain field reads. The model reads the fields directly:
  - `getRow` and `getColumn`;
  - `isHit` and `isOccupied`;
  - `getCategory`, `getBearing`, `getPosition` and `getPositions`;
  - `getShips` and `getShots`;
  - the four counter getters.
- The interfaces `IShip`, `IFleet`, `IGame` and `IPosition` hold only signatures. Of them, only the two constants of `IFleet` are used.
- Java `assert ... != null` checks and null arguments are not modelled. Dafny's non-null reference types rule them out.
- `equals` applied to an object that is not a position is not modelled. `Positions.Position.Equals` takes positions only.
- `occupy` is modelled only as a flag setter. Nothing in the core calls it, so the occupied flag stays false on every ship position.
- Java `int` overflow is not modelled. Coordinates and counters are unbounded integers, so the counters cannot wrap after 2^31 shots.
- Games.Game.constructor: starts the hit and sink counters at 0. The source never initialises them, so in Java the first hit would throw a NullPointerException. The model starts them at 0 on purpose.
- Games.Game.Fire: the hit-and-sink branch is proved in two helper methods, `Record` (the new-shot branch) and `Strike` (the hit branch). The steps run in the order of Game.java:42-62.
- Games.Game.Fire: does not state that the hit counter equals the number of logged shots that landed on a ship, or that a ship is counted as sunk only once. It states how each call changes the counters, not these totals over a whole session.
