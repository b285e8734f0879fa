/**
 * Single-clue deduction over a snapshot. For a clue `number_n` with
 * unopened neighbours U and flagged neighbours F, the mine rule marks all
 * of U as bombs when |U| + |F| = n, and the safe rule marks all of U as
 * safe to click when |F| = n. The sets below are the unions over all clues;
 * nothing reconciles the two, so a cell may be in both.
 */
module Deduction {
  import opened Labels
  import opened Grid
  import opened Snapshots

  type Board = map<Coord, Label>

  predicate IsClue(b: Board, c: Coord) {
    c in b && b[c].Number?
  }

  /** U: the unopened neighbours of `c`. */
  function UnopenedAround(b: Board, c: Coord): seq<Coord> {
    NeighborsLabelled(c, b, Unopened)
  }

  /** F: the flagged neighbours of `c`. */
  function FlaggedAround(b: Board, c: Coord): seq<Coord> {
    NeighborsLabelled(c, b, Flagged)
  }

  predicate MineRule(b: Board, c: Coord)
    requires IsClue(b, c)
  {
    |UnopenedAround(b, c)| + |FlaggedAround(b, c)| == b[c].n
  }

  predicate SafeRule(b: Board, c: Coord)
    requires IsClue(b, c)
  {
    |FlaggedAround(b, c)| == b[c].n
  }

  /** Union of U over the clues in `clues` whose mine rule fires. */
  function BombsFrom(b: Board, clues: set<Coord>): set<Coord> {
    set c, x | c in clues && IsClue(b, c) && MineRule(b, c) && x in UnopenedAround(b, c) :: x
  }

  /** Union of U over the clues in `clues` whose safe rule fires. */
  function SafeFrom(b: Board, clues: set<Coord>): set<Coord> {
    set c, x | c in clues && IsClue(b, c) && SafeRule(b, c) && x in UnopenedAround(b, c) :: x
  }

  function Bombs(b: Board): set<Coord> {
    BombsFrom(b, b.Keys)
  }

  function Safe(b: Board): set<Coord> {
    SafeFrom(b, b.Keys)
  }

  /** The keys the loop over `board_state.items()` has visited after `i` steps. */
  function Visited(s: Snapshot, i: nat): set<Coord>
    requires i <= |s.order|
  {
    set j | 0 <= j < i :: s.order[j]
  }

  lemma VisitedStep(s: Snapshot, i: nat)
    requires i < |s.order|
    ensures Visited(s, i + 1) == Visited(s, i) + {s.order[i]}
  {
  }

  lemma VisitedAll(s: Snapshot)
    requires Valid(s)
    ensures Visited(s, |s.order|) == s.cells.Keys
  {
    forall c | c in s.cells ensures c in Visited(s, |s.order|) {
      var j :| 0 <= j < |s.order| && s.order[j] == c;
    }
  }

  /** Adding one clue to the visited keys adds its U exactly when its mine rule fires. */
  lemma BombsFromInsert(b: Board, clues: set<Coord>, c: Coord)
    ensures BombsFrom(b, clues + {c}) ==
      BombsFrom(b, clues) + (if IsClue(b, c) && MineRule(b, c) then set x | x in UnopenedAround(b, c) else {})
  {
  }

  lemma SafeFromInsert(b: Board, clues: set<Coord>, c: Coord)
    ensures SafeFrom(b, clues + {c}) ==
      SafeFrom(b, clues) + (if IsClue(b, c) && SafeRule(b, c) then set x | x in UnopenedAround(b, c) else {})
  {
  }

  /** `certain_bombs_logic`: the loop over the snapshot collecting U of every clue whose mine rule fires. */
  method CertainBombs(s: Snapshot) returns (bombsToFlag: set<Coord>)
    requires Valid(s)
    ensures bombsToFlag == Bombs(s.cells)
  {
    bombsToFlag := {};
    var i := 0;
    while i < |s.order|
      invariant i <= |s.order|
      invariant bombsToFlag == BombsFrom(s.cells, Visited(s, i))
    {
      var cell := s.order[i];
      var state := s.cells[cell];
      if state.Number? {
        var unopenedNeighbors := NeighborsLabelled(cell, s.cells, Unopened);
        var flaggedNeighbors := NeighborsLabelled(cell, s.cells, Flagged);
        if |unopenedNeighbors| + |flaggedNeighbors| == state.n {
          bombsToFlag := bombsToFlag + set x | x in unopenedNeighbors;
        }
      }
      VisitedStep(s, i);
      BombsFromInsert(s.cells, Visited(s, i), cell);
      i := i + 1;
    }
    VisitedAll(s);
  }

  /**
   * `improved_logic`: the same loop, also collecting U of every clue whose
   * safe rule fires. Its bomb set is the one `CertainBombs` returns.
   */
  method ImprovedLogic(s: Snapshot) returns (bombsToFlag: set<Coord>, cellsToClick: set<Coord>)
    requires Valid(s)
    ensures bombsToFlag == Bombs(s.cells)
    ensures cellsToClick == Safe(s.cells)
  {
    bombsToFlag, cellsToClick := {}, {};
    var i := 0;
    while i < |s.order|
      invariant i <= |s.order|
      invariant bombsToFlag == BombsFrom(s.cells, Visited(s, i))
      invariant cellsToClick == SafeFrom(s.cells, Visited(s, i))
    {
      var cell := s.order[i];
      var state := s.cells[cell];
      if state.Number? {
        var unopenedNeighbors := NeighborsLabelled(cell, s.cells, Unopened);
        var flaggedNeighbors := NeighborsLabelled(cell, s.cells, Flagged);
        if |flaggedNeighbors| == state.n {
          cellsToClick := cellsToClick + set x | x in unopenedNeighbors;
        }
        if |unopenedNeighbors| + |flaggedNeighbors| == state.n {
          bombsToFlag := bombsToFlag + set x | x in unopenedNeighbors;
        }
      }
      VisitedStep(s, i);
      BombsFromInsert(s.cells, Visited(s, i), cell);
      SafeFromInsert(s.cells, Visited(s, i), cell);
      i := i + 1;
    }
    VisitedAll(s);
  }

  /**
   * A cell is a deduced bomb exactly when it is unopened and next to a clue
   * whose unopened and flagged neighbour counts (`count_neighbors`) add up
   * to its number.
   */
  lemma BombsByCounts(b: Board, x: Coord)
    ensures x in Bombs(b) <==>
      x in b && b[x] == Unopened &&
      exists c :: IsClue(b, c) && Adjacent(c, x) &&
        CountNeighbors(c, b, Unopened) + CountNeighbors(c, b, Flagged) == b[c].n
  {
    if x in Bombs(b) {
      var c :| c in b && IsClue(b, c) && MineRule(b, c) && x in UnopenedAround(b, c);
      CountNeighborsSpec(c, b, Unopened);
      CountNeighborsSpec(c, b, Flagged);
    }
    if x in b && b[x] == Unopened &&
       exists c :: IsClue(b, c) && Adjacent(c, x) &&
         CountNeighbors(c, b, Unopened) + CountNeighbors(c, b, Flagged) == b[c].n
    {
      var c :| IsClue(b, c) && Adjacent(c, x) &&
        CountNeighbors(c, b, Unopened) + CountNeighbors(c, b, Flagged) == b[c].n;
      CountNeighborsSpec(c, b, Unopened);
      CountNeighborsSpec(c, b, Flagged);
      assert x in UnopenedAround(b, c);
    }
  }

  /** A cell is deduced safe exactly when it is unopened and next to a clue whose flagged neighbour count is its number. */
  lemma SafeByCounts(b: Board, x: Coord)
    ensures x in Safe(b) <==>
      x in b && b[x] == Unopened &&
      exists c :: IsClue(b, c) && Adjacent(c, x) && CountNeighbors(c, b, Flagged) == b[c].n
  {
    if x in Safe(b) {
      var c :| c in b && IsClue(b, c) && SafeRule(b, c) && x in UnopenedAround(b, c);
      CountNeighborsSpec(c, b, Flagged);
    }
    if x in b && b[x] == Unopened &&
       exists c :: IsClue(b, c) && Adjacent(c, x) && CountNeighbors(c, b, Flagged) == b[c].n
    {
      var c :| IsClue(b, c) && Adjacent(c, x) && CountNeighbors(c, b, Flagged) == b[c].n;
      CountNeighborsSpec(c, b, Flagged);
      assert x in UnopenedAround(b, c);
    }
  }

  /** Both deductions only ever name unopened cells that neighbour some clue. */
  lemma DeducedCellsAreUnopenedNeighbors(b: Board, x: Coord)
    requires x in Bombs(b) || x in Safe(b)
    ensures x in b && b[x] == Unopened
    ensures exists c :: IsClue(b, c) && Adjacent(c, x)
  {
  }

  /** A clue with more flagged neighbours than its number contributes to neither set. */
  lemma InconsistentClueIgnored(b: Board, clues: set<Coord>, c: Coord)
    requires IsClue(b, c) && |FlaggedAround(b, c)| > b[c].n
    ensures BombsFrom(b, clues) == BombsFrom(b, clues - {c})
    ensures SafeFrom(b, clues) == SafeFrom(b, clues - {c})
  {
  }

  /** Two clues that disagree: (0, 0) says 1 with one unopened neighbour, (2, 0) says 1 with a flag beside it. */
  const DisagreeingClues: Board :=
    map[(0, 0) := Number(1), (1, 0) := Unopened, (2, 0) := Number(1), (3, 0) := Flagged]

  /** In `DisagreeingClues` the clue at (0, 0) fires its mine rule on (1, 0). */
  lemma DisagreeingMineClue()
    ensures IsClue(DisagreeingClues, (0, 0)) && MineRule(DisagreeingClues, (0, 0))
    ensures (1, 0) in UnopenedAround(DisagreeingClues, (0, 0))
  {
    var b := DisagreeingClues;
    assert b.Keys == {(0, 0), (1, 0), (2, 0), (3, 0)};
    assert Adjacent((0, 0), (1, 0)) && b[(1, 0)] == Unopened;
    assert (set d | Adjacent((0, 0), d) && d in b && b[d] == Unopened) == {(1, 0)};
    assert (set d | Adjacent((0, 0), d) && d in b && b[d] == Flagged) == {};
    CountNeighborsSpec((0, 0), b, Unopened);
    CountNeighborsSpec((0, 0), b, Flagged);
  }

  /** In `DisagreeingClues` the clue at (2, 0) fires its safe rule on (1, 0). */
  lemma DisagreeingSafeClue()
    ensures IsClue(DisagreeingClues, (2, 0)) && SafeRule(DisagreeingClues, (2, 0))
    ensures (1, 0) in UnopenedAround(DisagreeingClues, (2, 0))
  {
    var b := DisagreeingClues;
    assert b.Keys == {(0, 0), (1, 0), (2, 0), (3, 0)};
    assert Adjacent((2, 0), (3, 0)) && b[(3, 0)] == Flagged;
    assert (set d | Adjacent((2, 0), d) && d in b && b[d] == Flagged) == {(3, 0)};
    CountNeighborsSpec((2, 0), b, Flagged);
  }

  /** The bomb and safe sets are not disjoint: nothing reconciles them. */
  lemma BombsAndSafeMayOverlap()
    ensures (1, 0) in Bombs(DisagreeingClues) && (1, 0) in Safe(DisagreeingClues)
  {
    DisagreeingMineClue();
    DisagreeingSafeClue();
  }

  /** Without any flagged cell, the mine rule reads |U| = n and the safe rule reads n = 0. */
  lemma UnflaggedBoard(b: Board, c: Coord)
    requires forall d :: d in b ==> b[d] != Flagged
    requires IsClue(b, c)
    ensures MineRule(b, c) <==> |UnopenedAround(b, c)| == b[c].n
    ensures SafeRule(b, c) <==> b[c].n == 0
  {
    assert (set d | Adjacent(c, d) && d in b && b[d] == Flagged) == {};
    CountNeighborsSpec(c, b, Flagged);
  }

  /**
   * The scanner never labels a cell flagged, so on a scanned board F is
   * always empty; with every detected number at least 1, as the detector
   * reports them, the safe set of `improved_logic` is empty.
   */
  lemma ScannedBoardHasNoSafeCells(unopenedCells: seq<Coord>, openedCells: seq<Coord>, numberedCells: seq<(Coord, nat)>)
    requires forall e :: e in numberedCells ==> e.1 >= 1
    ensures Safe(ScanBoard(unopenedCells, openedCells, numberedCells).cells) == {}
  {
    var b := ScanBoard(unopenedCells, openedCells, numberedCells).cells;
    forall c | IsClue(b, c) ensures !SafeRule(b, c) {
      UnflaggedBoard(b, c);
      assert (c, b[c].n) in numberedCells;
    }
  }
}
