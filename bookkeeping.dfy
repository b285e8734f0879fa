/**
 * One iteration of the play loop: the sets of cells already clicked and
 * already flagged, cleared on game over, grown by the flag step and by the
 * click step. Game over, the detector output and whether each flag or
 * click request succeeds come in as parameters.
 */
module Bookkeeping {
  import opened Wrappers
  import opened Labels
  import opened Grid
  import opened Snapshots
  import opened Deduction

  /** A cell the click step may choose: unopened in the snapshot and in neither set. */
  predicate Unclicked(cells: map<Coord, Label>, clicked: set<Coord>, flagged: set<Coord>, c: Coord) {
    c in cells && cells[c] == Unopened && c !in clicked && c !in flagged
  }

  /** No entry of `order` before index `k` may be chosen. */
  predicate NoneBefore(order: seq<Coord>, k: nat, cells: map<Coord, Label>, clicked: set<Coord>, flagged: set<Coord>)
    requires k <= |order|
  {
    forall j :: 0 <= j < k ==> !Unclicked(cells, clicked, flagged, order[j])
  }

  /** `unclicked_cells`: the entries of `order` the click step may choose, in order; the first is the earliest such entry. */
  function UnclickedCells(order: seq<Coord>, cells: map<Coord, Label>, clicked: set<Coord>, flagged: set<Coord>): (r: seq<Coord>)
    ensures forall c :: c in r <==> c in order && Unclicked(cells, clicked, flagged, c)
    ensures r != [] ==> exists k :: 0 <= k < |order| && order[k] == r[0] && NoneBefore(order, k, cells, clicked, flagged)
  {
    if order == [] then []
    else
      var rest := UnclickedCells(order[1..], cells, clicked, flagged);
      if Unclicked(cells, clicked, flagged, order[0]) then
        assert NoneBefore(order, 0, cells, clicked, flagged);
        [order[0]] + rest
      else
        if rest == [] then rest
        else
          var k :| 0 <= k < |order[1..]| && order[1..][k] == rest[0] && NoneBefore(order[1..], k, cells, clicked, flagged);
          assert NoneBefore(order, k + 1, cells, clicked, flagged) by {
            forall j | 0 <= j < k + 1 ensures !Unclicked(cells, clicked, flagged, order[j]) {
              if j > 0 { assert order[j] == order[1..][j - 1]; }
            }
          }
          rest
  }

  /**
   * `unclicked_cells[0]` if there is one: the earliest cell of the snapshot,
   * in insertion order, that is unopened and in neither set; none exactly
   * when no such cell exists.
   */
  function NextClick(s: Snapshot, clicked: set<Coord>, flagged: set<Coord>): (r: Option<Coord>)
    ensures r.Some? ==> Unclicked(s.cells, clicked, flagged, r.value)
    ensures r.Some? ==> exists k :: 0 <= k < |s.order| && s.order[k] == r.value && NoneBefore(s.order, k, s.cells, clicked, flagged)
    ensures r.None? <==> forall c :: c in s.order ==> !Unclicked(s.cells, clicked, flagged, c)
  {
    var candidates := UnclickedCells(s.order, s.cells, clicked, flagged);
    if candidates != [] then Some(candidates[0]) else None
  }

  /** What one loop iteration did: restarted after game over, or requested flags and at most one click. */
  datatype TickReport = Restarted | Played(flagRequests: set<Coord>, click: Option<Coord>)

  class Session {
    var clicked: set<Coord>
    var flagged: set<Coord>

    constructor ()
      ensures clicked == {} && flagged == {}
    {
      clicked, flagged := {}, {};
    }

    /** Game over: both sets are cleared. */
    method Restart()
      modifies this
      ensures clicked == {} && flagged == {}
    {
      clicked, flagged := {}, {};
    }

    /**
     * The flag step: every deduced bomb not yet flagged is requested once;
     * `flagged` gains exactly the requested cells whose flag succeeded.
     */
    method FlagBombs(bombsToFlag: set<Coord>, flagOk: Coord -> bool) returns (requested: set<Coord>)
      modifies this
      ensures requested == bombsToFlag - old(flagged)
      ensures flagged == old(flagged) + set c | c in requested && flagOk(c)
      ensures clicked == old(clicked)
    {
      requested := {};
      var pending := bombsToFlag;
      while pending != {}
        invariant pending <= bombsToFlag
        invariant requested == (bombsToFlag - pending) - old(flagged)
        invariant flagged == old(flagged) + set c | c in requested && flagOk(c)
        invariant clicked == old(clicked)
        decreases pending
      {
        var cell :| cell in pending;
        pending := pending - {cell};
        if cell !in flagged {
          requested := requested + {cell};
          if flagOk(cell) {
            flagged := flagged + {cell};
          }
        }
      }
    }

    /**
     * The click step: the first unopened cell of the snapshot in neither
     * set is requested, and joins `clicked` if the click succeeded; with no
     * such cell nothing changes.
     */
    method ClickNext(s: Snapshot, clickOk: Coord -> bool) returns (target: Option<Coord>)
      modifies this
      ensures target == NextClick(s, old(clicked), old(flagged))
      ensures target.Some? ==> Unclicked(s.cells, old(clicked), old(flagged), target.value)
      ensures clicked == if target.Some? && clickOk(target.value) then old(clicked) + {target.value} else old(clicked)
      ensures flagged == old(flagged)
    {
      var unclickedCells := UnclickedCells(s.order, s.cells, clicked, flagged);
      if unclickedCells != [] {
        var nextCell := unclickedCells[0];
        target := Some(nextCell);
        if clickOk(nextCell) {
          clicked := clicked + {nextCell};
        }
      } else {
        target := None;
      }
    }

    /**
     * One iteration of `play_game_with_data`: on game over clear both sets
     * and scan nothing; otherwise merge the detector output into a snapshot,
     * flag the bombs `certain_bombs_logic` deduces, then click the next
     * unclicked cell. The click never falls on a deduced bomb whose flag
     * succeeded.
     */
    method Tick(gameOver: bool, unopenedCells: seq<Coord>, openedCells: seq<Coord>, numberedCells: seq<(Coord, nat)>,
                flagOk: Coord -> bool, clickOk: Coord -> bool) returns (report: TickReport)
      modifies this
      ensures gameOver ==> report == Restarted && clicked == {} && flagged == {}
      ensures !gameOver ==>
        var s := ScanBoard(unopenedCells, openedCells, numberedCells);
        && report.Played?
        && report.flagRequests == Bombs(s.cells) - old(flagged)
        && flagged == old(flagged) + (set c | c in report.flagRequests && flagOk(c))
        && report.click == NextClick(s, old(clicked), flagged)
        && (report.click.Some? ==> Unclicked(s.cells, old(clicked), flagged, report.click.value))
        && clicked == (if report.click.Some? && clickOk(report.click.value)
                       then old(clicked) + {report.click.value} else old(clicked))
        && (report.click.Some? ==> !(report.click.value in Bombs(s.cells) && flagOk(report.click.value)))
    {
      if gameOver {
        Restart();
        return Restarted;
      }
      var boardState := ScanBoard(unopenedCells, openedCells, numberedCells);
      var bombsToFlag := CertainBombs(boardState);
      var requested := FlagBombs(bombsToFlag, flagOk);
      var target := ClickNext(boardState, clickOk);
      report := Played(requested, target);
    }
  }
}
