# Minesweeper board inference, modelled in Dafny

This project models the board-inference core of `minesweeper_autogui.py`, a
bot that plays a Minesweeper game by screen capture and simulated mouse
input. The model covers:

- how a cell's 8 neighbours are found and counted (`get_neighbors`, `count_neighbors`);
- how `scan_board` merges the three detector results into one snapshot
  dictionary, and how the string labels (`"unopened"`, `"opened"`,
  `"number_<n>"`) are written and read back;
- the single-clue deduction of `certain_bombs_logic` and `improved_logic`;
- the clicked/flagged bookkeeping of one iteration of `play_game_with_data`.

Modules, one file each:

- `labels.dfy` (`Labels`): the `Label` datatype (`Unopened | Opened | Number(n) | Flagged`) and its string form.
- `grid.dfy` (`Grid`): coordinates as integer pairs and the neighbour functions.
- `snapshots.dfy` (`Snapshots`): the snapshot and the merge.
  - A snapshot is a dictionary that keeps insertion order, as a Python dict does.
  - The order matters: the click step takes the first qualifying entry.
- `deduction.dfy` (`Deduction`): the deduced sets.
  - The bomb set and the safe set are specified as unions over clues.
  - The two loops are methods proved to compute exactly those unions.
- `bookkeeping.dfy` (`Bookkeeping`): a `Session` class holding `clicked` and `flagged`.
  - Its methods are the game-over reset, the flag step, the click step and one whole loop iteration.
- `wrappers.dfy` (`Wrappers`): `Option`.

Two consequences of the code are proved rather than assumed:

- The bomb set and the safe set can overlap (`BombsAndSafeMayOverlap`).
  Nothing in the code reconciles them.
- The scanner never labels a cell `"flagged"`, so F (the flagged neighbours of a clue) is always empty on a scanned board.
  - The mine rule then reads |U| = n, where U is the clue's unopened neighbours.
  - The safe rule fires only for a clue numbered 0.
  - The number detector reports only 1 to 4 (lines 30-35), so the safe set of `improved_logic` is empty on every scanned board (`ScannedBoardHasNoSafeCells`).

The system's design description differs from the code in three places. The model follows the code each time:

- The description says the deduced sets are filtered against `clicked`/`flagged`.
  In the code, `certain_bombs_logic` and `improved_logic` return unfiltered sets.
  Only the flag step skips cells already in `flagged_cells`.
- The description recommends dropping a cell that is deduced both bomb and safe.
  The code keeps it in both sets.
- The description has a fallback move used only when nothing is deduced.
  The loop instead clicks the first unopened, unclicked, unflagged cell on every iteration.
  It never consults the safe set.

## Model

| member | source | states |
|---|---|---|
| Labels.DecimalString | minesweeper_autogui.py:136 | `str(n)` of a natural number is a non-empty string of decimal digits, without a leading zero unless n = 0 |
| Labels.DecimalRoundTrip | minesweeper_autogui.py:202 | `int(str(n)) == n` for every natural n |
| Labels.UpToUnderscore | minesweeper_autogui.py:202 | the number field after `split("_")` is the longest prefix with no '_' |
| Labels.NumberPrefixOnlyOnNumbers | minesweeper_autogui.py:201 | a stored label starts with `"number_"` exactly when it is a number label, so other labels are skipped as clues |
| Labels.ParseFormat | minesweeper_autogui.py:201-202 | every stored label reads back as itself; `"number_" + str(n)` reads back as `n` |
| Labels.FormatInjective | minesweeper_autogui.py:203-210 | two labels have equal strings iff they are equal, so comparing with `"unopened"`/`"flagged"` is comparing labels |
| Grid.Neighbors | minesweeper_autogui.py:300-308 | exactly 8 distinct coordinates; d is among them iff d differs from the cell and by at most 1 on each axis |
| Grid.NeighborsLabelled | minesweeper_autogui.py:203-210 | the neighbour list of a clue filtered by label has no repeats, at most 8 entries, and holds d iff d is adjacent, present in the snapshot and has that label |
| Grid.CountNeighborsSpec | minesweeper_autogui.py:246-255 | `count_neighbors` equals the length of the filtered neighbour list and the size of the set of adjacent present cells with the target label, so it is at most 8 and absent cells never count |
| Snapshots.Assign | minesweeper_autogui.py:134-136 | one dictionary assignment keeps the snapshot well formed (keys listed once, in order) |
| Snapshots.AssignAllLabels | minesweeper_autogui.py:135-136 | a run of `update` assignments keeps every earlier key, adds the new ones, gives each assigned key its last value and leaves the rest unchanged |
| Snapshots.AssignAllOrder | minesweeper_autogui.py:134-136 | a run of assignments lists the keys in order of first insertion |
| Snapshots.ScanBoard | minesweeper_autogui.py:134-136 | the snapshot holds exactly the detected cells in order of first detection; number overrides opened, which overrides unopened; the last detected number of a cell wins; no cell is flagged |
| Deduction.CertainBombs | minesweeper_autogui.py:195-223 | the loop returns exactly the union of U over the clues with abs(U) + abs(F) = n |
| Deduction.ImprovedLogic | minesweeper_autogui.py:270-297 | the loop returns that same bomb set, and as its safe set exactly the union of U over the clues with abs(F) = n |
| Deduction.BombsByCounts | minesweeper_autogui.py:203-220 | x is a deduced bomb iff it is unopened and adjacent to a clue whose unopened and flagged `count_neighbors` add up to its number |
| Deduction.SafeByCounts | minesweeper_autogui.py:280-291 | x is deduced safe iff it is unopened and adjacent to a clue whose flagged `count_neighbors` equals its number |
| Deduction.DeducedCellsAreUnopenedNeighbors | minesweeper_autogui.py:203-206 | every deduced bomb or safe cell is unopened in the snapshot and adjacent to some clue |
| Deduction.InconsistentClueIgnored | minesweeper_autogui.py:290-295 | a clue with more flagged neighbours than its number adds nothing to either set |
| Deduction.BombsAndSafeMayOverlap | minesweeper_autogui.py:290-297 | on a concrete snapshot with two disagreeing clues, one cell is in both the bomb set and the safe set |
| Deduction.UnflaggedBoard | minesweeper_autogui.py:284-295 | on a snapshot without flagged cells the mine rule is abs(U) = n and the safe rule is n = 0 |
| Deduction.ScannedBoardHasNoSafeCells | minesweeper_autogui.py:134-136 | on a scanned snapshot whose detected numbers are all at least 1 the safe set is empty |
| Bookkeeping.UnclickedCells | minesweeper_autogui.py:343-346 | holds exactly the snapshot cells that are unopened and in neither set, and its first entry is the earliest such cell in insertion order |
| Bookkeeping.NextClick | minesweeper_autogui.py:348-349 | the chosen cell is unopened, in neither set and the earliest such; there is none iff no cell qualifies |
| Bookkeeping.Session.constructor | minesweeper_autogui.py:315-316 | a new session starts with both sets empty |
| Bookkeeping.Session.Restart | minesweeper_autogui.py:320-325 | on game over both sets become empty |
| Bookkeeping.Session.FlagBombs | minesweeper_autogui.py:336-340 | requests a flag for exactly the bombs not yet flagged; `flagged` becomes the old set plus the requested cells whose flag succeeded; `clicked` is unchanged |
| Bookkeeping.Session.ClickNext | minesweeper_autogui.py:343-355 | requests the next click as `NextClick` chooses it; `clicked` grows by that cell iff the click succeeded; with no candidate both sets are unchanged |
| Bookkeeping.Session.Tick | minesweeper_autogui.py:318-355 | game over clears both sets. Otherwise the step flags the deduced bombs not yet flagged and clicks the next unclicked cell, checked against the updated flags. `flagged` only grows and `clicked` grows by at most that cell. The click never falls on a deduced bomb whose flag succeeded |

## Left out

- Screen capture and pixel classification are not modelled: `pyautogui.screenshot`, `locate_image`, `detect_cells`, `detect_numbered_cells`. Their results enter `ScanBoard` and `Session.Tick` as coordinate lists.
- Detected numbers are not limited to 1 to 4: the model takes any natural number, which includes the real range.
- Mouse input is not modelled: `click_location`, `flag_location`. Whether each request succeeded enters as a function parameter.
  - In the program both functions return true for any coordinate pair.
  - The parameter is the more general case.
- `start_game` and `detect_game_over` are not modelled. Game over enters `Session.Tick` as a boolean. The waiting loop of `start_game` is left out.
- The panic-key listener thread and the global `exit_signal` are left out (concurrency and cancellation). The model is one loop iteration, not the endless loop.
- `save_data_for_ai` (CSV output), `debug_neighbors`, all printing, `time.sleep` and the data-directory setup are left out: they are I/O.
- Labels.Parse: reads the number field only as plain decimal digits. It does not model the signs, spaces and digit separators that Python's `int` also accepts. A field that is not a numeral yields no label, where the program raises an error. The scanner only ever writes labels that `Format` produces, so those cases never reach the deduction.
- Session.FlagBombs: states the set of flag requests, not their order, which follows Python's set iteration.
- TemplateMatching.py and realtimeMousetracker.py are not part of this model: they only save a screenshot and print the mouse position.
