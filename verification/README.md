# Minesweeper board engine in Dafny

This project models the board engine of a terminal minesweeper game written in
C (`minesweeper.c`). The game is played on a `size × size` grid of cells. Each
cell records whether it is a mine, its stored neighbour-mine count, whether it
is visible, and whether it is flagged ("marked"). The model covers:

- clearing the board (`initBoard`);
- the rejection loop that places `nbrMines` mines (`placeMinesOnBoard`);
- the edge-and-corner case analysis that stores neighbour counts
  (`fillInMineCountForNonMineCells`);
- the board scans (`nbrOfMines`, `nbrVisibleCells`, `getMaxMines`,
  `getNbrNeighborMines`);
- the one-ring reveal (`setImmediateNeighborCellsVisible`);
- a player move (`selectCell`) with its `Status` result (`WON`, `LOST`, `INPROGRESS`).

The C code changes a `Cell board[size][size]` in place. The model treats the
board as a value: `Grid = seq<seq<Cell>>`, with size `|b|`. Each C function
becomes a method that takes a board and returns the new one. The methods keep
the C loops, and the loops carry invariants. The
counting functions `CountGrid`/`MineCount`/`VisibleCount` and the brute-force
`TrueNeighborMines` (the in-board 8-neighbourhood, no wrap-around) are the
reference definitions the program's code is compared against.

`rand() % size` becomes a sequence of draws in `[0, size)` supplied by the
caller. Each pass of the placement loop consumes one draw per row. Like the C
code, it does so even after the last mine is placed.

Modules: `Board` (cells, grid, counts), `Neighbours` (neighbour counts),
`Setup` (board generation), `Queries` (scans), `Reveal` (moves).

Where the code differs from the usual rules of minesweeper, or from its own
doc comments on `setImmediateNeighborCellsVisible` and
`setAllNeighborCellsVisible` (minesweeper.c:575-576, 650-655), the model
follows the code:
- flagging toggles the flag even on a revealed cell;
- every safe selection reveals the ring around the cell, whatever its count;
- there is no cascading flood fill;
- the placement loop need not terminate.

## Model

| member | source | states |
|---|---|---|
| `Board.WinCount` | minesweeper.c:543-547 | on a square board with no mine showing, visible cells plus mines is at most `size²`, and reaches `size²` exactly when every non-mine cell is visible |
| `Board.MineCountBound` | minesweeper.c:390-403 | a square board holds at most `size²` mines |
| `Neighbours.NeighborMinesWith` | minesweeper.c:263-380 | the edge-and-corner case analysis stays on any board of size at least 2 and never counts more than 8 |
| `Neighbours.WrittenNeighborMines` | minesweeper.c:263-380 | the stored count is at most the true in-board neighbour-mine count; it equals it exactly when the cells above and below are not both mines, so always on the top and bottom rows; otherwise it is one too low |
| `Neighbours.NeighborMines` | minesweeper.c:295 | with the vertical pair counted one each, the case analysis gives exactly the true neighbour-mine count |
| `Neighbours.VerticalPairUndercounts` | minesweeper.c:295 | a 5×5 board with mines at (1,2) and (3,2): cell (2,2) is given 1, and its true count is 2 |
| `Setup.InitBoard` | minesweeper.c:215-225 | every cell is cleared (no mine, count 0, hidden, unflagged), so the board holds no mine and shows no cell |
| `Setup.PlaceMinesPass` | minesweeper.c:235-247 | one pass changes only `isMine` and never removes a mine; a new mine in row `i` sits at that row's drawn column, so there is at most one per row; the mines owed drop by exactly the mines added; if any are still owed, every drawn cell is a mine |
| `Setup.PlaceMinesOnBoard` | minesweeper.c:230-252 | mines added + `total` = `nbrMines` throughout; on exit with `total == 0` exactly `nbrMines` new mines exist; only `isMine` changes, mines only appear; asking for more mines than free cells keeps `total` positive (the loop never exits); `nbrMines <= 0` changes nothing |
| `Setup.FillInMineCountForNonMineCells` | minesweeper.c:258-385 | only the `mines` field of non-mine cells changes; it rises by the true neighbour-mine count, less one exactly when the cells above and below are both mines |
| `Setup.NewBoard` | minesweeper.c:87-96 | after clearing, placing and counting: mines on the board = `nbrMines - total`, nothing is shown or flagged, mine cells read back count 0 through `getNbrNeighborMines` (409-419), and other cells read back at most their true count, equal to it unless the cells above and below are both mines; this row also stands for `Neighbours.GetNbrNeighborMines`, the plain field read of minesweeper.c:409-419, which has no contract of its own |
| `Queries.CountWhere` | minesweeper.c:394-400 | the row-by-row scan counts exactly the cells satisfying the predicate |
| `Queries.NbrOfMines` | minesweeper.c:390-403 | returns the number of mine cells, at most `size²` |
| `Queries.NbrVisibleCells` | minesweeper.c:559-572 | returns the number of visible cells |
| `Queries.GetMaxMines` | minesweeper.c:493-504 | the result is at least 0, bounds every cell's count, and is 0 or held by some cell |
| `Queries.ClearedBoardScans` | minesweeper.c:215-224 | on a freshly cleared board the mine scan, the visible scan and the maximum count all return 0 |
| `Reveal.RevealTargetsAsWritten` | minesweeper.c:580-639 | the cells the branches write all lie on the board exactly when the row is 0, or the column is 0, or both are below `size-1`, on a board of size at least 2; there they are exactly the ring around `(row, col)` |
| `Reveal.RevealTargets` | minesweeper.c:580 | with the middle guard `< size-1`, the branches write exactly the ring around any cell; this agrees with the code wherever the code stays on the board |
| `Reveal.MiddleBranchLeavesBoard` | minesweeper.c:580-589 | on a 5×5 board, cell `(4, 2)` takes the middle branch and writes row 5 |
| `Reveal.ShowRing` | minesweeper.c:580-639 | where the branches stay on the board, they make visible exactly the ring cells and change nothing else |
| `Reveal.HideMines` | minesweeper.c:641-647 | every mine is hidden and no other field or cell changes, so no mine is showing |
| `Reveal.SetImmediateNeighborCellsVisible` | minesweeper.c:578-648 | only `visible` changes; no mine is showing; a non-mine cell is visible exactly when it was before or lies in the ring around `(row, col)`; the cell's count is never consulted |
| `Reveal.SelectCell` | minesweeper.c:529-554 | flagging flips only that cell's flag, even on a visible cell, and returns `INPROGRESS`; selecting a mine shows only that cell and returns `LOST`, and no other move returns `LOST`; selecting a safe cell shows it, clears its flag, reveals its ring, leaves no mine showing and changes no other flag, count or mine; it returns `WON` exactly when every non-mine cell is visible |

## Findings

| source | as written | input that shows it | evidently intended | confidence | as-written member | corrected member |
|---|---|---|---|---|---|---|
| minesweeper.c:295 | one increment when the cell above **or** the cell below is a mine | 5×5 board (the smallest the game builds) with mines at (1,2) and (3,2): cell (2,2) gets count 1, but it has 2 neighbouring mines | one increment for each of the two cells | high; not executed | `Neighbours.WrittenNeighborMines`, `Neighbours.VerticalPairUndercounts` | `Neighbours.NeighborMines` |
| minesweeper.c:580 | middle branch taken for `row < size && col < size` | 5×5 board, selecting (4,2): the middle branch writes `board[5][1..3]`, past the last row; any last-row cell with `col > 0` or last-column cell with `row > 0` does the same | `row < size-1 && col < size-1`, so the corner (607), bottom-row (619) and right-column (633) branches become reachable | high; not executed | `Reveal.RevealTargetsAsWritten`, `Reveal.MiddleBranchLeavesBoard` | `Reveal.RevealTargets` |

The board-setup and move methods keep the code's behaviour as written.
`FillInMineCountForNonMineCells` stores the undercounted value, and
`SetImmediateNeighborCellsVisible` uses the program's own target set. That set
is proved equal to the corrected one on every position where the code is
defined.

## Left out

- `main`, `displayMenu`, `getBoardSize`, `getPercentMines`: terminal input and output, and the re-prompt loops (minesweeper.c:66-207, 476-488, 512-524). Only the set-up sequence of `main` (87-96) is modelled, as `Setup.NewBoard`.
- `displayBoard`: colour rendering only (minesweeper.c:426-469).
- `srand(time(NULL))` and `rand()`: foreign calls. They are replaced by the `draws` sequence.
- The mine-count formula `(int)(size*size*(pct/100.0))` (minesweeper.c:90): double arithmetic. `nbrMines` is a parameter instead.
- `setAllNeighborCellsVisible` (minesweeper.c:656-659): an empty stub. There is no flood fill to model.
- `Setup.PlaceMinesOnBoard`: termination is not proved, because with an arbitrary `rand()` the loop need not end. The model stops when fewer than `size` draws remain, and `total > 0` then means the program would still be looping.
- `Reveal.SetImmediateNeighborCellsVisible` requires `RevealInBounds`: row 0, column 0, or off the last row and the last column, on a board of size at least 2. Elsewhere the C code writes outside the array, and that behaviour is not modelled.
- `Reveal.SelectCell` requires `RevealInBounds` on its non-flag, non-mine path, because that path calls the reveal above. `main` does not guarantee it, but elsewhere the C code writes outside the array, and that behaviour is not modelled.
- The zero-count condition in the doc comment of `setImmediateNeighborCellsVisible` (minesweeper.c:575-576) is not modelled. The code never checks it, and the model follows the code.
- C `int` width: a board has at most 15×15 cells, so no count can overflow. The model uses unbounded integers.
- The in-place update of a stack array is modelled as returning a new board value. Aliasing plays no part, because each function writes only its own board.
