/** Neighbour-mine counts: the brute-force reference count over a cell's
    in-board 8-neighbourhood, and the program's edge-and-corner case analysis
    (`fillInMineCountForNonMineCells`), both as written and with the vertical pair
    counted correctly. */
module Neighbours {
  import opened Board

  /** 1 when `(r, c)` lies on the board and holds a mine, 0 otherwise. */
  function Mined(b: Grid, r: int, c: int): nat {
    if 0 <= r < |b| && 0 <= c < |b[r]| && b[r][c].isMine then 1 else 0
  }

  /** Reference count: the mines among the up to eight cells around `(i, j)`
      that lie on the board (no wrap-around). */
  ghost function TrueNeighborMines(b: Grid, i: int, j: int): nat {
    Mined(b, i - 1, j - 1) + Mined(b, i - 1, j) + Mined(b, i - 1, j + 1) +
    Mined(b, i, j - 1)                          + Mined(b, i, j + 1) +
    Mined(b, i + 1, j - 1) + Mined(b, i + 1, j) + Mined(b, i + 1, j + 1)
  }

  /** `(i, j)` is off the top and bottom rows and the cells directly above and
      below it both hold mines. */
  predicate VerticalPair(b: Grid, i: int, j: int) {
    0 < i < |b| - 1 && Mined(b, i - 1, j) == 1 && Mined(b, i + 1, j) == 1
  }

  /** The case analysis of `fillInMineCountForNonMineCells` for the cell `(i, j)`: the
      row part (top row, bottom row, any other row), the column part
      (leftmost, rightmost, any other column) and the four corner fix-ups.
      With `countBothVertical` false the cells directly above and below are
      combined with `||`, as the program does; with it true they are
      counted one each. Every index stays on a board of size at least 2. */
  function NeighborMinesWith(b: Grid, i: int, j: int, countBothVertical: bool): (n: nat)
    requires Square(b) && |b| >= 2
    requires 0 <= i < |b| && 0 <= j < |b|
    ensures n <= 8
  {
    var size := |b|;
    var rowPart :=
      if i == 0 then
        Ind(b[i + 1][j].isMine) +
        (if j > 0 && j <= size - 2 then Ind(b[i + 1][j - 1].isMine) + Ind(b[i + 1][j + 1].isMine) else 0)
      else if i == size - 1 then
        Ind(b[i - 1][j].isMine) +
        (if j > 0 && j <= size - 2 then Ind(b[i - 1][j - 1].isMine) + Ind(b[i - 1][j + 1].isMine) else 0)
      else
        (if countBothVertical then Ind(b[i + 1][j].isMine) + Ind(b[i - 1][j].isMine)
         else Ind(b[i + 1][j].isMine || b[i - 1][j].isMine)) +
        (if j > 0 && j <= size - 2 then
           Ind(b[i + 1][j - 1].isMine) + Ind(b[i + 1][j + 1].isMine) +
           Ind(b[i - 1][j - 1].isMine) + Ind(b[i - 1][j + 1].isMine)
         else 0);
    var colPart :=
      if j == 0 then
        Ind(b[i][j + 1].isMine) +
        (if i > 0 && i <= size - 2 then Ind(b[i - 1][j + 1].isMine) + Ind(b[i + 1][j + 1].isMine) else 0)
      else if j == size - 1 then
        Ind(b[i][j - 1].isMine) +
        (if i > 0 && i <= size - 2 then Ind(b[i - 1][j - 1].isMine) + Ind(b[i + 1][j - 1].isMine) else 0)
      else
        Ind(b[i][j + 1].isMine) + Ind(b[i][j - 1].isMine);
    var cornerPart :=
      (if i == 0 && j == 0 then Ind(b[i + 1][j + 1].isMine) else 0) +
      (if i == 0 && j == size - 1 then Ind(b[i + 1][j - 1].isMine) else 0) +
      (if i == size - 1 && j == 0 then Ind(b[i - 1][j + 1].isMine) else 0) +
      (if i == size - 1 && j == size - 1 then Ind(b[i - 1][j - 1].isMine) else 0);
    rowPart + colPart + cornerPart
  }

  /** The count the program stores for a cell that is not a mine. It misses
      exactly one mine when both the cell above and the cell below are mines,
      and is the true count otherwise; in particular it is exact on the top
      and bottom rows. */
  function WrittenNeighborMines(b: Grid, i: int, j: int): (n: nat)
    requires Square(b) && |b| >= 2
    requires 0 <= i < |b| && 0 <= j < |b|
    ensures n <= TrueNeighborMines(b, i, j)
    ensures n == TrueNeighborMines(b, i, j) <==> !VerticalPair(b, i, j)
    ensures VerticalPair(b, i, j) ==> n == TrueNeighborMines(b, i, j) - 1
    ensures i == 0 || i == |b| - 1 ==> n == TrueNeighborMines(b, i, j)
  {
    NeighborMinesWith(b, i, j, false)
  }

  /** The count the case analysis gives once the two vertical neighbours are
      counted separately: always the true in-board neighbour-mine count. */
  function NeighborMines(b: Grid, i: int, j: int): (n: nat)
    requires Square(b) && |b| >= 2
    requires 0 <= i < |b| && 0 <= j < |b|
    ensures n == TrueNeighborMines(b, i, j)
  {
    NeighborMinesWith(b, i, j, true)
  }

  /** `getNbrNeighborMines`: the count stored in the cell, read back. */
  function GetNbrNeighborMines(b: Grid, row: int, col: int): int
    requires 0 <= row < |b| && 0 <= col < |b[row]|
  {
    b[row][col].mines
  }

  /** A 5×5 board — the smallest the game builds — with mines directly above
      and below `(2, 2)`: the program records 1 for that cell, which has 2
      neighbouring mines. */
  lemma VerticalPairUndercounts()
    ensures var x := Cell(true, 0, false, false);
            var o := Blank;
            var b := [[o, o, o, o, o], [o, o, x, o, o], [o, o, o, o, o], [o, o, x, o, o], [o, o, o, o, o]];
            WrittenNeighborMines(b, 2, 2) == 1 && TrueNeighborMines(b, 2, 2) == 2
  {
  }
}
