/** The player's moves: revealing the ring of cells around a selected cell
    (`setImmediateNeighborCellsVisible`) and selecting or flagging a cell
    (`selectCell`). */
module Reveal {
  import opened Board
  import opened Queries

  /** `(i, j)` lies on a `size × size` board within one row and one column of
      `(row, col)`, and is not `(row, col)` itself. */
  predicate InRing(size: int, row: int, col: int, i: int, j: int) {
    0 <= i < size && 0 <= j < size &&
    row - 1 <= i <= row + 1 && col - 1 <= j <= col + 1 &&
    !(i == row && j == col)
  }

  /** The positions for which the reveal of `setImmediateNeighborCellsVisible` stays on
      the board: the top row, the leftmost column, and cells off the bottom
      row and the rightmost column, on a board of size at least 2. */
  predicate RevealInBounds(size: int, row: int, col: int) {
    size >= 2 && (row == 0 || col == 0 || (row < size - 1 && col < size - 1))
  }

  /** The cells the branches of `setImmediateNeighborCellsVisible` set visible, as
      coordinates, when the "middle" branch is taken for
      `0 < row < middleBound && 0 < col < middleBound`. */
  function RevealTargetsWith(row: int, col: int, size: int, middleBound: int): set<(int, int)> {
    if row > 0 && row < middleBound && col > 0 && col < middleBound then
      {(row - 1, col - 1), (row - 1, col), (row - 1, col + 1),
       (row, col - 1), (row, col + 1),
       (row + 1, col - 1), (row + 1, col), (row + 1, col + 1)}
    else if row == 0 && col == 0 then
      {(row + 1, col), (row + 1, col + 1), (row, col + 1)}
    else if row == size - 1 && col == 0 then
      {(row - 1, col), (row - 1, col + 1), (row, col + 1)}
    else if row == 0 && col == size - 1 then
      {(row + 1, col), (row + 1, col - 1), (row, col - 1)}
    else if row == size - 1 && col == size - 1 then
      {(row - 1, col), (row - 1, col - 1), (row, col - 1)}
    else if row == 0 && col > 0 && col < size then
      {(row, col - 1), (row + 1, col - 1), (row + 1, col), (row + 1, col + 1), (row, col + 1)}
    else if row == size - 1 && col > 0 && col < size then
      {(row, col - 1), (row - 1, col - 1), (row - 1, col), (row - 1, col + 1), (row, col + 1)}
    else if col == 0 && row > 0 && row < size then
      {(row - 1, col), (row + 1, col), (row + 1, col + 1), (row, col + 1), (row - 1, col + 1)}
    else if col == size - 1 && row > 0 && row < size then
      {(row - 1, col), (row - 1, col - 1), (row, col - 1), (row + 1, col - 1), (row + 1, col)}
    else
      {}
  }

  /** The targets as the program computes them, with the middle guard
      `row < size && col < size` of the program. They all lie on the
      board exactly when `RevealInBounds` holds; there they are exactly the
      ring around `(row, col)`. Elsewhere — the last row with `col > 0`, the
      last column with `row > 0`, or a 1×1 board — some target is off the
      board. */
  function RevealTargetsAsWritten(row: int, col: int, size: int): (t: set<(int, int)>)
    requires 0 <= row < size && 0 <= col < size
    ensures (forall p :: p in t ==> 0 <= p.0 < size && 0 <= p.1 < size) <==> RevealInBounds(size, row, col)
    ensures RevealInBounds(size, row, col) ==> forall i, j :: (i, j) in t <==> InRing(size, row, col, i, j)
  {
    RevealTargetsWith(row, col, size, size)
  }

  /** The targets once the middle guard reads `row < size - 1 && col < size - 1`:
      for every cell of a board of size at least 2, exactly the ring around
      it — the same set the program computes wherever it stays on the board. */
  function RevealTargets(row: int, col: int, size: int): (t: set<(int, int)>)
    requires size >= 2 && 0 <= row < size && 0 <= col < size
    ensures forall i, j :: (i, j) in t <==> InRing(size, row, col, i, j)
    ensures RevealInBounds(size, row, col) ==> t == RevealTargetsAsWritten(row, col, size)
  {
    RevealTargetsWith(row, col, size, size - 1)
  }

  /** On a 5×5 board, selecting `(4, 2)` takes the middle branch of
      `setImmediateNeighborCellsVisible`, which writes row 5 of the board. */
  lemma MiddleBranchLeavesBoard()
    ensures (5, 1) in RevealTargetsAsWritten(4, 2, 5)
    ensures !RevealInBounds(5, 4, 2)
  {
  }

  /** The board with every cell whose coordinates are in `targets` set visible. */
  function Show(b: Grid, targets: set<(int, int)>): Grid {
    seq(|b|, i requires 0 <= i < |b| =>
      seq(|b[i]|, j requires 0 <= j < |b[i]| =>
        if (i, j) in targets then b[i][j].(visible := true) else b[i][j]))
  }

  /** The final loop of `setImmediateNeighborCellsVisible`: every mine cell is hidden again; nothing else
      changes, and afterwards no mine is showing. */
  method HideMines(b: Grid) returns (b': Grid)
    requires Square(b)
    ensures Square(b') && |b'| == |b|
    ensures NoMineVisible(b')
    ensures forall i, j :: 0 <= i < |b| && 0 <= j < |b| && !b[i][j].isMine ==> b'[i][j] == b[i][j]
    ensures forall i, j :: 0 <= i < |b| && 0 <= j < |b| && b[i][j].isMine ==> b'[i][j] == b[i][j].(visible := false)
  {
    b' := b;
    var i := 0;
    while i < |b|
      invariant 0 <= i <= |b|
      invariant Square(b') && |b'| == |b|
      invariant forall r, c :: 0 <= r < |b| && 0 <= c < |b| && !b[r][c].isMine ==> b'[r][c] == b[r][c]
      invariant forall r, c :: 0 <= r < |b| && 0 <= c < |b| && b[r][c].isMine ==>
                  b'[r][c] == b[r][c].(visible := if r < i then false else b[r][c].visible)
    {
      var j := 0;
      while j < |b|
        invariant 0 <= j <= |b|
        invariant Square(b') && |b'| == |b|
        invariant forall r, c :: 0 <= r < |b| && 0 <= c < |b| && !b[r][c].isMine ==> b'[r][c] == b[r][c]
        invariant forall r, c :: 0 <= r < |b| && 0 <= c < |b| && b[r][c].isMine ==>
                    b'[r][c] == b[r][c].(visible := if r < i || (r == i && c < j) then false else b[r][c].visible)
      {
        if b'[i][j].isMine {
          b' := b'[i := b'[i][j := b'[i][j].(visible := false)]];
        }
        j := j + 1;
      }
      i := i + 1;
    }
  }

  /** `setImmediateNeighborCellsVisible`, on the positions where it stays on the board:
      the cells around `(row, col)` are set visible and then every mine is
      hidden again. Only `visible` changes; no mine is showing afterwards; and
      a cell that is not a mine is visible exactly when it was before or lies
      in the ring around `(row, col)`. The stored count of `(row, col)` is not
      consulted. */
  method SetImmediateNeighborCellsVisible(row: int, col: int, b: Grid) returns (b': Grid)
    requires Square(b)
    requires 0 <= row < |b| && 0 <= col < |b|
    requires RevealInBounds(|b|, row, col)
    ensures Square(b') && |b'| == |b|
    ensures NoMineVisible(b')
    ensures forall i, j :: 0 <= i < |b| && 0 <= j < |b| ==> b'[i][j] == b[i][j].(visible := b'[i][j].visible)
    ensures forall i, j :: 0 <= i < |b| && 0 <= j < |b| && !b[i][j].isMine ==>
              (b'[i][j].visible <==> b[i][j].visible || InRing(|b|, row, col, i, j))
  {
    var shown := Show(b, RevealTargetsAsWritten(row, col, |b|));
    ShowRing(b, row, col);
    b' := HideMines(shown);
  }

  /** Under `RevealInBounds`, showing the targets the program computes shows
      exactly the ring around `(row, col)`. */
  lemma ShowRing(b: Grid, row: int, col: int)
    requires Square(b)
    requires 0 <= row < |b| && 0 <= col < |b|
    requires RevealInBounds(|b|, row, col)
    ensures var shown := Show(b, RevealTargetsAsWritten(row, col, |b|));
            && Square(shown) && |shown| == |b|
            && forall i, j :: 0 <= i < |b| && 0 <= j < |b| ==>
                 shown[i][j] == b[i][j].(visible := b[i][j].visible || InRing(|b|, row, col, i, j))
  {
  }

  /** `selectCell`, one move of the player.
      Flagging flips the flag of `(row, col)` — whether or not it is
      revealed — changes nothing else, and the game goes on.
      Selecting a mine shows that cell only and the game is lost; the game is
      lost on no other move.
      Selecting any other cell shows it, clears its flag and reveals its ring;
      no mine is showing afterwards, mines, counts and the other flags are
      untouched, and the game is won exactly when every cell that is not a
      mine is showing. */
  method SelectCell(row: int, col: int, b: Grid, flag: bool) returns (b': Grid, status: Status)
    requires Square(b)
    requires 0 <= row < |b| && 0 <= col < |b|
    requires !flag && !b[row][col].isMine ==> RevealInBounds(|b|, row, col)
    ensures Square(b') && |b'| == |b|
    ensures status == Lost <==> !flag && b[row][col].isMine
    ensures flag ==>
              && status == InProgress
              && b'[row][col] == b[row][col].(marked := !b[row][col].marked)
              && forall i, j :: 0 <= i < |b| && 0 <= j < |b| && (i != row || j != col) ==> b'[i][j] == b[i][j]
    ensures !flag && b[row][col].isMine ==>
              && b'[row][col] == b[row][col].(visible := true)
              && forall i, j :: 0 <= i < |b| && 0 <= j < |b| && (i != row || j != col) ==> b'[i][j] == b[i][j]
    ensures !flag && !b[row][col].isMine ==>
              && b'[row][col].visible && !b'[row][col].marked
              && NoMineVisible(b')
              && (status == Won <==> AllSafeVisible(b'))
              && (forall i, j :: 0 <= i < |b| && 0 <= j < |b| ==>
                    b'[i][j].isMine == b[i][j].isMine && b'[i][j].mines == b[i][j].mines)
              && (forall i, j :: 0 <= i < |b| && 0 <= j < |b| && (i != row || j != col) ==>
                    b'[i][j].marked == b[i][j].marked)
              && (forall i, j :: 0 <= i < |b| && 0 <= j < |b| && !b[i][j].isMine ==>
                    (b'[i][j].visible <==> b[i][j].visible || InRing(|b|, row, col, i, j) || (i == row && j == col)))
  {
    if flag {
      var cell := b[row][col];
      if cell.marked {
        cell := cell.(marked := false);
      } else {
        cell := cell.(marked := true);
      }
      b' := b[row := b[row][col := cell]];
      return b', InProgress;
    }
    if !b[row][col].isMine {
      var selected := b[row := b[row][col := b[row][col].(visible := true, marked := false)]];
      b' := SetImmediateNeighborCellsVisible(row, col, selected);
      var visible := NbrVisibleCells(b');
      var mines := NbrOfMines(b');
      WinCount(b');
      if visible + mines >= |b| * |b| {
        status := Won;
      } else {
        status := InProgress;
      }
    } else {
      b' := b[row := b[row][col := b[row][col].(visible := true)]];
      status := Lost;
    }
  }
}
