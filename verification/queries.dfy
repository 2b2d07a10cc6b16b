/** The board scans of the program: the number of mines (`nbrOfMines`), the
    number of visible cells (`nbrVisibleCells`) and the largest stored count
    (`getMaxMines`). */
module Queries {
  import opened Board
  import opened Setup

  /** Scans the board row by row, counting the cells that satisfy `p`. */
  method CountWhere(b: Grid, p: Cell -> bool) returns (count: nat)
    requires Square(b)
    ensures count == CountGrid(b, p)
  {
    count := 0;
    var i := 0;
    while i < |b|
      invariant 0 <= i <= |b|
      invariant count == CountGrid(b[..i], p)
    {
      var j := 0;
      while j < |b|
        invariant 0 <= j <= |b|
        invariant count == CountGrid(b[..i], p) + CountRow(b[i][..j], p)
      {
        assert b[i][..j + 1][..j] == b[i][..j];
        if p(b[i][j]) {
          count := count + 1;
        }
        j := j + 1;
      }
      assert b[i][..j] == b[i];
      assert b[..i + 1][..i] == b[..i];
      i := i + 1;
    }
    assert b[..i] == b;
  }

  /** `nbrOfMines`: the number of mine cells on the board. */
  method NbrOfMines(b: Grid) returns (count: nat)
    requires Square(b)
    ensures count == MineCount(b)
    ensures count <= |b| * |b|
  {
    count := CountWhere(b, IsMine);
    MineCountBound(b);
  }

  /** `nbrVisibleCells`: the number of revealed cells on the board. */
  method NbrVisibleCells(b: Grid) returns (count: nat)
    requires Square(b)
    ensures count == VisibleCount(b)
  {
    count := CountWhere(b, IsVisible);
  }

  /** `getMaxMines`: the largest stored count, starting from 0 — it
      bounds every cell's count, and unless it is 0 some cell holds it. */
  method GetMaxMines(b: Grid) returns (max: int)
    requires Square(b)
    ensures max >= 0
    ensures forall i, j :: 0 <= i < |b| && 0 <= j < |b| ==> b[i][j].mines <= max
    ensures max == 0 || exists i, j :: 0 <= i < |b| && 0 <= j < |b| && b[i][j].mines == max
  {
    max := 0;
    var i := 0;
    while i < |b|
      invariant 0 <= i <= |b|
      invariant max >= 0
      invariant forall r, c :: 0 <= r < i && 0 <= c < |b| ==> b[r][c].mines <= max
      invariant max == 0 || exists r, c :: 0 <= r < i && 0 <= c < |b| && b[r][c].mines == max
    {
      var j := 0;
      while j < |b|
        invariant 0 <= j <= |b|
        invariant max >= 0
        invariant forall r, c :: 0 <= r < i && 0 <= c < |b| ==> b[r][c].mines <= max
        invariant forall c :: 0 <= c < j ==> b[i][c].mines <= max
        invariant max == 0 || exists r, c :: 0 <= r <= i && 0 <= c < |b| && b[r][c].mines == max
      {
        if b[i][j].mines > max {
          max := b[i][j].mines;
        }
        j := j + 1;
      }
      i := i + 1;
    }
  }

  /** Right after `initBoard` clears a board, the three scans all
      report 0. */
  method ClearedBoardScans(size: nat) returns (mines: nat, visible: nat, max: int)
    ensures mines == 0 && visible == 0 && max == 0
  {
    var b := InitBoard(size);
    mines := NbrOfMines(b);
    visible := NbrVisibleCells(b);
    max := GetMaxMines(b);
  }
}
