/** The board of the minesweeper game: cells, game status, the square grid
    and the counts taken over it. The counting functions here are the
    reference definitions the scanning loops of the program are proved
    against. */
module Board {

  /** One square of the grid: whether it holds a mine, the number of mines
      recorded for its neighbourhood, whether the player has revealed it and
      whether the player has flagged it. */
  datatype Cell = Cell(isMine: bool, mines: int, visible: bool, marked: bool)

  /** Outcome of one player move. */
  datatype Status = Won | Lost | InProgress

  /** Rows of cells; `b[i][j]` is the cell in row `i`, column `j`. */
  type Grid = seq<seq<Cell>>

  /** The state every cell is cleared to before a game starts. */
  const Blank := Cell(false, 0, false, false)

  /** A `size × size` board, where size is the number of rows. */
  predicate Square(b: Grid) {
    forall i :: 0 <= i < |b| ==> |b[i]| == |b|
  }

  predicate IsMine(c: Cell) { c.isMine }

  predicate IsVisible(c: Cell) { c.visible }

  function Ind(x: bool): nat { if x then 1 else 0 }

  /** Number of cells of a row satisfying `p`, counted left to right. */
  function CountRow(r: seq<Cell>, p: Cell -> bool): nat {
    if r == [] then 0 else CountRow(r[..|r| - 1], p) + Ind(p(r[|r| - 1]))
  }

  /** Number of cells of the grid satisfying `p`, counted row by row. */
  function CountGrid(b: Grid, p: Cell -> bool): nat {
    if b == [] then 0 else CountGrid(b[..|b| - 1], p) + CountRow(b[|b| - 1], p)
  }

  function MineCount(b: Grid): nat { CountGrid(b, IsMine) }

  function VisibleCount(b: Grid): nat { CountGrid(b, IsVisible) }

  /** Every cell that is not a mine has been revealed. */
  predicate AllSafeVisible(b: Grid) {
    forall i, j :: 0 <= i < |b| && 0 <= j < |b[i]| ==> b[i][j].isMine || b[i][j].visible
  }

  /** No mine is showing. */
  predicate NoMineVisible(b: Grid) {
    forall i, j :: 0 <= i < |b| && 0 <= j < |b[i]| ==> !(b[i][j].isMine && b[i][j].visible)
  }

  /** Replacing one cell of a row changes its count by that cell's contribution only. */
  lemma {:induction false} CountRowUpdate(r: seq<Cell>, k: int, c: Cell, p: Cell -> bool)
    requires 0 <= k < |r|
    ensures CountRow(r[k := c], p) == CountRow(r, p) - Ind(p(r[k])) + Ind(p(c))
  {
    var n := |r| - 1;
    if k == n {
      assert r[k := c][..n] == r[..n];
    } else {
      assert r[k := c][..n] == r[..n][k := c];
      CountRowUpdate(r[..n], k, c, p);
    }
  }

  /** Replacing one cell of a grid changes its count by that cell's contribution only. */
  lemma {:induction false} CountGridUpdate(b: Grid, i: int, j: int, c: Cell, p: Cell -> bool)
    requires 0 <= i < |b| && 0 <= j < |b[i]|
    ensures CountGrid(b[i := b[i][j := c]], p) == CountGrid(b, p) - Ind(p(b[i][j])) + Ind(p(c))
  {
    var n := |b| - 1;
    var b' := b[i := b[i][j := c]];
    if i == n {
      assert b'[..n] == b[..n];
      CountRowUpdate(b[i], j, c, p);
    } else {
      assert b'[..n] == b[..n][i := b[..n][i][j := c]];
      CountGridUpdate(b[..n], i, j, c, p);
    }
  }

  /** A row none of whose cells satisfy `p` counts zero. */
  lemma {:induction false} CountRowNone(r: seq<Cell>, p: Cell -> bool)
    requires forall k :: 0 <= k < |r| ==> !p(r[k])
    ensures CountRow(r, p) == 0
  {
    if r != [] {
      CountRowNone(r[..|r| - 1], p);
    }
  }

  /** A grid none of whose cells satisfy `p` counts zero. */
  lemma {:induction false} CountGridNone(b: Grid, p: Cell -> bool)
    requires forall i, j :: 0 <= i < |b| && 0 <= j < |b[i]| ==> !p(b[i][j])
    ensures CountGrid(b, p) == 0
  {
    if b != [] {
      var n := |b| - 1;
      CountGridNone(b[..n], p);
      CountRowNone(b[n], p);
    }
  }

  /** Grids of the same shape whose cells agree on `p` count `p` alike. */
  lemma {:induction false} CountGridSame(b: Grid, b': Grid, p: Cell -> bool)
    requires |b| == |b'|
    requires forall i :: 0 <= i < |b| ==> |b[i]| == |b'[i]|
    requires forall i, j :: 0 <= i < |b| && 0 <= j < |b[i]| ==> p(b[i][j]) == p(b'[i][j])
    ensures CountGrid(b, p) == CountGrid(b', p)
  {
    if b != [] {
      var n := |b| - 1;
      CountGridSame(b[..n], b'[..n], p);
      CountRowSame(b[n], b'[n], p);
    }
  }

  lemma {:induction false} CountRowSame(r: seq<Cell>, r': seq<Cell>, p: Cell -> bool)
    requires |r| == |r'|
    requires forall k :: 0 <= k < |r| ==> p(r[k]) == p(r'[k])
    ensures CountRow(r, p) == CountRow(r', p)
  {
    if r != [] {
      CountRowSame(r[..|r| - 1], r'[..|r| - 1], p);
    }
  }

  /** Two properties no cell has at once together count at most the row
      length, with equality exactly when every cell has one of them. */
  lemma {:induction false} CountRowDisjoint(r: seq<Cell>, p: Cell -> bool, q: Cell -> bool)
    requires forall k :: 0 <= k < |r| ==> !(p(r[k]) && q(r[k]))
    ensures CountRow(r, p) + CountRow(r, q) <= |r|
    ensures CountRow(r, p) + CountRow(r, q) == |r| <==> forall k :: 0 <= k < |r| ==> p(r[k]) || q(r[k])
  {
    if r != [] {
      var n := |r| - 1;
      var r' := r[..n];
      CountRowDisjoint(r', p, q);
      if forall k :: 0 <= k < |r| ==> p(r[k]) || q(r[k]) {
        assert forall k :: 0 <= k < |r'| ==> p(r'[k]) || q(r'[k]) by {
          forall k | 0 <= k < |r'| ensures p(r'[k]) || q(r'[k]) {
            assert r'[k] == r[k];
          }
        }
      }
    }
  }

  /** The grid version of `CountRowDisjoint` for a grid whose rows all have
      length `n`: the two counts add up to at most `|b| * n` cells, with
      equality exactly when every cell has one of the properties. */
  lemma {:induction false} CountGridDisjoint(b: Grid, n: nat, p: Cell -> bool, q: Cell -> bool)
    requires forall i :: 0 <= i < |b| ==> |b[i]| == n
    requires forall i, j :: 0 <= i < |b| && 0 <= j < |b[i]| ==> !(p(b[i][j]) && q(b[i][j]))
    ensures CountGrid(b, p) + CountGrid(b, q) <= |b| * n
    ensures CountGrid(b, p) + CountGrid(b, q) == |b| * n <==>
            forall i, j :: 0 <= i < |b| && 0 <= j < |b[i]| ==> p(b[i][j]) || q(b[i][j])
  {
    if b != [] {
      var m := |b| - 1;
      var b' := b[..m];
      CountGridDisjoint(b', n, p, q);
      CountRowDisjoint(b[m], p, q);
      assert |b| * n == |b'| * n + n;
      if forall i, j :: 0 <= i < |b| && 0 <= j < |b[i]| ==> p(b[i][j]) || q(b[i][j]) {
        assert forall i, j :: 0 <= i < |b'| && 0 <= j < |b'[i]| ==> p(b'[i][j]) || q(b'[i][j]) by {
          forall i, j | 0 <= i < |b'| && 0 <= j < |b'[i]| ensures p(b'[i][j]) || q(b'[i][j]) {
            assert b'[i] == b[i];
          }
        }
      }
    }
  }

  /** On a square board with no mine showing, the visible cells and the mines
      together number at most `size²`, and reach it exactly when every cell
      that is not a mine has been revealed. */
  lemma WinCount(b: Grid)
    requires Square(b)
    requires NoMineVisible(b)
    ensures VisibleCount(b) + MineCount(b) <= |b| * |b|
    ensures VisibleCount(b) + MineCount(b) >= |b| * |b| <==> AllSafeVisible(b)
  {
    CountGridDisjoint(b, |b|, IsVisible, IsMine);
  }

  /** A square board holds at most `size²` mines. */
  lemma MineCountBound(b: Grid)
    requires Square(b)
    ensures MineCount(b) <= |b| * |b|
  {
    CountGridDisjoint(b, |b|, IsMine, (c: Cell) => false);
  }
}
