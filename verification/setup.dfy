/** Board generation: clearing the board (`initBoard`), the rejection loop
    that places mines (`placeMinesOnBoard`) and the neighbour-count pass
    (`fillInMineCountForNonMineCells`). The random column choices
    `rand() % size` are supplied by the caller as a sequence of draws. */
module Setup {
  import opened Board
  import opened Neighbours

  /** A `size × size` board of cleared cells: no mine, count 0, hidden and
      unflagged, so it holds no mine and shows no cell. */
  method InitBoard(size: nat) returns (b: Grid)
    ensures |b| == size && Square(b)
    ensures forall i, j :: 0 <= i < size && 0 <= j < size ==> b[i][j] == Blank
    ensures MineCount(b) == 0 && VisibleCount(b) == 0
  {
    b := [];
    var i := 0;
    while i < size
      invariant 0 <= i <= size && |b| == i
      invariant forall r :: 0 <= r < i ==> |b[r]| == size
      invariant forall r, c :: 0 <= r < i && 0 <= c < size ==> b[r][c] == Blank
    {
      var row := [];
      var j := 0;
      while j < size
        invariant 0 <= j <= size && |row| == j
        invariant forall c :: 0 <= c < j ==> row[c] == Blank
      {
        row := row + [Blank];
        j := j + 1;
      }
      b := b + [row];
      i := i + 1;
    }
    CountGridNone(b, IsMine);
    CountGridNone(b, IsVisible);
  }

  /** One pass of the outer loop of `placeMinesOnBoard`: for each row `i`
      the column `picks[i]` is drawn, and a mine is put there when mines are
      still owed (`total > 0`) and the cell is not already a mine.
      Only `isMine` changes, mines are never removed, a new mine in row `i`
      sits at column `picks[i]` (so at most one per row), the mines owed drop
      by exactly the mines added, and if some are still owed afterwards every
      drawn cell is a mine. */
  method PlaceMinesPass(b: Grid, total: int, picks: seq<int>) returns (b': Grid, left: int)
    requires Square(b)
    requires |picks| == |b|
    requires forall k :: 0 <= k < |picks| ==> 0 <= picks[k] < |b|
    requires total >= 0
    ensures Square(b') && |b'| == |b|
    ensures 0 <= left <= total
    ensures MineCount(b') == MineCount(b) + (total - left)
    ensures forall i, j :: 0 <= i < |b| && 0 <= j < |b| ==> b'[i][j] == b[i][j].(isMine := b'[i][j].isMine)
    ensures forall i, j :: 0 <= i < |b| && 0 <= j < |b| && b[i][j].isMine ==> b'[i][j].isMine
    ensures forall i, j :: 0 <= i < |b| && 0 <= j < |b| && b'[i][j].isMine && !b[i][j].isMine ==> j == picks[i]
    ensures left > 0 ==> forall i :: 0 <= i < |b| ==> b'[i][picks[i]].isMine
  {
    var size := |b|;
    b' := b;
    left := total;
    var i := 0;
    while i < size
      invariant 0 <= i <= size
      invariant Square(b') && |b'| == size
      invariant 0 <= left <= total
      invariant MineCount(b') == MineCount(b) + (total - left)
      invariant forall r, c :: 0 <= r < size && 0 <= c < size ==> b'[r][c] == b[r][c].(isMine := b'[r][c].isMine)
      invariant forall r, c :: 0 <= r < size && 0 <= c < size && b[r][c].isMine ==> b'[r][c].isMine
      invariant forall r, c :: 0 <= r < size && 0 <= c < size && b'[r][c].isMine && !b[r][c].isMine ==> r < i && c == picks[r]
      invariant left > 0 ==> forall r :: 0 <= r < i ==> b'[r][picks[r]].isMine
    {
      var num := picks[i];
      var j := 0;
      while j < size
        invariant 0 <= j <= size
        invariant Square(b') && |b'| == size
        invariant 0 <= left <= total
        invariant MineCount(b') == MineCount(b) + (total - left)
        invariant forall r, c :: 0 <= r < size && 0 <= c < size ==> b'[r][c] == b[r][c].(isMine := b'[r][c].isMine)
        invariant forall r, c :: 0 <= r < size && 0 <= c < size && b[r][c].isMine ==> b'[r][c].isMine
        invariant forall r, c :: 0 <= r < size && 0 <= c < size && b'[r][c].isMine && !b[r][c].isMine ==>
                    (r < i || (r == i && c < j)) && c == picks[r]
        invariant left > 0 ==> forall r :: 0 <= r < i ==> b'[r][picks[r]].isMine
        invariant left > 0 && num < j ==> b'[i][num].isMine
      {
        if left == 0 {
          break;
        }
        if j == num && !b'[i][j].isMine {
          CountGridUpdate(b', i, j, b'[i][j].(isMine := true), IsMine);
          b' := b'[i := b'[i][j := b'[i][j].(isMine := true)]];
          left := left - 1;
        }
        j := j + 1;
      }
      i := i + 1;
    }
  }

  /** `placeMinesOnBoard`: starting with `total = nbrMines`, run whole passes
      while mines are still owed. Each pass consumes one draw per row from
      `draws`; the loop also stops when fewer than `size` draws remain, which
      stands for the program looping on. `used` is the number of draws
      consumed.
      The mines added are exactly `nbrMines - total`; when the loop exits
      with `total == 0`, exactly `nbrMines` new mines exist; only `isMine`
      changes and no mine is removed; and when more mines are asked for than
      there are free cells the loop never exits (`total` stays positive). */
  method PlaceMinesOnBoard(b: Grid, nbrMines: int, draws: seq<int>) returns (b': Grid, total: int, used: nat)
    requires Square(b) && |b| >= 1
    requires forall k :: 0 <= k < |draws| ==> 0 <= draws[k] < |b|
    ensures Square(b') && |b'| == |b|
    ensures nbrMines <= 0 ==> b' == b && total == nbrMines
    ensures nbrMines > 0 ==> 0 <= total <= nbrMines
    ensures MineCount(b') == MineCount(b) + (nbrMines - total)
    ensures total == 0 ==> MineCount(b') == MineCount(b) + nbrMines
    ensures total > 0 ==> used <= |draws| < used + |b|
    ensures nbrMines > |b| * |b| - MineCount(b) ==> total > 0
    ensures forall i, j :: 0 <= i < |b| && 0 <= j < |b| ==> b'[i][j] == b[i][j].(isMine := b'[i][j].isMine)
    ensures forall i, j :: 0 <= i < |b| && 0 <= j < |b| && b[i][j].isMine ==> b'[i][j].isMine
  {
    var size := |b|;
    b' := b;
    total := nbrMines;
    used := 0;
    while total > 0 && used + size <= |draws|
      invariant used <= |draws|
      invariant Square(b') && |b'| == size
      invariant nbrMines <= 0 ==> b' == b && total == nbrMines
      invariant nbrMines > 0 ==> 0 <= total <= nbrMines
      invariant MineCount(b') == MineCount(b) + (nbrMines - total)
      invariant forall i, j :: 0 <= i < size && 0 <= j < size ==> b'[i][j] == b[i][j].(isMine := b'[i][j].isMine)
      invariant forall i, j :: 0 <= i < size && 0 <= j < size && b[i][j].isMine ==> b'[i][j].isMine
      decreases |draws| - used
    {
      var picks := draws[used..used + size];
      b', total := PlaceMinesPass(b', total, picks);
      used := used + size;
    }
    MineCountBound(b');
  }

  /** `fillInMineCountForNonMineCells`: every cell that is not a mine has its count
      raised by the program's neighbour count; mine cells, and the `isMine`,
      `visible` and `marked` fields of every cell, are left alone. Measured
      against the true neighbourhood, the increase is the true count, less one
      exactly when the cells above and below are both mines. */
  method FillInMineCountForNonMineCells(b: Grid) returns (b': Grid)
    requires Square(b) && |b| >= 2
    ensures Square(b') && |b'| == |b|
    ensures forall i, j :: 0 <= i < |b| && 0 <= j < |b| ==> b'[i][j] == b[i][j].(mines := b'[i][j].mines)
    ensures forall i, j :: 0 <= i < |b| && 0 <= j < |b| && b[i][j].isMine ==> b'[i][j] == b[i][j]
    ensures forall i, j :: 0 <= i < |b| && 0 <= j < |b| && !b[i][j].isMine ==>
              b'[i][j].mines - b[i][j].mines ==
              TrueNeighborMines(b, i, j) - (if VerticalPair(b, i, j) then 1 else 0)
  {
    var size := |b|;
    b' := [];
    var i := 0;
    while i < size
      invariant 0 <= i <= size && |b'| == i
      invariant forall r :: 0 <= r < i ==> |b'[r]| == size
      invariant forall r, c :: 0 <= r < i && 0 <= c < size ==> b'[r][c] == FilledCell(b, r, c)
    {
      var row := [];
      var j := 0;
      while j < size
        invariant 0 <= j <= size && |row| == j
        invariant forall c :: 0 <= c < j ==> row[c] == FilledCell(b, i, c)
      {
        var cell := b[i][j];
        if !cell.isMine {
          cell := cell.(mines := cell.mines + WrittenNeighborMines(b, i, j));
        }
        row := row + [cell];
        j := j + 1;
      }
      b' := b' + [row];
      i := i + 1;
    }
    forall i, j | 0 <= i < size && 0 <= j < size && !b[i][j].isMine
      ensures b'[i][j].mines - b[i][j].mines ==
              TrueNeighborMines(b, i, j) - (if VerticalPair(b, i, j) then 1 else 0)
    {
      assert b'[i][j] == FilledCell(b, i, j);
    }
  }

  /** Cell `(i, j)` once the count pass has visited it. */
  function FilledCell(b: Grid, i: int, j: int): Cell
    requires Square(b) && |b| >= 2
    requires 0 <= i < |b| && 0 <= j < |b|
  {
    var cell := b[i][j];
    if cell.isMine then cell else cell.(mines := cell.mines + WrittenNeighborMines(b, i, j))
  }

  /** The board set-up `main` performs before play: clear, place `nbrMines` mines
      from the draws, fill in the counts. The mines added are exactly
      `nbrMines - total` (all of them once `total == 0`); nothing is shown or
      flagged; mine cells keep count 0; and every other cell's count is at most
      its true neighbour-mine count, equal to it unless the cells above and
      below are both mines. */
  method NewBoard(size: nat, nbrMines: int, draws: seq<int>) returns (b: Grid, total: int)
    requires size >= 2
    requires forall k :: 0 <= k < |draws| ==> 0 <= draws[k] < size
    ensures Square(b) && |b| == size
    ensures MineCount(b) == nbrMines - total
    ensures nbrMines > 0 ==> 0 <= total <= nbrMines
    ensures forall i, j :: 0 <= i < size && 0 <= j < size ==> !b[i][j].visible && !b[i][j].marked
    ensures forall i, j :: 0 <= i < size && 0 <= j < size && b[i][j].isMine ==> GetNbrNeighborMines(b, i, j) == 0
    ensures forall i, j :: 0 <= i < size && 0 <= j < size && !b[i][j].isMine ==>
              GetNbrNeighborMines(b, i, j) <= TrueNeighborMines(b, i, j) &&
              (GetNbrNeighborMines(b, i, j) == TrueNeighborMines(b, i, j) <==> !VerticalPair(b, i, j))
  {
    var b0 := InitBoard(size);
    var b1, used;
    b1, total, used := PlaceMinesOnBoard(b0, nbrMines, draws);
    b := FillInMineCountForNonMineCells(b1);
    SameMinesSameCounts(b1, b);
    CountGridSame(b1, b, IsMine);
  }

  /** Two boards with the same mines have the same neighbour counts and the
      same vertical pairs. */
  lemma SameMinesSameCounts(b: Grid, b': Grid)
    requires |b| == |b'|
    requires Square(b) && Square(b')
    requires forall i, j :: 0 <= i < |b| && 0 <= j < |b| ==> b[i][j].isMine == b'[i][j].isMine
    ensures forall i, j :: Mined(b, i, j) == Mined(b', i, j)
    ensures forall i, j :: TrueNeighborMines(b, i, j) == TrueNeighborMines(b', i, j)
    ensures forall i, j :: VerticalPair(b, i, j) == VerticalPair(b', i, j)
  {
    assert forall i, j :: Mined(b, i, j) == Mined(b', i, j);
  }
}
