/**
 * Grid algebra of the rules engine: the collision test, copying, merging a
 * piece into the background and removing full rows with the line bonus.
 * Grids are values, so a copy can never alias the grid it was taken from.
 */
module MatrixOperations {

  /** A grid of cells indexed [row][column]: 0 is empty, any other value is a colour tag. */
  type Grid = seq<seq<int>>

  /** The result of one row-removal pass. */
  datatype ClearRow = ClearRow(linesRemoved: nat, newMatrix: Grid, scoreBonus: nat)

  /** Every row of m has exactly w cells. */
  predicate Rect(m: Grid, w: nat)
  {
    forall r :: 0 <= r < |m| ==> |m[r]| == w
  }

  /** The grid Java allocates with `new int[rows][cols]`. */
  function Zeros(rows: nat, cols: nat): (g: Grid)
    ensures |g| == rows && Rect(g, cols)
    ensures forall r, c :: 0 <= r < rows && 0 <= c < cols ==> g[r][c] == 0
  {
    seq(rows, _ => seq(cols, _ => 0))
  }

  // ---------------------------------------------------------------------------
  // Collision
  // ---------------------------------------------------------------------------

  /** (tx, ty) is not a cell of m; the row's own length bounds the column. */
  predicate OutOfBound(m: Grid, tx: int, ty: int)
  {
    tx < 0 || ty < 0 || ty >= |m| || tx >= |m[ty]|
  }

  /** A block placed at (tx, ty) would leave the grid or overlap a filled cell. */
  predicate Conflict(m: Grid, tx: int, ty: int)
  {
    OutOfBound(m, tx, ty) || m[ty][tx] != 0
  }

  /**
   * The brick, with its top-left corner at column x and row y, collides:
   * some non-zero brick cell (i, j) lands at (x + j, y + i) outside the grid
   * or on a non-zero grid cell.
   */
  predicate Intersects(m: Grid, brick: Grid, x: int, y: int)
  {
    exists i, j :: 0 <= i < |brick| && 0 <= j < |brick[i]| && brick[i][j] != 0 && Conflict(m, x + j, y + i)
  }

  /** The collision test, scanning brick cells row by row and returning at the first conflict. */
  method Intersect(matrix: Grid, brick: Grid, x: int, y: int) returns (r: bool)
    ensures r == Intersects(matrix, brick, x, y)
  {
    for i := 0 to |brick|
      invariant forall i', j' :: 0 <= i' < i && 0 <= j' < |brick[i']| && brick[i'][j'] != 0 ==> !Conflict(matrix, x + j', y + i')
    {
      for j := 0 to |brick[i]|
        invariant forall i', j' :: 0 <= i' < i && 0 <= j' < |brick[i']| && brick[i'][j'] != 0 ==> !Conflict(matrix, x + j', y + i')
        invariant forall j' :: 0 <= j' < j && brick[i][j'] != 0 ==> !Conflict(matrix, x + j', y + i)
      {
        if brick[i][j] != 0 {
          var targetX := x + j;
          var targetY := y + i;
          if OutOfBound(matrix, targetX, targetY) || matrix[targetY][targetX] != 0 {
            assert Conflict(matrix, x + j, y + i);
            return true;
          }
        }
      }
    }
    return false;
  }

  /** The brick has at least one non-zero cell. */
  predicate HasBlock(brick: Grid)
  {
    exists i, j :: 0 <= i < |brick| && 0 <= j < |brick[i]| && brick[i][j] != 0
  }

  /** A brick without blocks, such as the empty piece, collides nowhere. */
  lemma EmptyBrickNeverIntersects(m: Grid, brick: Grid, x: int, y: int)
    requires !HasBlock(brick)
    ensures !Intersects(m, brick, x, y)
  {
  }

  /** On an empty grid a collision can only come from a block outside the grid. */
  lemma IntersectsEmptyGrid(rows: nat, cols: nat, brick: Grid, x: int, y: int)
    ensures Intersects(Zeros(rows, cols), brick, x, y) <==>
      exists i, j :: 0 <= i < |brick| && 0 <= j < |brick[i]| && brick[i][j] != 0 && OutOfBound(Zeros(rows, cols), x + j, y + i)
  {
    var g := Zeros(rows, cols);
    if Intersects(g, brick, x, y) {
      var i, j :| 0 <= i < |brick| && 0 <= j < |brick[i]| && brick[i][j] != 0 && Conflict(g, x + j, y + i);
      assert OutOfBound(g, x + j, y + i);
    }
  }

  /** If a brick fits at row y, each of its blocks is above row |m| - (block row). */
  lemma FitBoundsRow(m: Grid, brick: Grid, x: int, y: int, i: int, j: int)
    requires !Intersects(m, brick, x, y)
    requires 0 <= i < |brick| && 0 <= j < |brick[i]| && brick[i][j] != 0
    ensures 0 <= y + i < |m| && 0 <= x + j < |m[y + i]| && m[y + i][x + j] == 0
  {
    assert !Conflict(m, x + j, y + i);
  }

  // ---------------------------------------------------------------------------
  // Copy and merge
  // ---------------------------------------------------------------------------

  /** Row-by-row copy of a grid (one array copy per row in the game). */
  method Copy(original: Grid) returns (r: Grid)
    ensures r == original
  {
    r := [];
    for i := 0 to |original|
      invariant r == original[..i]
    {
      var aMatrix := original[i];
      r := r + [aMatrix];
    }
  }

  /** Copies of every grid of a list, in order. */
  function DeepCopyList(list: seq<Grid>): (r: seq<Grid>)
    ensures r == list
  {
    if list == [] then [] else [list[0]] + DeepCopyList(list[1..])
  }

  /** Grid cell (r, c) lies under a non-zero cell of the brick placed at (x, y). */
  predicate Covers(brick: Grid, x: int, y: int, r: int, c: int)
  {
    0 <= r - y < |brick| && 0 <= c - x < |brick[r - y]| && brick[r - y][c - x] != 0
  }

  /**
   * The grid m with the brick placed at (x, y) written in: every in-bounds
   * cell under a non-zero brick cell takes the brick's value, every other cell
   * keeps its value, and brick cells that fall outside the grid are dropped.
   */
  function Merged(m: Grid, brick: Grid, x: int, y: int): (g: Grid)
    ensures |g| == |m| && forall r :: 0 <= r < |m| ==> |g[r]| == |m[r]|
    ensures forall w :: Rect(m, w) ==> Rect(g, w)
  {
    seq(|m|, r requires 0 <= r < |m| =>
      seq(|m[r]|, c requires 0 <= c < |m[r]| =>
        if Covers(brick, x, y, r, c) then brick[r - y][c - x] else m[r][c]))
  }

  /** The merge, writing the brick's non-zero cells into a copy of the grid one at a time. */
  method Merge(filledFields: Grid, brick: Grid, x: int, y: int) returns (copy: Grid)
    ensures copy == Merged(filledFields, brick, x, y)
  {
    copy := Copy(filledFields);
    for i := 0 to |brick|
      invariant |copy| == |filledFields|
      invariant forall r :: 0 <= r < |copy| ==> |copy[r]| == |filledFields[r]|
      invariant forall r, c :: 0 <= r < |copy| && 0 <= c < |copy[r]| ==>
        copy[r][c] == if r - y < i && Covers(brick, x, y, r, c) then brick[r - y][c - x] else filledFields[r][c]
    {
      for j := 0 to |brick[i]|
        invariant |copy| == |filledFields|
        invariant forall r :: 0 <= r < |copy| ==> |copy[r]| == |filledFields[r]|
        invariant forall r, c :: 0 <= r < |copy| && 0 <= c < |copy[r]| ==>
          copy[r][c] == if (r - y < i || (r - y == i && c - x < j)) && Covers(brick, x, y, r, c)
                        then brick[r - y][c - x] else filledFields[r][c]
      {
        if brick[i][j] != 0 {
          var targetX := x + j;
          var targetY := y + i;
          if !OutOfBound(copy, targetX, targetY) {
            copy := copy[targetY := copy[targetY][targetX := brick[i][j]]];
          }
        }
      }
    }
    var g := Merged(filledFields, brick, x, y);
    assert forall r :: 0 <= r < |copy| ==> copy[r] == g[r];
  }

  /** A brick that fits is written exactly where it stands: each of its blocks lands in the grid. */
  lemma MergeWritesBrick(m: Grid, brick: Grid, x: int, y: int, i: int, j: int)
    requires !Intersects(m, brick, x, y)
    requires 0 <= i < |brick| && 0 <= j < |brick[i]| && brick[i][j] != 0
    ensures 0 <= y + i < |m| && 0 <= x + j < |m[y + i]|
    ensures Merged(m, brick, x, y)[y + i][x + j] == brick[i][j]
  {
    FitBoundsRow(m, brick, x, y, i, j);
    assert Covers(brick, x, y, y + i, x + j);
  }

  /** A brick that fits only fills empty cells: no filled cell of the grid changes. */
  lemma MergeKeepsFilledCells(m: Grid, brick: Grid, x: int, y: int, r: int, c: int)
    requires !Intersects(m, brick, x, y)
    requires 0 <= r < |m| && 0 <= c < |m[r]| && m[r][c] != 0
    ensures Merged(m, brick, x, y)[r][c] == m[r][c]
  {
    if Covers(brick, x, y, r, c) {
      FitBoundsRow(m, brick, x, y, r - y, c - x);
    }
  }

  /** After a fitting brick with a block is merged, the same placement collides. */
  lemma MergedBrickCollides(m: Grid, brick: Grid, x: int, y: int)
    requires !Intersects(m, brick, x, y) && HasBlock(brick)
    ensures Intersects(Merged(m, brick, x, y), brick, x, y)
  {
    var i, j :| 0 <= i < |brick| && 0 <= j < |brick[i]| && brick[i][j] != 0;
    MergeWritesBrick(m, brick, x, y, i, j);
    assert Conflict(Merged(m, brick, x, y), x + j, y + i);
  }

  // ---------------------------------------------------------------------------
  // Counting cells
  // ---------------------------------------------------------------------------

  /** Number of non-zero cells of a row. */
  function RowNonZero(row: seq<int>): nat
  {
    if row == [] then 0 else RowNonZero(row[..|row| - 1]) + (if row[|row| - 1] != 0 then 1 else 0)
  }

  /** Number of non-zero cells of a grid. */
  function CountNonZero(g: Grid): nat
  {
    if g == [] then 0 else CountNonZero(g[..|g| - 1]) + RowNonZero(g[|g| - 1])
  }

  lemma {:induction false} RowNonZeroHasBlock(row: seq<int>)
    requires RowNonZero(row) > 0
    ensures exists j :: 0 <= j < |row| && row[j] != 0
  {
    var n := |row|;
    if row[n - 1] == 0 {
      RowNonZeroHasBlock(row[..n - 1]);
      var j :| 0 <= j < n - 1 && row[..n - 1][j] != 0;
      assert row[j] != 0;
    }
  }

  /** A grid with a positive count of non-zero cells has a block. */
  lemma {:induction false} CountNonZeroHasBlock(g: Grid)
    requires CountNonZero(g) > 0
    ensures HasBlock(g)
  {
    var n := |g|;
    if RowNonZero(g[n - 1]) > 0 {
      RowNonZeroHasBlock(g[n - 1]);
      var j :| 0 <= j < |g[n - 1]| && g[n - 1][j] != 0;
      assert g[n - 1][j] != 0;
    } else {
      CountNonZeroHasBlock(g[..n - 1]);
      var i, j :| 0 <= i < n - 1 && 0 <= j < |g[..n - 1][i]| && g[..n - 1][i][j] != 0;
      assert g[i][j] != 0;
    }
  }

  // ---------------------------------------------------------------------------
  // Full-row removal
  // ---------------------------------------------------------------------------

  /** A row is full when none of its cells is empty. */
  predicate IsFull(row: seq<int>)
  {
    forall j :: 0 <= j < |row| ==> row[j] != 0
  }

  /** Number of full rows of m. */
  function CountFull(m: Grid): nat
  {
    if m == [] then 0 else CountFull(m[..|m| - 1]) + (if IsFull(m[|m| - 1]) then 1 else 0)
  }

  /** The rows of m that are not full, in their original top-to-bottom order. */
  function Kept(m: Grid): (k: Grid)
    ensures |k| + CountFull(m) == |m|
    ensures forall r :: 0 <= r < |k| ==> !IsFull(k[r])
  {
    if m == [] then []
    else Kept(m[..|m| - 1]) + (if IsFull(m[|m| - 1]) then [] else [m[|m| - 1]])
  }

  /** Line bonus: 100, 300, 500 and 800 points for 1 to 4 rows, nothing otherwise. */
  function Bonus(lines: int): nat
  {
    match lines
    case 1 => 100
    case 2 => 300
    case 3 => 500
    case 4 => 800
    case _ => 0
  }

  /**
   * The row-removal pass: the kept rows, bottom-aligned, under as many zero rows
   * as rows were removed, with the line bonus for that count.
   */
  function ClearFullRows(m: Grid): (cr: ClearRow)
    requires |m| > 0 && Rect(m, |m[0]|)
  {
    var kept := Kept(m);
    var n := |m| - |kept|;
    ClearRow(n, Zeros(n, |m[0]|) + kept, Bonus(n))
  }

  /** One row of the split pass: a copy of the row and whether it is full. */
  method ScanRow(row: seq<int>, width: nat) returns (tmpRow: seq<int>, rowToClear: bool)
    requires |row| == width
    ensures tmpRow == row
    ensures rowToClear == IsFull(row)
  {
    tmpRow := seq(width, _ => 0);
    rowToClear := true;
    for j := 0 to width
      invariant |tmpRow| == width
      invariant forall j' :: 0 <= j' < j ==> tmpRow[j'] == row[j']
      invariant rowToClear <==> forall j' :: 0 <= j' < j ==> row[j'] != 0
    {
      if row[j] == 0 {
        rowToClear := false;
      }
      tmpRow := tmpRow[j := row[j]];
    }
  }

  /** The bottom-up rebuild: kept rows are popped from the back into the zero grid from the last row up. */
  method Rebuild(rows: nat, width: nat, kept: Grid) returns (tmp: Grid)
    requires |kept| <= rows
    ensures tmp == Zeros(rows - |kept|, width) + kept
  {
    tmp := Zeros(rows, width);
    var newRows := kept;
    ghost var k := |kept|;
    var i := rows - 1;
    while i >= 0
      invariant -1 <= i < rows
      invariant rows - 1 - i <= k
      invariant newRows == kept[..k - (rows - 1 - i)]
      invariant |tmp| == rows
      invariant forall r :: 0 <= r <= i ==> tmp[r] == seq(width, _ => 0)
      invariant forall r :: i < r < rows ==> tmp[r] == kept[k - (rows - r)]
    {
      if newRows == [] {
        break;
      }
      var row := newRows[|newRows| - 1];
      newRows := newRows[..|newRows| - 1];
      tmp := tmp[i := row];
      i := i - 1;
    }
    var target := Zeros(rows - k, width) + kept;
    assert forall r :: 0 <= r < rows ==> tmp[r] == target[r];
  }

  /** The row-removal pass as the game runs it: a split pass, then a bottom-up rebuild. */
  method CheckRemoving(matrix: Grid) returns (cr: ClearRow)
    requires |matrix| > 0 && Rect(matrix, |matrix[0]|)
    ensures cr == ClearFullRows(matrix)
  {
    var width := |matrix[0]|;
    var newRows: Grid := [];
    var clearedRows: seq<int> := [];

    for i := 0 to |matrix|
      invariant newRows == Kept(matrix[..i])
      invariant |clearedRows| == CountFull(matrix[..i])
    {
      var tmpRow, rowToClear := ScanRow(matrix[i], width);
      assert matrix[..i + 1][..i] == matrix[..i];
      if rowToClear {
        clearedRows := clearedRows + [i];
      } else {
        newRows := newRows + [tmpRow];
      }
    }
    assert matrix[..|matrix|] == matrix;

    var tmp := Rebuild(|matrix|, width, newRows);

    var linesCleared := |clearedRows|;
    var scoreBonus := 0;
    match linesCleared {
      case 1 => scoreBonus := 100;
      case 2 => scoreBonus := 300;
      case 3 => scoreBonus := 500;
      case 4 => scoreBonus := 800;
      case _ => scoreBonus := 0;
    }
    cr := ClearRow(|clearedRows|, tmp, scoreBonus);
  }

  /** Removal keeps the kept rows' order across any split of the grid. */
  lemma {:induction false} KeptConcat(a: Grid, b: Grid)
    ensures Kept(a + b) == Kept(a) + Kept(b)
  {
    if b != [] {
      var n := |b|;
      assert (a + b)[..|a + b| - 1] == a + b[..n - 1];
      KeptConcat(a, b[..n - 1]);
    } else {
      assert a + b == a;
    }
  }

  /** The rows kept are exactly the non-full rows, each taken from the grid. */
  lemma {:induction false} KeptMembers(m: Grid)
    ensures forall row :: row in Kept(m) <==> row in m && !IsFull(row)
  {
    if m != [] {
      var n := |m|;
      KeptMembers(m[..n - 1]);
      assert m == m[..n - 1] + [m[n - 1]];
    }
  }

  /** A grid without full rows keeps all of its rows. */
  lemma {:induction false} KeptNoFull(m: Grid)
    requires CountFull(m) == 0
    ensures Kept(m) == m
  {
    if m != [] {
      var n := |m|;
      KeptNoFull(m[..n - 1]);
      assert m == m[..n - 1] + [m[n - 1]];
    }
  }

  lemma {:induction false} KeptRect(m: Grid, w: nat)
    requires Rect(m, w)
    ensures Rect(Kept(m), w)
  {
    if m != [] {
      KeptRect(m[..|m| - 1], w);
    }
  }

  /** The number of rows removed is the number of full rows. */
  lemma ClearCountsFullRows(m: Grid)
    requires |m| > 0 && Rect(m, |m[0]|)
    ensures ClearFullRows(m).linesRemoved == CountFull(m)
    ensures ClearFullRows(m).scoreBonus == Bonus(CountFull(m))
  {
  }

  /**
   * Shape of the cleared grid: same dimensions, the top `linesRemoved` rows all
   * zero and the non-full rows, in their original order, filling the bottom.
   */
  lemma ClearShape(m: Grid)
    requires |m| > 0 && Rect(m, |m[0]|)
    ensures var cr := ClearFullRows(m);
      |cr.newMatrix| == |m| && Rect(cr.newMatrix, |m[0]|) &&
      cr.linesRemoved <= |m| &&
      (forall r, c :: 0 <= r < cr.linesRemoved && 0 <= c < |m[0]| ==> cr.newMatrix[r][c] == 0) &&
      cr.newMatrix[cr.linesRemoved..] == Kept(m)
  {
    KeptRect(m, |m[0]|);
    var cr := ClearFullRows(m);
    assert cr.newMatrix[cr.linesRemoved..] == Kept(m);
  }

  /** With no full row the grid comes back unchanged and no bonus is paid. */
  lemma ClearNoFullRows(m: Grid)
    requires |m| > 0 && Rect(m, |m[0]|)
    requires CountFull(m) == 0
    ensures ClearFullRows(m) == ClearRow(0, m, 0)
  {
    KeptNoFull(m);
  }

  /** A zero row of positive width is never full. */
  lemma {:induction false} ZerosNotFull(n: nat, w: nat)
    requires w > 0
    ensures CountFull(Zeros(n, w)) == 0
  {
    if n > 0 {
      assert Zeros(n, w)[..n - 1] == Zeros(n - 1, w);
      ZerosNotFull(n - 1, w);
      assert Zeros(n, w)[n - 1][0] == 0;
    }
  }

  lemma {:induction false} CountFullConcat(a: Grid, b: Grid)
    ensures CountFull(a + b) == CountFull(a) + CountFull(b)
  {
    if b != [] {
      var n := |b|;
      assert (a + b)[..|a + b| - 1] == a + b[..n - 1];
      CountFullConcat(a, b[..n - 1]);
    } else {
      assert a + b == a;
    }
  }

  lemma {:induction false} KeptHasNoFull(m: Grid)
    ensures CountFull(Kept(m)) == 0
  {
    if m != [] {
      var n := |m|;
      KeptHasNoFull(m[..n - 1]);
      CountFullConcat(Kept(m[..n - 1]), if IsFull(m[n - 1]) then [] else [m[n - 1]]);
      if !IsFull(m[n - 1]) {
        assert [m[n - 1]][..0] == [];
      }
    }
  }

  /** Clearing twice removes nothing the second time: the pass is idempotent on grids with columns. */
  lemma ClearIdempotent(m: Grid)
    requires |m| > 0 && Rect(m, |m[0]|) && |m[0]| > 0
    ensures var once := ClearFullRows(m).newMatrix;
      |once| > 0 && Rect(once, |once[0]|) &&
      ClearFullRows(once) == ClearRow(0, once, 0)
  {
    ClearShape(m);
    var cr := ClearFullRows(m);
    var once := cr.newMatrix;
    ZerosNotFull(cr.linesRemoved, |m[0]|);
    KeptHasNoFull(m);
    CountFullConcat(Zeros(cr.linesRemoved, |m[0]|), Kept(m));
    ClearNoFullRows(once);
  }

  /** The bonus table: exactly 1 to 4 rows pay, 0 or more than 4 rows pay nothing. */
  lemma BonusTable(lines: int)
    ensures Bonus(1) == 100 && Bonus(2) == 300 && Bonus(3) == 500 && Bonus(4) == 800
    ensures (lines < 1 || lines > 4) ==> Bonus(lines) == 0
    ensures 1 <= lines <= 3 ==> Bonus(lines) < Bonus(lines + 1)
  {
  }
}
