/**
 * The board: the background grid, the falling piece's offset and rotation,
 * the held piece and the once-per-spawn hold flag, with moves, rotation with
 * wall kicks, spawning, the ghost (landing) position, merging, row clearing,
 * holding and a new game.
 *
 * As in the game, `width` is the number of rows (25) and `height` the number
 * of columns (10); offsets are (column, row) with rows counted downwards.
 */
module Board {
  import opened Wrappers
  import opened MatrixOperations
  import opened Pieces
  import opened Rotation
  import opened Generator
  import opened Scoring

  /** A (column, row) position or displacement. */
  datatype Point = Point(x: int, y: int)

  function Translate(p: Point, d: Point): Point
  {
    Point(p.x + d.x, p.y + d.y)
  }

  /** Where a new piece appears. */
  const SpawnPoint: Point := Point(3, 0)

  /** The extended wall kicks meant for the I piece, tried in this order. */
  const IBrickKicks: seq<Point> := [
    Point(1, 0), Point(-1, 0), Point(2, 0), Point(-2, 0),
    Point(0, -1), Point(1, -1), Point(-1, -1),
    Point(0, -2), Point(1, -2), Point(-1, -2),
    Point(0, 1), Point(1, 1), Point(-1, 1),
    Point(2, -1), Point(-2, -1), Point(2, 1), Point(-2, 1)
  ]

  /** The wall kicks meant for the other pieces, tried in this order. */
  const StandardKicks: seq<Point> := [
    Point(1, 0), Point(-1, 0), Point(0, -1), Point(1, -1), Point(-1, -1)
  ]

  /** The kick list chosen by the piece test. */
  function KickList(isIBrick: bool): seq<Point>
  {
    if isIBrick then IBrickKicks else StandardKicks
  }

  /** The positions a rotation tries, in order: the unchanged offset, then each kick from it. */
  function Candidates(p: Point, kicks: seq<Point>): (c: seq<Point>)
    ensures |c| == |kicks| + 1 && c[0] == p
    ensures forall k :: 0 <= k < |kicks| ==> c[k + 1] == Translate(p, kicks[k])
  {
    [p] + seq(|kicks|, k requires 0 <= k < |kicks| => Translate(p, kicks[k]))
  }

  /** The shape at q fits the grid. */
  predicate Fits(m: Grid, shape: Grid, q: Point)
  {
    !Intersects(m, shape, q.x, q.y)
  }

  /**
   * The index of the first position in cands where the shape fits, or None
   * when it fits nowhere.
   */
  function FirstFit(m: Grid, shape: Grid, cands: seq<Point>): (r: Option<nat>)
    ensures r.Some? ==> r.value < |cands| && Fits(m, shape, cands[r.value])
    ensures r.Some? ==> forall j :: 0 <= j < r.value ==> !Fits(m, shape, cands[j])
    ensures r.None? ==> forall j :: 0 <= j < |cands| ==> !Fits(m, shape, cands[j])
  {
    if cands == [] then None
    else if Fits(m, shape, cands[0]) then Some(0)
    else match FirstFit(m, shape, cands[1..])
      case None => None
      case Some(k) => Some(k + 1)
  }

  /** The first position in cands where the shape fits, or None. */
  function FirstFitPoint(m: Grid, shape: Grid, cands: seq<Point>): Option<Point>
  {
    match FirstFit(m, shape, cands)
    case None => None
    case Some(k) => Some(cands[k])
  }

  /**
   * The wall-kick search: tries each kick from p in order and returns the
   * first kicked position where the shape fits; p itself is known to collide.
   */
  method TryWallKicks(m: Grid, shape: Grid, p: Point, wallKicks: seq<Point>) returns (target: Option<Point>)
    requires !Fits(m, shape, p)
    ensures target == FirstFitPoint(m, shape, Candidates(p, wallKicks))
    ensures target.Some? ==> exists k :: 0 <= k < |wallKicks| && target == Some(Translate(p, wallKicks[k]))
  {
    ghost var cands := Candidates(p, wallKicks);
    for i := 0 to |wallKicks|
      invariant forall j :: 0 <= j <= i ==> !Fits(m, shape, cands[j])
    {
      var testOffset := Translate(p, wallKicks[i]);
      var kickConflict := Intersect(m, shape, testOffset.x, testOffset.y);
      if !kickConflict {
        FirstFitUnique(m, shape, cands, i + 1);
        return Some(testOffset);
      }
    }
    return None;
  }

  /**
   * The rotation search: the unchanged offset p when the shape fits there,
   * otherwise the first kicked position from the chosen kick list that fits.
   */
  method FindRotationTarget(m: Grid, shape: Grid, p: Point, isIBrick: bool) returns (target: Option<Point>)
    ensures target == FirstFitPoint(m, shape, Candidates(p, KickList(isIBrick)))
  {
    var conflict := Intersect(m, shape, p.x, p.y);
    if !conflict {
      FirstFitUnique(m, shape, Candidates(p, KickList(isIBrick)), 0);
      return Some(p);
    }
    target := TryWallKicks(m, shape, p, KickList(isIBrick));
  }

  /** The first fit is the only index with its defining property. */
  lemma FirstFitUnique(m: Grid, shape: Grid, cands: seq<Point>, k: nat)
    requires k < |cands| && Fits(m, shape, cands[k])
    requires forall j :: 0 <= j < k ==> !Fits(m, shape, cands[j])
    ensures FirstFit(m, shape, cands) == Some(k)
  {
  }

  /**
   * Dropping the shape straight down from row y0 in column x ends at row y1:
   * it fits at every row from y0 to y1 and collides one row below y1.
   */
  predicate DropsTo(m: Grid, shape: Grid, x: int, y0: int, y1: int)
  {
    y0 <= y1 &&
    (forall y :: y0 <= y <= y1 ==> !Intersects(m, shape, x, y)) &&
    Intersects(m, shape, x, y1 + 1)
  }

  /** A fitting shape with a block lies above the bottom of the grid. */
  lemma FitIsAboveBottom(m: Grid, shape: Grid, x: int, y: int)
    requires HasBlock(shape) && !Intersects(m, shape, x, y)
    ensures y < |m|
  {
    var i, j :| 0 <= i < |shape| && 0 <= j < |shape[i]| && shape[i][j] != 0;
    FitBoundsRow(m, shape, x, y, i, j);
  }

  /** The row where a fitting shape with a block comes to rest when dropped from row y. */
  function LandingRow(m: Grid, shape: Grid, x: int, y: int): (r: int)
    requires HasBlock(shape) && !Intersects(m, shape, x, y)
    ensures r >= y
    decreases |m| - y
  {
    FitIsAboveBottom(m, shape, x, y);
    if Intersects(m, shape, x, y + 1) then y
    else LandingRow(m, shape, x, y + 1)
  }

  /** The landing row is where the drop ends: every row down to it is free and the next one is not. */
  lemma {:induction false} LandingRowDropsTo(m: Grid, shape: Grid, x: int, y: int)
    requires HasBlock(shape) && !Intersects(m, shape, x, y)
    ensures DropsTo(m, shape, x, y, LandingRow(m, shape, x, y))
    decreases |m| - y
  {
    FitIsAboveBottom(m, shape, x, y);
    if !Intersects(m, shape, x, y + 1) {
      LandingRowDropsTo(m, shape, x, y + 1);
    }
  }

  /** The number of single-row steps down that succeed, one after another, from row y. */
  function DropDistance(m: Grid, shape: Grid, x: int, y: int): (d: nat)
    requires HasBlock(shape)
    ensures d > 0 ==> Fits(m, shape, Point(x, y + 1))
    ensures !Fits(m, shape, Point(x, y + d + 1))
    decreases |m| - y
  {
    if Fits(m, shape, Point(x, y + 1)) then
      FitIsAboveBottom(m, shape, x, y + 1);
      1 + DropDistance(m, shape, x, y + 1)
    else 0
  }

  /** A piece that fits and is dropped step by step comes to rest on its landing row. */
  lemma {:induction false} DropDistanceReachesLanding(m: Grid, shape: Grid, x: int, y: int)
    requires HasBlock(shape) && !Intersects(m, shape, x, y)
    ensures y + DropDistance(m, shape, x, y) == LandingRow(m, shape, x, y)
    decreases |m| - y
  {
    FitIsAboveBottom(m, shape, x, y);
    if !Intersects(m, shape, x, y + 1) {
      DropDistanceReachesLanding(m, shape, x, y + 1);
    }
  }

  /** Any 4x4 shape fits at the spawn point of an empty grid with at least 4 rows and 7 columns. */
  lemma SpawnFitsOnEmptyGrid(rows: nat, cols: nat, shape: Grid)
    requires rows >= 4 && cols >= 7 && Is4x4(shape)
    ensures !Intersects(Zeros(rows, cols), shape, SpawnPoint.x, SpawnPoint.y)
  {
    IntersectsEmptyGrid(rows, cols, shape, SpawnPoint.x, SpawnPoint.y);
  }

  /** What the view draws: the piece, its offset, the next and held pieces, and the ghost offset. */
  datatype GameStateView = GameStateView(
    brickData: Grid, xPosition: int, yPosition: int,
    nextBrickData: Grid, heldBrickData: Grid,
    ghostXPosition: int, ghostYPosition: int)

  class GameBoard {
    /** The number of rows. */
    const width: int
    /** The number of columns. */
    const height: int
    const catalog: Catalog
    const brickGenerator: RandomBrickGenerator
    const brickRotator: BrickRotator
    const score: Score
    var currentGameMatrix: Grid
    /** The falling piece's offset; `None` until the first spawn. */
    var currentOffset: Option<Point>
    var heldBrick: Brick
    var canHold: bool

    /**
     * The grid is width x height, the rotor and the generator are consistent,
     * a piece and an offset are set together, and the piece steered is never
     * the empty piece.
     */
    ghost predicate Valid()
      reads this, brickGenerator, brickRotator
    {
      ValidCatalog(catalog) && brickRotator.catalog == catalog &&
      brickRotator.Valid() && brickGenerator.Valid() &&
      width >= 0 && height >= 0 &&
      |currentGameMatrix| == width && Rect(currentGameMatrix, height) &&
      (brickRotator.brick.Some? <==> currentOffset.Some?) &&
      (brickRotator.brick.Some? ==> brickRotator.brick.value.Tetromino?)
    }

    /** A piece has been spawned. */
    predicate Spawned()
      reads this, brickRotator
    {
      brickRotator.brick.Some? && currentOffset.Some?
    }

    /** The falling piece's offset. */
    function Offset(): Point
      reads this
      requires currentOffset.Some?
    {
      currentOffset.value
    }

    /** The falling piece's current rotation state. */
    function CurrentShape(): Grid
      reads this, brickGenerator, brickRotator
      requires Valid() && Spawned()
    {
      brickRotator.Shape()
    }

    /** The falling piece's shape has a block. */
    lemma CurrentShapeHasBlock()
      requires Valid() && Spawned()
      ensures HasBlock(CurrentShape()) && Is4x4(CurrentShape())
      ensures CountNonZero(CurrentShape()) == 4
    {
      TetrominoShapesHaveBlocks(catalog, brickRotator.brick.value.kind, brickRotator.currentShape);
    }

    /** The ghost offset: the landing position of a straight drop, or the offset itself when it already collides. */
    function GhostPosition(): Point
      reads this, brickGenerator, brickRotator
      requires Valid() && Spawned()
    {
      CurrentShapeHasBlock();
      var p := Offset();
      if Intersects(currentGameMatrix, CurrentShape(), p.x, p.y) then p
      else Point(p.x, LandingRow(currentGameMatrix, CurrentShape(), p.x, p.y))
    }

    /**
     * A hard drop from a position where the piece fits ends where the ghost
     * is drawn. (From an overlapping position, which a hold can produce, the
     * ghost stays put while the drop may still move the piece.)
     */
    lemma HardDropLandsOnGhost()
      requires Valid() && Spawned()
      requires Fits(currentGameMatrix, CurrentShape(), Offset())
      ensures HasBlock(CurrentShape())
      ensures GhostPosition() == Translate(Offset(), Point(0, DropDistance(currentGameMatrix, CurrentShape(), Offset().x, Offset().y)))
    {
      CurrentShapeHasBlock();
      DropDistanceReachesLanding(currentGameMatrix, CurrentShape(), Offset().x, Offset().y);
    }

    /** What the view is given for the current state. */
    function ViewData(): GameStateView
      reads this, brickGenerator, brickRotator
      requires Valid() && Spawned()
    {
      var next := ShapeMatrix(catalog, brickGenerator.nextBricks[0]);
      var held := ShapeMatrix(catalog, heldBrick);
      var ghost_ := GhostPosition();
      GameStateView(CurrentShape(), Offset().x, Offset().y, next[0], held[0], ghost_.x, ghost_.y)
    }

    /** An empty width x height grid, no piece yet, nothing held, a fresh score and generator. */
    constructor(width: int, height: int, catalog: Catalog, loadedHighScore: int)
      requires width >= 0 && height >= 0 && ValidCatalog(catalog)
      ensures Valid() && !Spawned()
      ensures this.width == width && this.height == height && this.catalog == catalog
      ensures currentGameMatrix == Zeros(width, height) && currentOffset == None
      ensures heldBrick == NullBrick && canHold
      ensures brickGenerator.drawn == [] && brickRotator.brick == None
      ensures score.score == 0 && score.highScore == loadedHighScore && score.saved == []
      ensures fresh(brickGenerator) && fresh(brickRotator) && fresh(score)
    {
      this.width := width;
      this.height := height;
      this.catalog := catalog;
      currentGameMatrix := Zeros(width, height);
      brickGenerator := new RandomBrickGenerator();
      brickRotator := new BrickRotator(catalog);
      score := new Score(loadedHighScore);
      currentOffset := None;
      heldBrick := NullBrick;
      canHold := true;
    }

    /** Moves the piece by d when it fits there; otherwise nothing changes. */
    method MoveBy(d: Point) returns (moved: bool)
      requires Valid() && Spawned()
      modifies this
      ensures Valid() && Spawned()
      ensures moved == Fits(currentGameMatrix, CurrentShape(), Translate(old(Offset()), d))
      ensures currentOffset == if moved then Some(Translate(old(Offset()), d)) else old(currentOffset)
      ensures CurrentShape() == old(CurrentShape())
      ensures currentGameMatrix == old(currentGameMatrix) && heldBrick == old(heldBrick) && canHold == old(canHold)
    {
      var currentMatrix := Copy(currentGameMatrix);
      var p := Translate(currentOffset.value, d);
      var shape := brickRotator.GetCurrentShape();
      var conflict := Intersect(currentMatrix, shape, p.x, p.y);
      if conflict {
        return false;
      }
      currentOffset := Some(p);
      return true;
    }

    /** One row down, when the piece fits there. */
    method MoveBrickDown() returns (moved: bool)
      requires Valid() && Spawned()
      modifies this
      ensures Valid() && Spawned()
      ensures moved == Fits(currentGameMatrix, CurrentShape(), Translate(old(Offset()), Point(0, 1)))
      ensures currentOffset == if moved then Some(Translate(old(Offset()), Point(0, 1))) else old(currentOffset)
      ensures CurrentShape() == old(CurrentShape())
      ensures currentGameMatrix == old(currentGameMatrix) && heldBrick == old(heldBrick) && canHold == old(canHold)
    {
      moved := MoveBy(Point(0, 1));
    }

    /** One column left, when the piece fits there. */
    method MoveBrickLeft() returns (moved: bool)
      requires Valid() && Spawned()
      modifies this
      ensures Valid() && Spawned()
      ensures moved == Fits(currentGameMatrix, CurrentShape(), Translate(old(Offset()), Point(-1, 0)))
      ensures currentOffset == if moved then Some(Translate(old(Offset()), Point(-1, 0))) else old(currentOffset)
      ensures CurrentShape() == old(CurrentShape())
      ensures currentGameMatrix == old(currentGameMatrix) && heldBrick == old(heldBrick) && canHold == old(canHold)
    {
      moved := MoveBy(Point(-1, 0));
    }

    /** One column right, when the piece fits there. */
    method MoveBrickRight() returns (moved: bool)
      requires Valid() && Spawned()
      modifies this
      ensures Valid() && Spawned()
      ensures moved == Fits(currentGameMatrix, CurrentShape(), Translate(old(Offset()), Point(1, 0)))
      ensures currentOffset == if moved then Some(Translate(old(Offset()), Point(1, 0))) else old(currentOffset)
      ensures CurrentShape() == old(CurrentShape())
      ensures currentGameMatrix == old(currentGameMatrix) && heldBrick == old(heldBrick) && canHold == old(canHold)
    {
      moved := MoveBy(Point(1, 0));
    }

    /**
     * The piece test used to choose the kick list: the current state has
     * exactly four blocks. Every tetromino state has four blocks, so the test
     * always holds and the extended list is always chosen.
     */
    method IsIBrick() returns (b: bool)
      requires Valid() && Spawned()
      ensures b <==> CountNonZero(CurrentShape()) == 4
      ensures b
    {
      var shape := brickRotator.GetCurrentShape();
      var nonZeroCount := 0;
      for i := 0 to |shape|
        invariant nonZeroCount == CountNonZero(shape[..i])
      {
        for j := 0 to |shape[i]|
          invariant nonZeroCount == CountNonZero(shape[..i]) + RowNonZero(shape[i][..j])
        {
          assert shape[i][..j + 1][..j] == shape[i][..j];
          if shape[i][j] != 0 {
            nonZeroCount := nonZeroCount + 1;
          }
        }
        assert shape[i][..|shape[i]|] == shape[i];
        assert shape[..i + 1][..i] == shape[..i];
      }
      assert shape[..|shape|] == shape;
      CurrentShapeHasBlock();
      return nonZeroCount == 4;
    }

    /** The index of the next rotation state. */
    ghost function NextRotation(): nat
      reads this, brickGenerator, brickRotator
      requires Valid() && Spawned()
    {
      NextIndex(brickRotator.currentShape, brickRotator.Count())
    }

    /**
     * Where a rotation puts the piece: the first of the unchanged offset and
     * the kicked offsets, in order, where the next state fits; `None` when
     * it fits at none of them.
     */
    ghost function RotationTarget(): Option<Point>
      reads this, brickGenerator, brickRotator
      requires Valid() && Spawned()
    {
      var shape := ShapeMatrix(catalog, brickRotator.brick.value)[NextRotation()];
      var kicks := KickList(CountNonZero(CurrentShape()) == 4);
      FirstFitPoint(currentGameMatrix, shape, Candidates(Offset(), kicks))
    }

    /**
     * Rotates to the next state at the first position that fits: the
     * unchanged offset, then each kick in order. The rotation index and the
     * offset are committed together; when nothing fits, nothing changes.
     */
    method RotateLeftBrick() returns (rotated: bool)
      requires Valid() && Spawned()
      modifies this, brickRotator
      ensures Valid() && Spawned()
      ensures rotated == old(RotationTarget()).Some?
      ensures rotated ==> brickRotator.currentShape == old(NextRotation()) && currentOffset == old(RotationTarget())
      ensures !rotated ==> brickRotator.currentShape == old(brickRotator.currentShape) && currentOffset == old(currentOffset)
      ensures brickRotator.brick == old(brickRotator.brick)
      ensures currentGameMatrix == old(currentGameMatrix) && heldBrick == old(heldBrick) && canHold == old(canHold)
    {
      var currentMatrix := Copy(currentGameMatrix);
      var nextShape := brickRotator.PeekNextShape();
      var isI := IsIBrick();
      var target := FindRotationTarget(currentMatrix, nextShape.shape, currentOffset.value, isI);
      if target.None? {
        return false;
      }
      var o := brickRotator.SetCurrentShape(nextShape.position);
      currentOffset := target;
      return true;
    }

    /**
     * Takes the generator's next piece at rotation 0 to the spawn point and
     * re-enables hold; the result says whether it collides there (game over).
     */
    method CreateNewBrick() returns (gameOver: bool)
      requires Valid()
      modifies this, brickGenerator, brickRotator
      ensures Valid() && Spawned()
      ensures brickRotator.brick == Some(old(brickGenerator.nextBricks[0])) && brickRotator.currentShape == 0
      ensures brickGenerator.drawn == old(brickGenerator.drawn) + [brickRotator.brick.value]
      ensures currentOffset == Some(SpawnPoint) && canHold
      ensures gameOver == Intersects(currentGameMatrix, CurrentShape(), SpawnPoint.x, SpawnPoint.y)
      ensures currentGameMatrix == old(currentGameMatrix) && heldBrick == old(heldBrick)
    {
      var currentBrick := brickGenerator.GetBrick();
      var o := brickRotator.SetBrick(Some(currentBrick));
      currentOffset := Some(SpawnPoint);
      canHold := true;
      var shape := brickRotator.GetCurrentShape();
      gameOver := Intersect(currentGameMatrix, shape, SpawnPoint.x, SpawnPoint.y);
    }

    /** The background grid. */
    method GetBoardMatrix() returns (m: Grid)
      ensures m == currentGameMatrix
    {
      m := currentGameMatrix;
    }

    /** The view data: the piece and its offset, the next piece's and the held piece's first state, and the ghost. */
    method GetViewData() returns (v: GameStateView)
      requires Valid() && Spawned()
      ensures v == ViewData()
    {
      var heldShapes := ShapeMatrix(catalog, heldBrick);
      var nextBrick := brickGenerator.GetNextBrick();
      var nextShapes := ShapeMatrix(catalog, nextBrick);
      var heldBrickData := heldShapes[0];
      var nextBrickData := nextShapes[0];
      var ghostPosition := CalculateGhostPosition();
      var shape := brickRotator.GetCurrentShape();
      v := GameStateView(shape, currentOffset.value.x, currentOffset.value.y,
        nextBrickData, heldBrickData, ghostPosition.x, ghostPosition.y);
    }

    /**
     * The landing position of a straight drop: same column, the lowest row
     * reached with every row on the way free, or the offset itself when the
     * piece already collides there.
     */
    method CalculateGhostPosition() returns (g: Point)
      requires Valid() && Spawned()
      ensures g == GhostPosition()
      ensures g.x == Offset().x && g.y >= Offset().y
      ensures Fits(currentGameMatrix, CurrentShape(), Offset()) ==>
        DropsTo(currentGameMatrix, CurrentShape(), g.x, Offset().y, g.y)
    {
      var ghostPos := currentOffset.value;
      var currentMatrix := Copy(currentGameMatrix);
      var currentBrick := brickRotator.GetCurrentShape();
      var collides := Intersect(currentMatrix, currentBrick, ghostPos.x, ghostPos.y);
      if collides {
        return currentOffset.value;
      }
      CurrentShapeHasBlock();
      while true
        invariant ghostPos.x == Offset().x && ghostPos.y >= Offset().y
        invariant !Intersects(currentMatrix, currentBrick, ghostPos.x, ghostPos.y)
        invariant LandingRow(currentMatrix, currentBrick, ghostPos.x, ghostPos.y) ==
                  LandingRow(currentMatrix, currentBrick, Offset().x, Offset().y)
        decreases |currentMatrix| - ghostPos.y
      {
        FitIsAboveBottom(currentMatrix, currentBrick, ghostPos.x, ghostPos.y);
        var nextPos := Translate(ghostPos, Point(0, 1));
        var willCollide := Intersect(currentMatrix, currentBrick, nextPos.x, nextPos.y);
        if willCollide {
          break;
        }
        ghostPos := nextPos;
      }
      g := ghostPos;
      LandingRowDropsTo(currentMatrix, currentBrick, Offset().x, Offset().y);
    }

    /** Writes the falling piece into the background grid. */
    method MergeBrickToBackground()
      requires Valid() && Spawned()
      modifies this
      ensures Valid() && Spawned()
      ensures currentGameMatrix == Merged(old(currentGameMatrix), old(CurrentShape()), Offset().x, Offset().y)
      ensures currentOffset == old(currentOffset) && heldBrick == old(heldBrick) && canHold == old(canHold)
    {
      var shape := brickRotator.GetCurrentShape();
      currentGameMatrix := Merge(currentGameMatrix, shape, currentOffset.value.x, currentOffset.value.y);
    }

    /** Removes the full rows, installs the resulting grid and returns the removal result. */
    method ClearRows() returns (clearRow: ClearRow)
      requires Valid() && width > 0
      modifies this
      ensures Valid()
      ensures clearRow == ClearFullRows(old(currentGameMatrix)) && currentGameMatrix == clearRow.newMatrix
      ensures currentOffset == old(currentOffset) && heldBrick == old(heldBrick) && canHold == old(canHold)
    {
      ClearShape(currentGameMatrix);
      clearRow := CheckRemoving(currentGameMatrix);
      currentGameMatrix := clearRow.newMatrix;
    }

    /**
     * Holds the falling piece, once per spawn. A refused hold returns the
     * empty piece and changes nothing. Otherwise the falling piece is held,
     * hold is disabled, the previously held piece (or, when none was held, the
     * generator's next piece) falls from the spawn point at rotation 0
     * without a collision check, and the newly held piece is returned.
     */
    method HoldBrick() returns (b: Brick)
      requires Valid() && Spawned()
      modifies this, brickGenerator, brickRotator
      ensures Valid() && Spawned()
      ensures !old(canHold) ==> (
        b == NullBrick && heldBrick == old(heldBrick) && !canHold &&
        currentOffset == old(currentOffset) &&
        brickRotator.brick == old(brickRotator.brick) && brickRotator.currentShape == old(brickRotator.currentShape) &&
        brickGenerator.drawn == old(brickGenerator.drawn) && brickGenerator.nextBricks == old(brickGenerator.nextBricks))
      ensures old(canHold) ==> (
        b == heldBrick == old(brickRotator.brick.value) && !canHold &&
        currentOffset == Some(SpawnPoint) && brickRotator.currentShape == 0)
      ensures old(canHold) && old(heldBrick) != NullBrick ==> (
        brickRotator.brick == Some(old(heldBrick)) &&
        brickGenerator.drawn == old(brickGenerator.drawn) && brickGenerator.nextBricks == old(brickGenerator.nextBricks))
      ensures old(canHold) && old(heldBrick) == NullBrick ==> (
        brickRotator.brick == Some(old(brickGenerator.nextBricks[0])) &&
        brickGenerator.drawn == old(brickGenerator.drawn) + [brickRotator.brick.value])
      ensures currentGameMatrix == old(currentGameMatrix)
    {
      if !canHold {
        return NullBrick;
      }
      var currentBrick := brickRotator.GetBrick();
      var temp := heldBrick;
      heldBrick := currentBrick.value;
      canHold := false;
      if temp != NullBrick {
        var o := brickRotator.SetBrick(Some(temp));
      } else {
        var newBrick := brickGenerator.GetBrick();
        var o := brickRotator.SetBrick(Some(newBrick));
      }
      currentOffset := Some(SpawnPoint);
      return heldBrick;
    }

    /** An empty grid, score 0, nothing held, hold enabled, and a new piece; the spawn's collision result is dropped. */
    method NewGame()
      requires Valid()
      modifies this, brickGenerator, brickRotator, score
      ensures Valid() && Spawned()
      ensures currentGameMatrix == Zeros(width, height) && heldBrick == NullBrick && canHold
      ensures score.score == 0 && score.highScore == old(score.highScore) && score.saved == old(score.saved)
      ensures brickRotator.brick == Some(old(brickGenerator.nextBricks[0])) && brickRotator.currentShape == 0
      ensures brickGenerator.drawn == old(brickGenerator.drawn) + [brickRotator.brick.value]
      ensures currentOffset == Some(SpawnPoint)
    {
      currentGameMatrix := Zeros(width, height);
      score.Reset();
      heldBrick := NullBrick;
      canHold := true;
      var _ := CreateNewBrick();
    }
  }

  /** On the game's empty 25 x 10 grid a freshly spawned piece never collides. */
  lemma FreshGridSpawnFits(c: Catalog, t: BrickType)
    requires ValidCatalog(c)
    ensures !Intersects(Zeros(25, 10), ShapeMatrix(c, Tetromino(t))[0], SpawnPoint.x, SpawnPoint.y)
  {
    SpawnFitsOnEmptyGrid(25, 10, ShapeMatrix(c, Tetromino(t))[0]);
  }
}
