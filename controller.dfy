/**
 * The game controller: turns input events into board, score and level
 * updates in a fixed order. The view is outside the model; every call the
 * controller makes on it, and every scoring or level step, is recorded in a
 * ghost log so the order can be stated. The value the high score file holds
 * at a save is a parameter of the handler that may save.
 */
module Controller {
  import opened Wrappers
  import opened MatrixOperations
  import opened Pieces
  import opened Generator
  import opened Scoring
  import opened Levels
  import opened Board

  /** Who asked for a down move: the player, or the drop timer. */
  datatype EventSource = User | Thread

  /** One step of a handler, as the log records it. */
  datatype Step =
    | BrickMerged
    | RowsCleared(clearRow: ClearRow)
    | PointsAdded(points: int)
    | LinesAdded(lines: int)
    | GameSpeedSet(ms: int)
    | BrickCreated(gameOver: bool)
    | HighScoreSaveChecked(saved: bool)
    | GameOverShown
    | BackgroundRefreshed(grid: Grid)
    | NewGameStarted
    | HighScoreReloaded
    | LevelsReset
    | GameViewInitialised(grid: Grid, view: GameStateView)

  /** What a down or instant-drop handler returns: the row removal, if a piece locked, and the view. */
  datatype MoveResultData = MoveResultData(clearRow: Option<ClearRow>, view: GameStateView)

  /** Points for a player's down move, and per row of a hard drop. */
  const SoftDropPoints: int := 1
  const HardDropPoints: int := 5

  /** The steps when a piece locks: the merge, then the row removal. */
  function LockSteps(cr: ClearRow): seq<Step>
  {
    [BrickMerged, RowsCleared(cr)]
  }

  /** The reward for a removal: only when rows were removed, the bonus, the lines and the new speed, in that order. */
  function RewardSteps(cr: ClearRow, ms: int): seq<Step>
  {
    if cr.linesRemoved > 0 then [PointsAdded(cr.scoreBonus), LinesAdded(cr.linesRemoved), GameSpeedSet(ms)]
    else []
  }

  /**
   * The steps from the spawn on: the spawn, then, only on game over, the
   * high score save check and the game-over panel, then the refresh.
   */
  function SpawnSteps(gameOver: bool, saved: bool, grid: Grid): seq<Step>
  {
    if gameOver then [BrickCreated(true), HighScoreSaveChecked(saved), GameOverShown, BackgroundRefreshed(grid)]
    else [BrickCreated(false), BackgroundRefreshed(grid)]
  }

  lemma AppendTwo(log: seq<Step>, x: Step, y: Step)
    ensures log + [x] + [y] == log + [x, y]
  {
  }

  lemma AppendThree(log: seq<Step>, x: Step, y: Step, z: Step)
    ensures log + [x] + [y] + [z] == log + [x, y, z]
  {
  }

  /**
   * In a lock's steps the speed is set only when rows were removed, then
   * exactly once, after the bonus and the lines and before the spawn; the
   * game-over panel appears only on game over, after the save check.
   */
  lemma LockOrder(cr: ClearRow, ms: int, gameOver: bool, saved: bool, grid: Grid)
    ensures var all := LockSteps(cr) + RewardSteps(cr, ms) + SpawnSteps(gameOver, saved, grid);
      (GameSpeedSet(ms) in all <==> cr.linesRemoved > 0) &&
      (cr.linesRemoved > 0 ==> all[2] == PointsAdded(cr.scoreBonus) && all[3] == LinesAdded(cr.linesRemoved) &&
                               all[4] == GameSpeedSet(ms) && all[5] == BrickCreated(gameOver)) &&
      (GameOverShown in all <==> gameOver) &&
      all[0] == BrickMerged && all[1] == RowsCleared(cr) && all[|all| - 1] == BackgroundRefreshed(grid)
  {
    var all := LockSteps(cr) + RewardSteps(cr, ms) + SpawnSteps(gameOver, saved, grid);
    if cr.linesRemoved == 0 {
      assert forall k :: 0 <= k < |all| ==> !all[k].GameSpeedSet?;
    } else {
      assert all[4] == GameSpeedSet(ms);
    }
    if gameOver {
      assert all[|all| - 2] == GameOverShown;
    } else {
      assert forall k :: 0 <= k < |all| ==> !all[k].GameOverShown?;
    }
  }

  class GameController {
    const board: GameBoard
    const levelManager: LevelManager
    /** Every view call and scoring or level step, in order. */
    ghost var log: seq<Step>

    /** A 25 x 10 board with a piece in play, and a consistent level manager. */
    ghost predicate Valid()
      reads board, board.brickGenerator, board.brickRotator, levelManager
    {
      board.Valid() && board.Spawned() && board.width == 25 && board.height == 10 &&
      levelManager.Valid()
    }

    /**
     * A 25 x 10 board with its first piece, level 1, the view initialised
     * with the board and the view data, and the level-1 speed set.
     */
    constructor(catalog: Catalog, loadedHighScore: int)
      requires ValidCatalog(catalog)
      ensures Valid()
      ensures board.currentGameMatrix == Zeros(25, 10) && board.currentOffset == Some(SpawnPoint)
      ensures board.brickGenerator.drawn == [board.brickRotator.brick.value]
      ensures board.score.score == 0 && board.score.highScore == loadedHighScore
      ensures levelManager.currentLevel == 1 && levelManager.totalLinesCleared == 0
      ensures log == [GameViewInitialised(Zeros(25, 10), board.ViewData()), GameSpeedSet(500)]
    {
      board := new GameBoard(25, 10, catalog, loadedHighScore);
      levelManager := new LevelManager();
      log := [];
      new;
      Start();
    }

    /** The first spawn, the view's initialisation with the grid and the view data, then the speed. */
    method Start()
      requires board.Valid() && board.width == 25 && board.height == 10 && levelManager.Valid()
      modifies this, board, board.brickGenerator, board.brickRotator
      ensures Valid()
      ensures board.currentGameMatrix == old(board.currentGameMatrix) && board.currentOffset == Some(SpawnPoint)
      ensures board.brickGenerator.drawn == old(board.brickGenerator.drawn) + [board.brickRotator.brick.value]
      ensures log == old(log) + [GameViewInitialised(board.currentGameMatrix, board.ViewData())] +
        [GameSpeedSet(SpeedFor(levelManager.currentLevel))]
    {
      var _ := board.CreateNewBrick();
      var m := board.GetBoardMatrix();
      var v := board.ViewData();
      log := log + [GameViewInitialised(m, v)];
      UpdateGameSpeed();
    }

    /** Sets the view's drop interval to the current level's speed. */
    method UpdateGameSpeed()
      requires levelManager.Valid()
      modifies this
      ensures log == old(log) + [GameSpeedSet(SpeedFor(levelManager.currentLevel))]
    {
      var newSpeed := levelManager.GetCurrentSpeed();
      log := log + [GameSpeedSet(newSpeed)];
    }

    /** Merges the piece into the background and removes the full rows. */
    method LockPiece() returns (cr: ClearRow)
      requires Valid()
      modifies this, board
      ensures Valid()
      ensures cr == ClearFullRows(Merged(old(board.currentGameMatrix), old(board.CurrentShape()),
                                         old(board.Offset()).x, old(board.Offset()).y))
      ensures board.currentGameMatrix == cr.newMatrix
      ensures board.currentOffset == old(board.currentOffset) && board.heldBrick == old(board.heldBrick)
      ensures board.canHold == old(board.canHold)
      ensures log == old(log) + LockSteps(cr)
    {
      board.MergeBrickToBackground();
      log := log + [BrickMerged];
      cr := board.ClearRows();
      log := log + [RowsCleared(cr)];
      AppendTwo(old(log), BrickMerged, RowsCleared(cr));
    }

    /** Only when rows were removed: adds the bonus, counts the lines and updates the speed. */
    method RewardClear(cr: ClearRow)
      requires levelManager.Valid()
      modifies this, board.score, levelManager
      ensures levelManager.Valid()
      ensures board.score.score == old(board.score.score) + (if cr.linesRemoved > 0 then cr.scoreBonus else 0)
      ensures board.score.highScore >= old(board.score.highScore) && board.score.saved == old(board.score.saved)
      ensures levelManager.totalLinesCleared == old(levelManager.totalLinesCleared) + cr.linesRemoved
      ensures cr.linesRemoved == 0 ==> levelManager.currentLevel == old(levelManager.currentLevel)
      ensures log == old(log) + RewardSteps(cr, SpeedFor(levelManager.currentLevel))
    {
      if cr.linesRemoved > 0 {
        var o := board.score.Add(cr.scoreBonus);
        log := log + [PointsAdded(cr.scoreBonus)];
        levelManager.AddLinesCleared(cr.linesRemoved);
        log := log + [LinesAdded(cr.linesRemoved)];
        UpdateGameSpeed();
        AppendThree(old(log), PointsAdded(cr.scoreBonus), LinesAdded(cr.linesRemoved), GameSpeedSet(SpeedFor(levelManager.currentLevel)));
      }
    }

    /**
     * Spawns the next piece; on game over checks the high score against the
     * value on file and shows the game-over panel; then refreshes the background.
     */
    method SpawnAfterLock(storedHighScore: int) returns (gameOver: bool)
      requires board.Valid() && board.width == 25 && board.height == 10 && levelManager.Valid()
      modifies this, board, board.brickGenerator, board.brickRotator, board.score
      ensures Valid()
      ensures board.brickRotator.brick == Some(old(board.brickGenerator.nextBricks[0]))
      ensures board.brickRotator.currentShape == 0
      ensures board.brickGenerator.drawn == old(board.brickGenerator.drawn) + [board.brickRotator.brick.value]
      ensures board.currentOffset == Some(SpawnPoint) && board.canHold
      ensures board.currentGameMatrix == old(board.currentGameMatrix) && board.heldBrick == old(board.heldBrick)
      ensures gameOver == Intersects(board.currentGameMatrix, board.CurrentShape(), SpawnPoint.x, SpawnPoint.y)
      ensures board.score.score == old(board.score.score) && board.score.highScore == old(board.score.highScore)
      ensures board.score.saved == old(board.score.saved) +
        (if gameOver && board.score.score > storedHighScore then [board.score.score] else [])
      ensures log == old(log) + SpawnSteps(gameOver, board.score.score > storedHighScore, board.currentGameMatrix)
    {
      gameOver := board.CreateNewBrick();
      var m := board.currentGameMatrix;
      if gameOver {
        var didSave := board.score.SaveIfHighScore(storedHighScore);
        m := board.GetBoardMatrix();
        log := log + [BrickCreated(true), HighScoreSaveChecked(didSave), GameOverShown, BackgroundRefreshed(m)];
      } else {
        m := board.GetBoardMatrix();
        log := log + [BrickCreated(false), BackgroundRefreshed(m)];
      }
    }

    /**
     * Locks the piece where it is: merge and row removal, the reward, the
     * spawn with its game-over handling and the refresh, in that order.
     */
    method LockAndSpawn(storedHighScore: int) returns (cr: ClearRow)
      requires Valid()
      modifies this, board, board.brickGenerator, board.brickRotator, board.score, levelManager
      ensures Valid()
      ensures cr == ClearFullRows(Merged(old(board.currentGameMatrix), old(board.CurrentShape()),
                                         old(board.Offset()).x, old(board.Offset()).y))
      ensures board.currentGameMatrix == cr.newMatrix
      ensures board.brickRotator.brick == Some(old(board.brickGenerator.nextBricks[0])) && board.brickRotator.currentShape == 0
      ensures board.brickGenerator.drawn == old(board.brickGenerator.drawn) + [board.brickRotator.brick.value]
      ensures board.currentOffset == Some(SpawnPoint) && board.canHold && board.heldBrick == old(board.heldBrick)
      ensures board.score.score == old(board.score.score) + (if cr.linesRemoved > 0 then cr.scoreBonus else 0)
      ensures board.score.highScore >= old(board.score.highScore)
      ensures levelManager.totalLinesCleared == old(levelManager.totalLinesCleared) + cr.linesRemoved
      ensures log == old(log) + LockSteps(cr) + RewardSteps(cr, SpeedFor(levelManager.currentLevel)) +
        SpawnSteps(Intersects(board.currentGameMatrix, board.CurrentShape(), SpawnPoint.x, SpawnPoint.y),
                   board.score.score > storedHighScore, board.currentGameMatrix)
    {
      cr := LockPiece();
      RewardClear(cr);
      var _ := SpawnAfterLock(storedHighScore);
    }

    /** A player's down move scores one point, logged; a timer tick scores nothing. */
    method AwardSoftDrop(source: EventSource)
      requires Valid()
      modifies this, board.score
      ensures Valid()
      ensures board.score.score == old(board.score.score) + (if source == User then SoftDropPoints else 0)
      ensures board.score.highScore >= old(board.score.highScore)
      ensures log == old(log) + (if source == User then [PointsAdded(SoftDropPoints)] else [])
    {
      if source == User {
        var o := board.score.Add(SoftDropPoints);
        log := log + [PointsAdded(SoftDropPoints)];
      }
    }

    /**
     * A down move. When the piece moves, a player's move scores one point
     * and a timer tick scores nothing, and no row is removed. When it cannot
     * move, the piece locks: merge, clear, reward, spawn, game-over handling
     * and refresh, in that order, and the removal result is returned.
     */
    method OnDownEvent(source: EventSource, storedHighScore: int) returns (r: MoveResultData)
      requires Valid()
      modifies this, board, board.brickGenerator, board.brickRotator, board.score, levelManager
      ensures Valid()
      ensures r.view == board.ViewData()
      ensures r.clearRow.None? <==> old(Fits(board.currentGameMatrix, board.CurrentShape(), Translate(board.Offset(), Point(0, 1))))
      ensures r.clearRow.None? ==>
        board.currentOffset == Some(Translate(old(board.Offset()), Point(0, 1))) &&
        board.currentGameMatrix == old(board.currentGameMatrix) &&
        board.brickRotator.brick == old(board.brickRotator.brick) &&
        board.brickRotator.currentShape == old(board.brickRotator.currentShape) &&
        board.canHold == old(board.canHold) &&
        board.brickGenerator.drawn == old(board.brickGenerator.drawn) &&
        board.score.score == old(board.score.score) + (if source == User then SoftDropPoints else 0) &&
        levelManager.totalLinesCleared == old(levelManager.totalLinesCleared) &&
        log == old(log) + (if source == User then [PointsAdded(SoftDropPoints)] else [])
      ensures r.clearRow.Some? ==>
        var cr := r.clearRow.value;
        cr == ClearFullRows(Merged(old(board.currentGameMatrix), old(board.CurrentShape()),
                                   old(board.Offset()).x, old(board.Offset()).y)) &&
        board.currentGameMatrix == cr.newMatrix &&
        board.brickRotator.brick == Some(old(board.brickGenerator.nextBricks[0])) && board.brickRotator.currentShape == 0 &&
        board.brickGenerator.drawn == old(board.brickGenerator.drawn) + [board.brickRotator.brick.value] &&
        board.currentOffset == Some(SpawnPoint) && board.canHold &&
        board.score.score == old(board.score.score) + (if cr.linesRemoved > 0 then cr.scoreBonus else 0) &&
        levelManager.totalLinesCleared == old(levelManager.totalLinesCleared) + cr.linesRemoved &&
        log == old(log) + LockSteps(cr) + RewardSteps(cr, SpeedFor(levelManager.currentLevel)) +
          SpawnSteps(Intersects(board.currentGameMatrix, board.CurrentShape(), SpawnPoint.x, SpawnPoint.y),
                     board.score.score > storedHighScore, board.currentGameMatrix)
      ensures board.heldBrick == old(board.heldBrick)
      ensures board.score.highScore >= old(board.score.highScore)
    {
      ghost var p := board.Offset();
      ghost var below := Point(p.x, p.y + 1);
      assert Translate(p, Point(0, 1)) == below;
      var canMove := board.MoveBrickDown();
      assert canMove == old(Fits(board.currentGameMatrix, board.CurrentShape(), below));
      if !canMove {
        var cr := LockAndSpawn(storedHighScore);
        r := MoveResultData(Some(cr), board.ViewData());
      } else {
        AwardSoftDrop(source);
        r := MoveResultData(None, board.ViewData());
      }
    }

    /**
     * Moves the piece down while it fits and returns the number of rows it
     * moved: the drop distance of the piece from where it started.
     */
    method DropWhileFits() returns (dropDistance: nat)
      requires Valid()
      modifies board
      ensures Valid()
      ensures HasBlock(board.CurrentShape())
      ensures dropDistance == DropDistance(board.currentGameMatrix, board.CurrentShape(), old(board.Offset()).x, old(board.Offset()).y)
      ensures board.currentOffset == Some(Translate(old(board.Offset()), Point(0, dropDistance)))
      ensures board.currentGameMatrix == old(board.currentGameMatrix) && board.CurrentShape() == old(board.CurrentShape())
      ensures board.heldBrick == old(board.heldBrick) && board.canHold == old(board.canHold)
    {
      board.CurrentShapeHasBlock();
      ghost var g := board.currentGameMatrix;
      ghost var shape := board.CurrentShape();
      ghost var p := board.Offset();
      dropDistance := 0;
      ghost var y := p.y;
      while true
        invariant Valid()
        invariant board.currentGameMatrix == g && board.CurrentShape() == shape
        invariant board.heldBrick == old(board.heldBrick) && board.canHold == old(board.canHold)
        invariant board.currentOffset == Some(Point(p.x, y)) && y == p.y + dropDistance
        invariant DropDistance(g, shape, p.x, p.y) == dropDistance + DropDistance(g, shape, p.x, y)
        decreases DropDistance(g, shape, p.x, y)
      {
        var moved := StepDown(g, shape, p.x, y);
        if !moved {
          break;
        }
        y := y + 1;
        dropDistance := dropDistance + 1;
      }
      assert Translate(p, Point(0, dropDistance)) == Point(p.x, y);
    }

    /** One row down when the piece fits there: the drop distance from the old row is one more than from the new one. */
    method StepDown(ghost g: Grid, ghost shape: Grid, ghost x: int, ghost y: int) returns (moved: bool)
      requires Valid() && HasBlock(shape)
      requires board.currentGameMatrix == g && board.CurrentShape() == shape && board.currentOffset == Some(Point(x, y))
      modifies board
      ensures Valid()
      ensures board.currentGameMatrix == g && board.CurrentShape() == shape
      ensures board.heldBrick == old(board.heldBrick) && board.canHold == old(board.canHold)
      ensures moved ==> board.currentOffset == Some(Point(x, y + 1)) && DropDistance(g, shape, x, y) == 1 + DropDistance(g, shape, x, y + 1)
      ensures !moved ==> board.currentOffset == Some(Point(x, y)) && DropDistance(g, shape, x, y) == 0
    {
      ghost var below := Point(x, y + 1);
      assert Translate(board.Offset(), Point(0, 1)) == below;
      moved := board.MoveBrickDown();
      assert moved == Fits(g, shape, below);
    }

    /** A hard drop scores five points per row dropped, logged even when it is none. */
    method AwardHardDrop(dropDistance: nat)
      requires Valid()
      modifies this, board.score
      ensures Valid()
      ensures board.score.score == old(board.score.score) + HardDropPoints * dropDistance
      ensures board.score.highScore >= old(board.score.highScore)
      ensures log == old(log) + [PointsAdded(HardDropPoints * dropDistance)]
    {
      var o := board.score.Add(dropDistance * HardDropPoints);
      log := log + [PointsAdded(dropDistance * HardDropPoints)];
    }

    /** Drops the piece as far as it goes, then merges it and removes the full rows. */
    method DropAndLock() returns (dropDistance: nat, cr: ClearRow)
      requires Valid()
      modifies this, board
      ensures Valid()
      ensures old(HasBlock(board.CurrentShape()))
      ensures dropDistance == old(DropDistance(board.currentGameMatrix, board.CurrentShape(), board.Offset().x, board.Offset().y))
      ensures cr == ClearFullRows(Merged(old(board.currentGameMatrix), old(board.CurrentShape()), old(board.Offset()).x,
                                         old(board.Offset()).y + old(DropDistance(board.currentGameMatrix, board.CurrentShape(), board.Offset().x, board.Offset().y))))
      ensures board.currentGameMatrix == cr.newMatrix
      ensures board.currentOffset == Some(Translate(old(board.Offset()), Point(0, dropDistance)))
      ensures board.brickRotator.brick == old(board.brickRotator.brick) && board.brickRotator.currentShape == old(board.brickRotator.currentShape)
      ensures board.heldBrick == old(board.heldBrick) && board.canHold == old(board.canHold)
      ensures log == old(log) + LockSteps(cr)
    {
      dropDistance := DropWhileFits();
      cr := LockPiece();
    }

    /**
     * After a hard drop's lock: the removal bonus, the drop points, then the
     * spawn with its game-over handling and the refresh.
     */
    method RewardAndSpawn(cr: ClearRow, dropDistance: nat, storedHighScore: int)
      requires Valid()
      modifies this, board, board.brickGenerator, board.brickRotator, board.score, levelManager
      ensures Valid()
      ensures board.brickRotator.brick == Some(old(board.brickGenerator.nextBricks[0])) && board.brickRotator.currentShape == 0
      ensures board.brickGenerator.drawn == old(board.brickGenerator.drawn) + [board.brickRotator.brick.value]
      ensures board.currentOffset == Some(SpawnPoint) && board.currentGameMatrix == old(board.currentGameMatrix)
      ensures board.canHold && board.heldBrick == old(board.heldBrick)
      ensures board.score.score == old(board.score.score) + (if cr.linesRemoved > 0 then cr.scoreBonus else 0) + HardDropPoints * dropDistance
      ensures board.score.highScore >= old(board.score.highScore)
      ensures levelManager.totalLinesCleared == old(levelManager.totalLinesCleared) + cr.linesRemoved
      ensures log == old(log) + RewardSteps(cr, SpeedFor(levelManager.currentLevel)) + [PointsAdded(HardDropPoints * dropDistance)] +
        SpawnSteps(Intersects(board.currentGameMatrix, board.CurrentShape(), SpawnPoint.x, SpawnPoint.y),
                   board.score.score > storedHighScore, board.currentGameMatrix)
    {
      RewardClear(cr);
      AwardHardDrop(dropDistance);
      var _ := SpawnAfterLock(storedHighScore);
    }

    /**
     * A hard drop: moves the piece down while it fits, then locks it, adds
     * the bonus for removed rows and five points per row dropped, spawns,
     * handles game over and refreshes.
     */
    method OnInstantDropEvent(storedHighScore: int) returns (r: MoveResultData)
      requires Valid()
      modifies this, board, board.brickGenerator, board.brickRotator, board.score, levelManager
      ensures Valid()
      ensures r.view == board.ViewData() && r.clearRow.Some?
      ensures old(HasBlock(board.CurrentShape()))
      ensures var d := old(DropDistance(board.currentGameMatrix, board.CurrentShape(), board.Offset().x, board.Offset().y));
        var cr := r.clearRow.value;
        cr == ClearFullRows(Merged(old(board.currentGameMatrix), old(board.CurrentShape()),
                                   old(board.Offset()).x, old(board.Offset()).y + d)) &&
        board.currentGameMatrix == cr.newMatrix &&
        board.brickRotator.brick == Some(old(board.brickGenerator.nextBricks[0])) && board.brickRotator.currentShape == 0 &&
        board.brickGenerator.drawn == old(board.brickGenerator.drawn) + [board.brickRotator.brick.value] &&
        board.currentOffset == Some(SpawnPoint) && board.canHold && board.heldBrick == old(board.heldBrick) &&
        board.score.score == old(board.score.score) + (if cr.linesRemoved > 0 then cr.scoreBonus else 0) + HardDropPoints * d &&
        levelManager.totalLinesCleared == old(levelManager.totalLinesCleared) + cr.linesRemoved &&
        log == old(log) + LockSteps(cr) + RewardSteps(cr, SpeedFor(levelManager.currentLevel)) + [PointsAdded(HardDropPoints * d)] +
          SpawnSteps(Intersects(board.currentGameMatrix, board.CurrentShape(), SpawnPoint.x, SpawnPoint.y),
                     board.score.score > storedHighScore, board.currentGameMatrix)
      ensures board.score.highScore >= old(board.score.highScore)
    {
      var dropDistance, cr := DropAndLock();
      RewardAndSpawn(cr, dropDistance, storedHighScore);
      r := MoveResultData(Some(cr), board.ViewData());
    }

    /** One column left when the piece fits there; the score, the level and the log are untouched. */
    method OnLeftEvent() returns (v: GameStateView)
      requires Valid()
      modifies board
      ensures Valid() && v == board.ViewData()
      ensures board.currentOffset ==
        if old(Fits(board.currentGameMatrix, board.CurrentShape(), Translate(board.Offset(), Point(-1, 0))))
        then Some(Translate(old(board.Offset()), Point(-1, 0))) else old(board.currentOffset)
      ensures board.currentGameMatrix == old(board.currentGameMatrix)
      ensures board.brickRotator.brick == old(board.brickRotator.brick) && board.brickRotator.currentShape == old(board.brickRotator.currentShape)
      ensures board.heldBrick == old(board.heldBrick) && board.canHold == old(board.canHold)
    {
      var _ := board.MoveBrickLeft();
      v := board.ViewData();
    }

    /** One column right when the piece fits there; the score, the level and the log are untouched. */
    method OnRightEvent() returns (v: GameStateView)
      requires Valid()
      modifies board
      ensures Valid() && v == board.ViewData()
      ensures board.currentOffset ==
        if old(Fits(board.currentGameMatrix, board.CurrentShape(), Translate(board.Offset(), Point(1, 0))))
        then Some(Translate(old(board.Offset()), Point(1, 0))) else old(board.currentOffset)
      ensures board.currentGameMatrix == old(board.currentGameMatrix)
      ensures board.brickRotator.brick == old(board.brickRotator.brick) && board.brickRotator.currentShape == old(board.brickRotator.currentShape)
      ensures board.heldBrick == old(board.heldBrick) && board.canHold == old(board.canHold)
    {
      var _ := board.MoveBrickRight();
      v := board.ViewData();
    }

    /** A rotation with wall kicks; the score, the level and the log are untouched. */
    method OnRotateEvent() returns (v: GameStateView)
      requires Valid()
      modifies board, board.brickRotator
      ensures Valid() && v == board.ViewData()
      ensures board.currentOffset == if old(board.RotationTarget()).Some? then old(board.RotationTarget()) else old(board.currentOffset)
      ensures board.brickRotator.currentShape ==
        if old(board.RotationTarget()).Some? then old(board.NextRotation()) else old(board.brickRotator.currentShape)
      ensures board.brickRotator.brick == old(board.brickRotator.brick)
      ensures board.currentGameMatrix == old(board.currentGameMatrix)
      ensures board.heldBrick == old(board.heldBrick) && board.canHold == old(board.canHold)
    {
      var _ := board.RotateLeftBrick();
      v := board.ViewData();
    }

    /** A hold, then a refresh; the score and the level are untouched. */
    method OnHoldEvent() returns (v: GameStateView)
      requires Valid()
      modifies this, board, board.brickGenerator, board.brickRotator
      ensures Valid() && v == board.ViewData()
      ensures old(board.canHold) ==>
        board.heldBrick == old(board.brickRotator.brick.value) && board.currentOffset == Some(SpawnPoint) &&
        board.brickRotator.currentShape == 0
      ensures old(board.canHold) && old(board.heldBrick) != NullBrick ==>
        board.brickRotator.brick == Some(old(board.heldBrick)) && board.brickGenerator.drawn == old(board.brickGenerator.drawn)
      ensures old(board.canHold) && old(board.heldBrick) == NullBrick ==>
        board.brickRotator.brick == Some(old(board.brickGenerator.nextBricks[0])) &&
        board.brickGenerator.drawn == old(board.brickGenerator.drawn) + [board.brickRotator.brick.value]
      ensures !old(board.canHold) ==>
        board.heldBrick == old(board.heldBrick) && board.currentOffset == old(board.currentOffset) &&
        board.brickRotator.brick == old(board.brickRotator.brick) && board.brickRotator.currentShape == old(board.brickRotator.currentShape) &&
        board.brickGenerator.drawn == old(board.brickGenerator.drawn)
      ensures !board.canHold && board.currentGameMatrix == old(board.currentGameMatrix)
      ensures log == old(log) + [BackgroundRefreshed(board.currentGameMatrix)]
    {
      var _ := board.HoldBrick();
      var m := board.GetBoardMatrix();
      log := log + [BackgroundRefreshed(m)];
      v := board.ViewData();
    }

    /**
     * A new game: the board's new game, the high score reload (which installs
     * the value read from the file), the level reset, the level-1 speed and a
     * refresh of the empty grid, in that order.
     */
    method CreateNewGame(reloadedHighScore: int)
      requires Valid()
      modifies this, board, board.brickGenerator, board.brickRotator, board.score, levelManager
      ensures Valid()
      ensures board.currentGameMatrix == Zeros(25, 10) && board.heldBrick == NullBrick && board.canHold
      ensures board.currentOffset == Some(SpawnPoint)
      ensures board.brickRotator.brick == Some(old(board.brickGenerator.nextBricks[0])) && board.brickRotator.currentShape == 0
      ensures board.brickGenerator.drawn == old(board.brickGenerator.drawn) + [board.brickRotator.brick.value]
      ensures board.score.score == 0 && board.score.highScore == reloadedHighScore
      ensures levelManager.currentLevel == 1 && levelManager.totalLinesCleared == 0 && levelManager.linesToNextLevel == 4
      ensures log == old(log) + [NewGameStarted, HighScoreReloaded, LevelsReset, GameSpeedSet(500), BackgroundRefreshed(Zeros(25, 10))]
    {
      board.NewGame();
      board.score.ReloadHighScore(reloadedHighScore);
      log := log + [NewGameStarted, HighScoreReloaded];
      levelManager.Reset();
      log := log + [LevelsReset];
      UpdateGameSpeed();
      var m := board.GetBoardMatrix();
      log := log + [BackgroundRefreshed(m)];
    }
  }
}
