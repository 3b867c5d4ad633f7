# Tetris rules engine, modelled in Dafny

This project models the rules engine of a JavaFX Tetris game. It covers:

- the grid algebra: collision, copy, merge, and full-row removal with the line bonus;
- the seven tetrominoes, the empty piece, and the piece factory;
- the rotation cursor;
- the 7-bag piece generator;
- the score and the high score;
- level progression and the drop speed table;
- the three game states and the state manager that gates moves and pause;
- the board: moves, rotation with wall kicks, spawning, the ghost (landing) position, merging, row clearing, hold, and a new game;
- the controller that orders board, score, level and view steps for each input event.

Pure code is modelled as datatypes, functions and lemmas. This covers the grid helpers, the piece catalog, the level formulas and the game states. Objects whose fields change become classes with `modifies` and `reads` frames:

- `Score`
- `LevelManager`
- `BrickRotator`
- `RandomBrickGenerator`
- `GameBoard`
- `GameStateManager`
- `GameController`

The loops of the game are methods with loop invariants, each proved against a specification function:

- `Intersect` against `Intersects`;
- `Merge` against `Merged`;
- `CheckRemoving` against `ClearFullRows`;
- `CheckLevelUp` against `LevelFor`;
- `CalculateGhostPosition` against `LandingRow`;
- the hard-drop loop against `DropDistance`;
- the wall-kick loop against `FirstFitPoint`.

Grids are values (`seq<seq<int>>`), indexed `[row][column]`, with 0 meaning an empty cell. As in the game, the board's `width` is its number of rows (25) and its `height` is its number of columns (10). Offsets are `(column, row)`, with rows counted downwards. A Java `null` is modelled as `Option.None`, and an `IllegalArgumentException` as `Outcome.IllegalArgument`.

Parts of the game that lie outside the rules engine are recorded, not modelled:

- the view, the drop timer, audio and the high score file;
- the board calls the controller makes on the view (initialise, gameOver, refreshGameBackground, updateGameSpeed), together with every scoring and level step.

These are written to ghost logs (`GameController.log`, `GameStateManager.effects`, `Score.saved`). The contracts state the exact sequence of entries each handler appends. The one re-entrant call, the new-game callback inside `GameStateManager.startNewGame`, is described by a parameter (see "## Left out"). The value held in the high score file is a parameter of each operation that reads it.

Two behaviours of the code are modelled as written:

- **The I-piece test.** `isIBrick` in `model/GameBoard.java` decides whether the current state has exactly four blocks. Every tetromino state has exactly four blocks: proved for I, S and T from their matrices, and assumed for J, L, O and Z (see "## Left out"). So the test always holds, and every piece uses the extended 17-kick list. `GameBoard.IsIBrick` proves `b` is always true.
- **The ghost after a hold.** A hold places the next piece at the spawn point without a collision check. From such an overlapping offset, the ghost stays at the offset, while a hard drop may still move the piece. `GameBoard.HardDropLandsOnGhost` therefore requires the current offset to fit.

Source paths below are relative to the repository root. The model follows the `src/` tree. Classes present only in the `CW2025-master/` tree (`Score`, `BrickFactory`, `IBrick`, `SBrick`, `TBrick`) are cited from there.

## Model

| member | source | states |
|---|---|---|
| MatrixOperations.Zeros | src/main/java/com/comp2042/tetris/model/GameBoard.java:39-46 | The freshly allocated grid has the requested rows, every row has the requested columns, and every cell is 0. |
| MatrixOperations.Intersect | src/main/java/com/comp2042/tetris/util/MatrixOperations.java:24-37 | True exactly when some non-zero brick cell (i, j) lands at (x + j, y + i) outside the grid or on a filled cell; the row-by-row early-exit scan is proved equal to that existential. |
| MatrixOperations.EmptyBrickNeverIntersects | src/main/java/com/comp2042/tetris/util/MatrixOperations.java:24-37 | A brick without blocks, such as the empty piece, collides nowhere. |
| MatrixOperations.IntersectsEmptyGrid | src/main/java/com/comp2042/tetris/util/MatrixOperations.java:24-53 | On an all-zero grid a collision happens if and only if some block is out of bounds. |
| MatrixOperations.FitBoundsRow | src/main/java/com/comp2042/tetris/util/MatrixOperations.java:47-53 | If a brick fits, each of its blocks lands inside the grid, on an empty cell. |
| MatrixOperations.Copy | src/main/java/com/comp2042/tetris/util/MatrixOperations.java:61-70 | The row-by-row copy equals the original. |
| MatrixOperations.DeepCopyList | src/main/java/com/comp2042/tetris/util/MatrixOperations.java:157-159 | The copied list of matrices equals the original, element by element and in order. |
| MatrixOperations.Merged | src/main/java/com/comp2042/tetris/util/MatrixOperations.java:82-96 | The merged grid keeps the grid's dimensions, and keeps it rectangular when it was. |
| MatrixOperations.Merge | src/main/java/com/comp2042/tetris/util/MatrixOperations.java:82-96 | The cell-by-cell merge produces exactly `Merged`: cells under a non-zero brick cell take the brick's value, every other cell keeps its value, and out-of-bounds brick cells are dropped. |
| MatrixOperations.MergeWritesBrick | src/main/java/com/comp2042/tetris/util/MatrixOperations.java:82-96 | When the brick fits, each of its blocks is written in bounds, at its own position, with its own value. |
| MatrixOperations.MergeKeepsFilledCells | src/main/java/com/comp2042/tetris/util/MatrixOperations.java:82-96 | When the brick fits, no filled cell of the grid changes. |
| MatrixOperations.MergedBrickCollides | src/main/java/com/comp2042/tetris/util/MatrixOperations.java:82-96 | After a fitting brick with a block is merged, the same placement collides. |
| MatrixOperations.CountNonZeroHasBlock | src/main/java/com/comp2042/tetris/model/GameBoard.java:170-184 | A grid whose count of non-zero cells is positive has a block. |
| MatrixOperations.Kept | src/main/java/com/comp2042/tetris/util/MatrixOperations.java:111-125 | The kept rows number the rows minus the full rows, and none of them is full. |
| MatrixOperations.ScanRow | src/main/java/com/comp2042/tetris/util/MatrixOperations.java:112-119 | The row's copy equals the row, and the flag is set exactly when no cell is 0. |
| MatrixOperations.Rebuild | src/main/java/com/comp2042/tetris/util/MatrixOperations.java:127-135 | Popping kept rows from the back into a zero grid from the last row up gives zero rows on top of the kept rows, in their original order. |
| MatrixOperations.CheckRemoving | src/main/java/com/comp2042/tetris/util/MatrixOperations.java:105-149 | The split pass, the bottom-up rebuild and the bonus switch together compute `ClearFullRows`. |
| MatrixOperations.KeptConcat | src/main/java/com/comp2042/tetris/util/MatrixOperations.java:111-125 | The kept rows of a split grid are the kept rows of each part, in order. |
| MatrixOperations.KeptMembers | src/main/java/com/comp2042/tetris/util/MatrixOperations.java:111-125 | A row is kept if and only if it is a row of the grid and not full. |
| MatrixOperations.KeptNoFull | src/main/java/com/comp2042/tetris/util/MatrixOperations.java:111-125 | A grid without full rows keeps all of its rows. |
| MatrixOperations.KeptRect | src/main/java/com/comp2042/tetris/util/MatrixOperations.java:111-125 | The kept rows have the grid's width. |
| MatrixOperations.ClearCountsFullRows | src/main/java/com/comp2042/tetris/util/MatrixOperations.java:105-149 | The number of lines removed is the number of full rows, and the bonus is that count's bonus. |
| MatrixOperations.ClearShape | src/main/java/com/comp2042/tetris/util/MatrixOperations.java:127-135 | The new grid has the old dimensions. Its top `linesRemoved` rows are all zero, and below them lie the non-full rows in their original order. |
| MatrixOperations.ClearNoFullRows | src/main/java/com/comp2042/tetris/util/MatrixOperations.java:105-149 | With no full row, the grid comes back unchanged, with 0 lines and no bonus. |
| MatrixOperations.ZerosNotFull | src/main/java/com/comp2042/tetris/util/MatrixOperations.java:106-135 | Zero rows of positive width are never full. |
| MatrixOperations.CountFullConcat | src/main/java/com/comp2042/tetris/util/MatrixOperations.java:111-125 | The full-row count of a split grid is the sum over its parts. |
| MatrixOperations.KeptHasNoFull | src/main/java/com/comp2042/tetris/util/MatrixOperations.java:111-125 | The kept rows contain no full row. |
| MatrixOperations.ClearIdempotent | src/main/java/com/comp2042/tetris/util/MatrixOperations.java:105-149 | Clearing the cleared grid again removes nothing, pays nothing and returns the same grid. |
| MatrixOperations.BonusTable | src/main/java/com/comp2042/tetris/util/MatrixOperations.java:138-147 | 1, 2, 3 and 4 rows pay 100, 300, 500 and 800 points; any other count pays 0; the bonus grows strictly from 1 to 4 rows. |
| Pieces.ShapeMatrix | src/main/java/com/comp2042/tetris/model/piece/types/NullBrick.java:23-42 | Every tetromino has its type's rotation count of well-formed 4x4 states, each with exactly four blocks carrying the type's tag. The empty piece has one blank 4x4 state. |
| Pieces.CreateBrick | CW2025-master/src/main/java/com/comp2042/tetris/model/piece/BrickFactory.java:12-22 | The factory returns a real tetromino of the requested type. |
| Pieces.CreateAllBricks | CW2025-master/src/main/java/com/comp2042/tetris/model/piece/BrickFactory.java:25-29 | The list has seven pieces, created from the types in declaration order. |
| Pieces.AllBricksOneOfEach | CW2025-master/src/main/java/com/comp2042/tetris/model/piece/BrickFactory.java:25-29 | The list contains every type, never the empty piece, and no duplicates. |
| Pieces.AllTypesComplete | CW2025-master/src/main/java/com/comp2042/tetris/model/piece/BrickFactory.java:7-9 | There are exactly seven distinct types, and every type is among them. |
| Pieces.TagsDistinct | CW2025-master/src/test/java/com/comp2042/tetris/model/piece/BrickTest.java:218-228 | Colour tags lie in 1 to 7 and are equal exactly for equal types. |
| Pieces.IBrickFacts | CW2025-master/src/main/java/com/comp2042/tetris/model/piece/types/IBrick.java:14-25 | The I piece has two distinct well-formed states with tag 1: a row-1 bar and a column-1 bar. |
| Pieces.SBrickFacts | CW2025-master/src/main/java/com/comp2042/tetris/model/piece/types/SBrick.java:14-25 | The S piece has two distinct well-formed states with tag 5. |
| Pieces.TBrickFacts | CW2025-master/src/main/java/com/comp2042/tetris/model/piece/types/TBrick.java:14-37 | The T piece has four pairwise-distinct well-formed states with tag 6. |
| Pieces.NullBrickFacts | src/main/java/com/comp2042/tetris/model/piece/types/NullBrick.java:17-31 | The empty piece has one all-zero 4x4 state, with no block. |
| Pieces.TetrominoShapesHaveBlocks | CW2025-master/src/test/java/com/comp2042/tetris/model/piece/BrickTest.java:18-65 | Every rotation state of every tetromino has a block. |
| Pieces.ShapeBlocksInFrame | CW2025-master/src/test/java/com/comp2042/tetris/model/piece/BrickTest.java:18-65 | Every index of a well-formed shape lies within its 4x4 frame. |
| Rotation.CycleVisitsAll | src/main/java/com/comp2042/tetris/model/piece/BrickRotator.java:46-49 | Stepping the cursor from 0 visits 1, 2, ..., n - 1 in order, and the n-th step returns to 0. |
| Rotation.CyclePeriodic | src/main/java/com/comp2042/tetris/model/piece/BrickRotator.java:46-49 | After n more steps the cursor is back at the same index. |
| Rotation.PeekedIndexAccepted | src/main/java/com/comp2042/tetris/model/piece/BrickRotator.java:21-49 | The peeked index is always in range, so committing it is never refused; it is i + 1, or 0 after the last state. |
| Rotation.BrickRotator.constructor | src/main/java/com/comp2042/tetris/model/piece/BrickRotator.java:12-13 | No piece yet, and index 0. |
| Rotation.BrickRotator.GetCurrentShape | src/main/java/com/comp2042/tetris/model/piece/BrickRotator.java:16-18 | Returns the state at the current index: a 4x4 matrix, with a block for every tetromino. |
| Rotation.BrickRotator.SetCurrentShape | src/main/java/com/comp2042/tetris/model/piece/BrickRotator.java:21-29 | A negative index, or one past the piece's list, is refused with the game's message and changes nothing. Any other index is installed. Refusal happens exactly in those two cases. |
| Rotation.BrickRotator.SetBrick | src/main/java/com/comp2042/tetris/model/piece/BrickRotator.java:32-38 | A missing piece is refused and changes nothing; any piece is installed at index 0. |
| Rotation.BrickRotator.GetBrick | src/main/java/com/comp2042/tetris/model/piece/BrickRotator.java:41-43 | Returns the piece being steered. |
| Rotation.BrickRotator.PeekNextShape | src/main/java/com/comp2042/tetris/model/piece/BrickRotator.java:46-49 | Returns the following state, wrapping from the last to the first, with its in-range index. The cursor does not move. |
| Generator.AllBricksIsBag | src/main/java/com/comp2042/tetris/model/piece/RandomBrickGenerator.java:23-36 | The factory's list is one piece of each type. |
| Generator.BagLength | src/main/java/com/comp2042/tetris/model/piece/RandomBrickGenerator.java:58-65 | A bag has seven pieces. |
| Generator.BagCounts | src/main/java/com/comp2042/tetris/model/piece/RandomBrickGenerator.java:58-65 | A bag holds each type exactly once and never the empty piece. |
| Generator.ConcatPush | src/main/java/com/comp2042/tetris/model/piece/RandomBrickGenerator.java:58-65 | Appending a bag to the run of bags appends its pieces. |
| Generator.ConcatNoNull | src/main/java/com/comp2042/tetris/model/piece/RandomBrickGenerator.java:40-49 | A run of bags never holds the empty piece. |
| Generator.ConcatLength | src/main/java/com/comp2042/tetris/model/piece/RandomBrickGenerator.java:58-65 | n bags are 7n pieces long. |
| Generator.ConcatPrefix | src/main/java/com/comp2042/tetris/model/piece/RandomBrickGenerator.java:58-65 | The first n bags are the first 7n pieces. |
| Generator.ConcatBlock | src/test/java/com/comp2042/tetris/model/piece/BrickGeneratorTest.java:52-65 | Bag k is pieces 7k to 7k + 6 of the run. |
| Generator.ConcatCounts | src/test/java/com/comp2042/tetris/model/piece/BrickGeneratorTest.java:153-172 | n bags hold each type exactly n times, and no empty piece. |
| Generator.Fairness | src/test/java/com/comp2042/tetris/model/piece/BrickGeneratorTest.java:153-172 | The first 7n pieces of a run of bags hold each type exactly n times. |
| Generator.SevenHundredDraws | src/test/java/com/comp2042/tetris/model/piece/BrickGeneratorTest.java:153-172 | 700 pieces give exactly 100 of each type. |
| Generator.Shuffle | src/main/java/com/comp2042/tetris/model/piece/RandomBrickGenerator.java:58-65 | The shuffled list is a permutation of the input. |
| Generator.RandomBrickGenerator.constructor | src/main/java/com/comp2042/tetris/model/piece/RandomBrickGenerator.java:23-36 | Two shuffled bags are queued, 14 pieces, and nothing has been handed out. |
| Generator.RandomBrickGenerator.RefillBag | src/main/java/com/comp2042/tetris/model/piece/RandomBrickGenerator.java:58-65 | A fresh permutation of the seven pieces becomes the current bag and is appended to the queue. |
| Generator.RandomBrickGenerator.GetBrick | src/main/java/com/comp2042/tetris/model/piece/RandomBrickGenerator.java:40-49 | Hands out the queue's head, always a real tetromino, and records it as drawn. The queue loses its head. When only six pieces would remain, a fresh bag is appended. The generator invariant is kept: drawn pieces followed by the queue are the bags shuffled so far. |
| Generator.RandomBrickGenerator.GetNextBrick | src/main/java/com/comp2042/tetris/model/piece/RandomBrickGenerator.java:53-55 | Returns the queue's head, the piece the next `GetBrick` hands out, without taking it. |
| Generator.RandomBrickGenerator.DrawsAreFair | src/test/java/com/comp2042/tetris/model/piece/BrickGeneratorTest.java:52-65 | Every 7-aligned block of the pieces handed out contains one piece of each type. |
| Generator.RandomBrickGenerator.DrawsCount | src/test/java/com/comp2042/tetris/model/piece/BrickGeneratorTest.java:153-172 | The first 7n pieces handed out hold each type exactly n times. |
| Scoring.Score.constructor | CW2025-master/src/main/java/com/comp2042/tetris/model/Score.java:9-16 | Score 0, and the high score as loaded. |
| Scoring.Score.Add | CW2025-master/src/main/java/com/comp2042/tetris/model/Score.java:34-43 | Negative points are refused with the game's message and change nothing. Otherwise the score grows by exactly the points, and the high score becomes the larger of itself and the new score. |
| Scoring.Score.ReloadHighScore | src/main/java/com/comp2042/tetris/controller/GameController.java:164 | The high score becomes the value read from the high score file; the score and the saves are unchanged. |
| Scoring.Score.Reset | CW2025-master/src/main/java/com/comp2042/tetris/model/Score.java:45-47 | The score returns to 0; the high score stays. |
| Scoring.Score.SaveIfHighScore | CW2025-master/src/main/java/com/comp2042/tetris/model/Score.java:50-52 | Saves exactly when the score beats the value on file, appending the score to the save log, and returns whether it saved. |
| Scoring.Score.IsNewHighScore | CW2025-master/src/main/java/com/comp2042/tetris/model/Score.java:55-58 | True if and only if the score beats the value on file. |
| GameStates.OnlyPlayingAcceptsBoth | src/main/java/com/comp2042/tetris/model/PlayingState.java:7-15 | Moves are accepted exactly in Playing, and Playing is the only state accepting both moves and pause. |
| GameStates.PausedDiffersInMoveOnly | src/main/java/com/comp2042/tetris/model/PausedState.java:7-15 | Paused accepts pause like Playing does, but refuses moves. |
| GameStates.GameOverAcceptsNothing | src/main/java/com/comp2042/tetris/model/GameOverState.java:7-15 | Game over is the only state accepting neither moves nor pause. |
| GameStates.NamesDistinct | src/main/java/com/comp2042/tetris/model/GameOverState.java:19-21 | Different states have different names. |
| StateManager.GameStateManager.constructor | src/main/java/com/comp2042/tetris/controller/GameStateManager.java:25-33 | Starts in Playing, with the timer as given and no effects. |
| StateManager.GameStateManager.Pause | src/main/java/com/comp2042/tetris/controller/GameStateManager.java:36-42 | When the state accepts pause, the timer is suspended, the music pauses and the state becomes Paused; otherwise nothing changes. |
| StateManager.GameStateManager.Resume | src/main/java/com/comp2042/tetris/controller/GameStateManager.java:45-51 | Only from Paused: the timer runs, the music plays and the state becomes Playing; otherwise nothing changes. |
| StateManager.GameStateManager.TogglePause | src/main/java/com/comp2042/tetris/controller/GameStateManager.java:54-60 | Playing becomes Paused with the timer suspended and the music paused; Paused becomes Playing with the timer running and the music playing; Game Over stays unchanged with no effect. |
| StateManager.GameStateManager.TriggerGameOver | src/main/java/com/comp2042/tetris/controller/GameStateManager.java:63-84 | From any state: the timer stops, then the music pauses, then the panel is shown, and the state becomes Game Over. |
| StateManager.GameStateManager.StartNewGame | src/main/java/com/comp2042/tetris/controller/GameStateManager.java:87-96 | Hides the panel, resets the music and runs the new-game callback once, in that order. The interval becomes the speed the callback sets through `updateSpeed` (500 ms in the game, from `createNewGame`); it stays only when the callback sets none. The timer then runs in Playing. |
| StateManager.GameStateManager.UpdateSpeed | src/main/java/com/comp2042/tetris/controller/GameStateManager.java:99-114 | Installs the new interval without changing the state. The timer runs again only if the state accepts moves. |
| StateManager.GameStateManager.GetCanMove | src/main/java/com/comp2042/tetris/controller/GameStateManager.java:117-119 | Whether the current state accepts moves. |
| StateManager.GameStateManager.GetCanPause | src/main/java/com/comp2042/tetris/controller/GameStateManager.java:122-124 | Whether the current state accepts pause. |
| StateManager.GameStateManager.GetCurrentStateName | src/main/java/com/comp2042/tetris/controller/GameStateManager.java:127-129 | The current state's name. |
| Levels.RequiredLinesFormula | src/main/java/com/comp2042/tetris/model/LevelManager.java:67-72 | No lines are needed up to level 1, then four lines per level, and the requirement is never negative. |
| Levels.LevelForIsHighestReached | src/main/java/com/comp2042/tetris/model/LevelManager.java:47-58 | The level lies between 1 and 10, is the highest whose requirement the total meets, and stops at 10. |
| Levels.LinesToNextClosedForm | src/main/java/com/comp2042/tetris/model/LevelManager.java:75-86 | Below level 10 the lines to go are 4·level − total, which is positive. At level 10 they are 0. They never exceed 4. |
| Levels.LevelForMonotone | src/main/java/com/comp2042/tetris/model/LevelManager.java:38-58 | More lines never lower the level. |
| Levels.SpeedTableDecreasing | src/main/java/com/comp2042/tetris/model/LevelManager.java:23-25 | Ten strictly decreasing intervals, from 500 ms down to 50 ms. |
| Levels.SpeedForMonotone | src/main/java/com/comp2042/tetris/model/LevelManager.java:94-97 | A higher level never drops more slowly, and every interval lies in 50 to 500 ms. |
| Levels.LevelManager.constructor | src/main/java/com/comp2042/tetris/model/LevelManager.java:14-30 | Level 1, no lines, four lines to go, all in step. |
| Levels.LevelManager.AddLinesCleared | src/main/java/com/comp2042/tetris/model/LevelManager.java:38-44 | A non-positive count changes nothing. A positive count increases the total by exactly that count, and the level and the lines to go catch up. The level never falls. |
| Levels.LevelManager.CheckLevelUp | src/main/java/com/comp2042/tetris/model/LevelManager.java:47-58 | The one-step-at-a-time loop ends exactly at the level the total reaches, capped at 10. |
| Levels.LevelManager.UpdateLinesToNextLevel | src/main/java/com/comp2042/tetris/model/LevelManager.java:75-86 | Sets the lines to go from the level and the total; nothing else changes. |
| Levels.LevelManager.GetCurrentSpeed | src/main/java/com/comp2042/tetris/model/LevelManager.java:94-97 | The level's entry in the speed table. |
| Levels.LevelManager.Reset | src/main/java/com/comp2042/tetris/model/LevelManager.java:100-104 | Back to level 1, no lines, four lines to go. |
| Board.Candidates | src/main/java/com/comp2042/tetris/model/GameBoard.java:115-158 | The positions a rotation tries, in order: the unchanged offset, then each kick from it. |
| Board.FirstFit | src/main/java/com/comp2042/tetris/model/GameBoard.java:145-161 | The index of the first candidate where the shape fits, with no earlier candidate fitting. `None` exactly when no candidate fits. |
| Board.TryWallKicks | src/main/java/com/comp2042/tetris/model/GameBoard.java:144-161 | The kick loop returns the first kicked position that fits, or none. Its result is one of the kicks applied to the offset. |
| Board.FindRotationTarget | src/main/java/com/comp2042/tetris/model/GameBoard.java:115-161 | The normal rotation and then the kick loop together choose the first candidate that fits. |
| Board.FirstFitUnique | src/main/java/com/comp2042/tetris/model/GameBoard.java:145-158 | Any fitting candidate with no earlier fitting candidate is the first fit. |
| Board.FitIsAboveBottom | src/main/java/com/comp2042/tetris/model/GameBoard.java:244-275 | A fitting shape with a block is above the grid's bottom, so the ghost descent terminates. |
| Board.LandingRow | src/main/java/com/comp2042/tetris/model/GameBoard.java:259-272 | The landing row is never above the starting row. |
| Board.LandingRowDropsTo | src/main/java/com/comp2042/tetris/model/GameBoard.java:259-272 | Every row from the start to the landing row is free, and the row below it collides. |
| Board.DropDistance | src/main/java/com/comp2042/tetris/controller/GameController.java:127-130 | A positive distance means the first step down fits; one row past the distance, the piece collides. |
| Board.DropDistanceReachesLanding | src/main/java/com/comp2042/tetris/controller/GameController.java:127-130 | From a fitting position, the start row plus the step-by-step drop distance is the landing row. |
| Board.SpawnFitsOnEmptyGrid | src/main/java/com/comp2042/tetris/model/GameBoard.java:193-199 | Any 4x4 shape fits at the spawn point (3, 0) of an empty grid with at least 4 rows and 7 columns. |
| Board.FreshGridSpawnFits | src/main/java/com/comp2042/tetris/model/GameBoard.java:333-339 | On the game's empty 25 x 10 grid, a freshly spawned piece of any type does not collide, so the first spawn of a new game never reports game over. |
| Board.GameBoard.CurrentShapeHasBlock | src/main/java/com/comp2042/tetris/model/GameBoard.java:170-184 | The falling piece's state is 4x4 and has exactly four blocks. |
| Board.GameBoard.HardDropLandsOnGhost | src/main/java/com/comp2042/tetris/model/GameBoard.java:244-275 | From a fitting offset, the hard drop's resting place is exactly the ghost position. |
| Board.GameBoard.constructor | src/main/java/com/comp2042/tetris/model/GameBoard.java:23-46 | An empty rows x columns grid, no piece and no offset, nothing held, hold enabled, a fresh generator, a fresh rotator, and score 0 with the loaded high score. |
| Board.GameBoard.MoveBy | src/main/java/com/comp2042/tetris/model/GameBoard.java:54-65 | Moves by the displacement exactly when the piece fits there; otherwise the offset stays. Shape, grid and hold state are unchanged. |
| Board.GameBoard.MoveBrickDown | src/main/java/com/comp2042/tetris/model/GameBoard.java:54-65 | One row down exactly when the piece fits there; nothing else changes. |
| Board.GameBoard.MoveBrickLeft | src/main/java/com/comp2042/tetris/model/GameBoard.java:73-84 | One column left exactly when the piece fits there; nothing else changes. |
| Board.GameBoard.MoveBrickRight | src/main/java/com/comp2042/tetris/model/GameBoard.java:92-103 | One column right exactly when the piece fits there; nothing else changes. |
| Board.GameBoard.IsIBrick | src/main/java/com/comp2042/tetris/model/GameBoard.java:170-184 | The counting loop returns whether the state has exactly four blocks, and that is always true. |
| Board.GameBoard.RotateLeftBrick | src/main/java/com/comp2042/tetris/model/GameBoard.java:111-162 | Succeeds exactly when the next state fits at the offset or at a kicked offset. On success the next index and the first fitting position are committed together; on failure nothing changes. |
| Board.GameBoard.CreateNewBrick | src/main/java/com/comp2042/tetris/model/GameBoard.java:193-199 | The generator's next piece is placed at rotation 0 at the spawn point, and hold is re-enabled. The result is true exactly when it collides there. |
| Board.GameBoard.GetBoardMatrix | src/main/java/com/comp2042/tetris/model/GameBoard.java:207-209 | The background grid. |
| Board.GameBoard.GetViewData | src/main/java/com/comp2042/tetris/model/GameBoard.java:218-236 | The view data: the current state and its offset, the first state of the next and of the held piece, and the ghost offset. |
| Board.GameBoard.CalculateGhostPosition | src/main/java/com/comp2042/tetris/model/GameBoard.java:244-275 | Same column, never higher. From a fitting offset, every row down to the ghost is free and the row below collides. From a colliding offset, the offset itself. |
| Board.GameBoard.MergeBrickToBackground | src/main/java/com/comp2042/tetris/model/GameBoard.java:279-281 | The grid becomes the piece merged into it at its offset. |
| Board.GameBoard.ClearRows | src/main/java/com/comp2042/tetris/model/GameBoard.java:289-294 | Installs and returns the row-removal result of the grid. |
| Board.GameBoard.HoldBrick | src/main/java/com/comp2042/tetris/model/GameBoard.java:310-329 | Holds once per spawn. A refused hold returns the empty piece and changes nothing. Otherwise the falling piece is held and returned, and hold is disabled. The previously held piece, or the generator's next piece when none was held, falls from the spawn point at rotation 0. |
| Board.GameBoard.NewGame | src/main/java/com/comp2042/tetris/model/GameBoard.java:333-339 | Empty grid, score 0 with the high score kept, nothing held, hold enabled, and a new piece at the spawn point. |
| Controller.LockOrder | src/main/java/com/comp2042/tetris/controller/GameController.java:66-86 | When a piece locks, the speed is set if and only if rows were removed. It is set once, after the bonus and the lines and before the spawn. The game-over panel appears exactly on game over. The sequence starts with the merge and the clear and ends with the refresh. |
| Controller.GameController.constructor | src/main/java/com/comp2042/tetris/controller/GameController.java:26-55 | A 25 x 10 empty board with its first piece at the spawn point, score 0, and level 1. The view is initialised with the grid and the view data, then the level-1 speed of 500 ms is set. |
| Controller.GameController.Start | src/main/java/com/comp2042/tetris/controller/GameController.java:40-54 | The first spawn, the view initialisation, then the speed. |
| Controller.GameController.UpdateGameSpeed | src/main/java/com/comp2042/tetris/controller/GameController.java:97-100 | Sets the view's speed to the current level's interval. |
| Controller.GameController.LockPiece | src/main/java/com/comp2042/tetris/controller/GameController.java:68-69 | The grid becomes the row removal of the piece merged at its offset; offset and hold state stay. |
| Controller.GameController.RewardClear | src/main/java/com/comp2042/tetris/controller/GameController.java:72-80 | Only when rows were removed: the bonus is added, the lines are counted, and the speed is updated, in that order. Otherwise nothing changes. |
| Controller.GameController.SpawnAfterLock | src/main/java/com/comp2042/tetris/controller/GameController.java:82-86 | Spawns the next piece. Only on game over, it checks the high score against the file and shows the panel. It then refreshes the background. |
| Controller.GameController.LockAndSpawn | src/main/java/com/comp2042/tetris/controller/GameController.java:66-86 | The whole lock: merge and clear, the bonus if rows were removed, the lines, the speed, the spawn and the refresh, in that order. The new piece is the generator's next one at rotation 0 and the spawn point; hold is re-enabled and the held piece is kept. |
| Controller.GameController.AwardSoftDrop | src/main/java/com/comp2042/tetris/controller/GameController.java:87-92 | A player's down move scores 1 point; a timer tick scores nothing. |
| Controller.GameController.OnDownEvent | src/main/java/com/comp2042/tetris/controller/GameController.java:63-94 | No row removal is returned exactly when the piece could move down. A moved piece is one row lower with the grid, the lines and the log unchanged apart from the soft-drop point. A moved piece keeps its tetromino, rotation and hold state. A blocked piece locks in the exact order of `LockAndSpawn`, and the new piece is the generator's next one at rotation 0 with hold re-enabled. The held piece is kept in both cases. |
| Controller.GameController.DropWhileFits | src/main/java/com/comp2042/tetris/controller/GameController.java:127-130 | The loop's count of successful moves is the drop distance, and the piece ends that many rows lower. |
| Controller.GameController.StepDown | src/main/java/com/comp2042/tetris/controller/GameController.java:128-130 | One loop step: on success the piece is one row lower and the remaining distance shrinks by one; on failure the remaining distance is 0. |
| Controller.GameController.AwardHardDrop | src/main/java/com/comp2042/tetris/controller/GameController.java:146-147 | Adds 5 points per row dropped, logged even for 0 rows. |
| Controller.GameController.DropAndLock | src/main/java/com/comp2042/tetris/controller/GameController.java:127-134 | Drops as far as it goes, then merges at the landing offset and removes the full rows. The offset ends at the landing row; the tetromino, its rotation, the held piece and the hold flag are unchanged. |
| Controller.GameController.RewardAndSpawn | src/main/java/com/comp2042/tetris/controller/GameController.java:136-155 | The removal bonus (if rows were removed), then the drop points, then the spawn, game-over handling and refresh. The new piece is the generator's next one at rotation 0; hold is re-enabled and the held piece is kept. |
| Controller.GameController.OnInstantDropEvent | src/main/java/com/comp2042/tetris/controller/GameController.java:125-158 | The piece is merged at its landing row. The score grows by the bonus plus 5 per row dropped. The lines grow by the rows removed. The log records merge, clear, reward, drop points, spawn, game-over handling and refresh, in that order. The removal result is always returned. The new piece is the generator's next one at rotation 0 and the spawn point; hold is re-enabled and the held piece is kept. |
| Controller.GameController.OnLeftEvent | src/main/java/com/comp2042/tetris/controller/GameController.java:104-107 | One column left when the piece fits; the grid, the tetromino, its rotation, the hold state, the score, the level and the log are untouched. |
| Controller.GameController.OnRightEvent | src/main/java/com/comp2042/tetris/controller/GameController.java:111-114 | One column right when the piece fits; the grid, the tetromino, its rotation, the hold state, the score, the level and the log are untouched. |
| Controller.GameController.OnRotateEvent | src/main/java/com/comp2042/tetris/controller/GameController.java:118-121 | When there is a rotation target, the rotation index becomes the next one and the offset becomes the target; otherwise both stay. The tetromino, the grid, the hold state, the score, the level and the log are untouched. |
| Controller.GameController.OnHoldEvent | src/main/java/com/comp2042/tetris/controller/GameController.java:172-176 | A hold followed by one background refresh; hold is disabled afterwards. An allowed hold puts the current piece on hold and brings in the previously held one, or the generator's next one when none was held, at rotation 0 and the spawn point. A refused hold changes nothing but the log. The score and the level are untouched. |
| Controller.GameController.CreateNewGame | src/main/java/com/comp2042/tetris/controller/GameController.java:162-168 | The board's new game, the high score reload (the high score becomes the value read from the file), the level reset, the 500 ms speed, and a refresh of the empty grid, in that order. The new piece is the generator's next one at rotation 0 and the spawn point, with nothing held and hold enabled. |

## Left out

- The view, JavaFX properties and bindings, audio, dialogs, scene navigation, input handling, rendering and colour mapping are not part of this model. The controller's and the state manager's calls into them are recorded in ghost logs.
- The high score file (`HighScoreManager`) is not part of this model. The value on file is a parameter of each operation that reads it. A save is an entry in `Score.saved`.
- Scoring.Score.ReloadHighScore: the body of `reloadHighScoreFromFile` is not part of this model. Its effect (the in-memory high score becomes the value on file, passed in as a parameter) is taken from its name and the comment at its call in `createNewGame`. The call is also recorded as the `HighScoreReloaded` log step.
- Java `int` overflow of the score, the line total and the drop-distance product is not modelled; integers are unbounded.
- `getBoardMatrix` returns the live array in Java. Grids are values here, so aliasing between the board's grid and a caller's copy is not captured, and neither is the independence of the copies made by `copy` and `deepCopyList`.
- MatrixOperations.CheckRemoving: requires a non-empty rectangular grid. The game only ever passes its own 25 x 10 grid and never the ragged or empty arrays Java would also accept.
- The J, L, O and Z rotation matrices are not among the modelled files. `Pieces.Catalog` supplies them, constrained to the rotation counts and the 4x4 size. It is also assumed that every J, L, O and Z state has exactly four blocks, all carrying the type's colour tag. That assumption comes from what a tetromino is; the tests check less (four blocks only in state 0 of I and O, and for J, L, O and Z only that the tag appears somewhere in state 0). `Board.GameBoard.IsIBrick` being always true for J, L, O and Z rests on that assumption.
- The alternative `GameBoard`, `GameController`, `LevelManager` and `RandomBrickGenerator` classes of the `CW2025-master/` tree are not part of this model.
- The shuffle's randomness is replaced by an arbitrary permutation, so the fairness properties hold for every shuffle.
- Generator.RandomBrickGenerator.Valid: ties `currentBag` only to the latest bag shuffled; the game never reads it otherwise.
- `getScore`, the property accessors and the DTO getters are not modelled; the model's fields stand in for them.
- Timer construction and key-frame details of `GameStateManager` are reduced to a status and an interval. The game-over panel and the pane are log entries. The new-game callback is a log entry together with the speed it sets on the manager.
- StateManager.GameStateManager.StartNewGame: the callback is not called. Its effect on the manager, re-entering `updateSpeed` with the level-1 speed of 500 ms, is the `callbackSpeed` parameter. The model does not enforce that this parameter matches what `GameController.CreateNewGame` sets.
- Board.GameBoard.HardDropLandsOnGhost: requires the current offset to fit. After a hold, the piece can overlap at the spawn point; there the ghost stays at the offset.
- The null-shape branch of `calculateGhostPosition` and the `null` offset before the first spawn are not modelled. Board operations require a spawned tetromino (`Spawned()`). The controller establishes it in its constructor.
- Rotation.BrickRotator.GetCurrentShape: requires a tetromino to be set. The `NullPointerException` the game raises with no tetromino is not modelled; every caller sets one first.
- Rotation.BrickRotator.PeekNextShape: requires a tetromino to be set, for the same reason as `GetCurrentShape`.
- Controller.GameController.OnDownEvent: states the high score only as never decreasing. `Score.Add` states it exactly (the larger of the old high score and the new score), but across a lock with no rows removed it is not restated.
- Controller.GameController.OnInstantDropEvent: states the high score only as never decreasing, for the same reason.
- Controller.GameController.LockAndSpawn: states the high score only as never decreasing.
- Controller.GameController.RewardClear: states the high score only as never decreasing.
- Controller.GameController.RewardAndSpawn: states the high score only as never decreasing.
- Controller.GameController.AwardSoftDrop: states the high score only as never decreasing.
- Controller.GameController.AwardHardDrop: states the high score only as never decreasing.
- The handlers build their view result from `GameBoard.ViewData`, the function that `GameBoard.GetViewData` is proved to compute, rather than by calling the method. Their bodies are split into staged helper methods (`LockAndSpawn`, `DropAndLock`, `RewardAndSpawn` and others) that run the same calls in the same order.
