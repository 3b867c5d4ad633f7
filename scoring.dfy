/**
 * The score and the high score. The high score file is outside the model:
 * the value read at start-up is a constructor argument, the value on file at
 * save time is an argument of the save, and every save is recorded in a
 * ghost log.
 */
module Scoring {
  import opened Wrappers

  class Score {
    var score: int
    var highScore: int
    /** Every value written to the high score file, in order. */
    ghost var saved: seq<int>

    /** Score 0, and the high score read at start-up. */
    constructor(loadedHighScore: int)
      ensures score == 0 && highScore == loadedHighScore && saved == []
    {
      score := 0;
      highScore := loadedHighScore;
      saved := [];
    }

    /**
     * Adds points. Negative points are refused and change nothing; otherwise
     * the score grows by exactly the points and the high score follows it
     * when it is overtaken.
     */
    method Add(points: int) returns (o: Outcome)
      modifies this
      ensures points < 0 ==> o == IllegalArgument("Points cannot be negative: -" + NatToString(-points))
      ensures points < 0 ==> score == old(score) && highScore == old(highScore)
      ensures points >= 0 ==> o == Success && score == old(score) + points
      ensures points >= 0 ==> highScore == Max(old(highScore), score)
      ensures highScore >= old(highScore) && saved == old(saved)
    {
      if points < 0 {
        return IllegalArgument("Points cannot be negative: -" + NatToString(-points));
      }
      score := score + points;
      if score > highScore {
        highScore := score;
      }
      return Success;
    }

    /** Replaces the high score with the value read from the high score file; the score stays. */
    method ReloadHighScore(loaded: int)
      modifies this
      ensures highScore == loaded && score == old(score) && saved == old(saved)
    {
      highScore := loaded;
    }

    /** Score back to 0; the high score stays. */
    method Reset()
      modifies this
      ensures score == 0 && highScore == old(highScore) && saved == old(saved)
    {
      score := 0;
    }

    /**
     * Writes the score to the high score file when it beats the value on file,
     * and says whether it did; the score and the high score do not change.
     */
    method SaveIfHighScore(stored: int) returns (didSave: bool)
      modifies this
      ensures didSave == (score > stored)
      ensures saved == if didSave then old(saved) + [score] else old(saved)
      ensures score == old(score) && highScore == old(highScore)
    {
      didSave := score > stored;
      if didSave {
        saved := saved + [score];
      }
    }

    /** The score beats the value on file. */
    method IsNewHighScore(stored: int) returns (b: bool)
      ensures b <==> score > stored
    {
      b := score > stored;
    }
  }
}
