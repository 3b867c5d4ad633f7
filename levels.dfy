/**
 * Level progression: every four cleared lines raise the level by one, up to
 * level 10, and each level has a fixed drop interval.
 */
module Levels {
  import opened Wrappers

  const MaxLevel: int := 10
  const LinesPerLevel: int := 4
  const StartingLevel: int := 1

  /** Drop intervals in milliseconds, for levels 1 to 10. */
  const LevelSpeeds: seq<int> := [500, 400, 300, 250, 200, 150, 100, 80, 60, 50]

  /** Total lines needed from the start to reach a level: none up to level 1. */
  function CalculateRequiredLines(level: int): int
  {
    if level <= StartingLevel then 0 else (level - StartingLevel) * LinesPerLevel
  }

  /** The level reached after a number of lines in total. */
  function LevelFor(total: int): int
  {
    Min(MaxLevel, StartingLevel + total / LinesPerLevel)
  }

  /** The lines still needed for the next level, 0 at the top level or when nothing is needed. */
  function LinesToNext(level: int, total: int): int
  {
    var needed := CalculateRequiredLines(level + 1) - total;
    if level >= MaxLevel || needed <= 0 then 0 else needed
  }

  /** The drop interval of a level; levels past the table use its last entry. */
  function SpeedFor(level: int): int
    requires level >= 1
  {
    LevelSpeeds[Min(level - 1, |LevelSpeeds| - 1)]
  }

  /** The requirement is 0 up to level 1 and four lines per level above it. */
  lemma RequiredLinesFormula(level: int)
    ensures level <= 1 ==> CalculateRequiredLines(level) == 0
    ensures level > 1 ==> CalculateRequiredLines(level) == 4 * (level - 1)
    ensures CalculateRequiredLines(level) >= 0
  {
  }

  /** The level is the highest one whose requirement is met, capped at 10. */
  lemma LevelForIsHighestReached(total: int)
    requires total >= 0
    ensures 1 <= LevelFor(total) <= MaxLevel
    ensures CalculateRequiredLines(LevelFor(total)) <= total
    ensures LevelFor(total) < MaxLevel ==> total < CalculateRequiredLines(LevelFor(total) + 1)
  {
  }

  /** With the level in step with the total, the lines to go are 4 * level - total below level 10, and 0 at 10. */
  lemma LinesToNextClosedForm(total: int)
    requires total >= 0
    ensures LevelFor(total) < MaxLevel ==> LinesToNext(LevelFor(total), total) == 4 * LevelFor(total) - total > 0
    ensures LevelFor(total) == MaxLevel ==> LinesToNext(LevelFor(total), total) == 0
    ensures 0 <= LinesToNext(LevelFor(total), total) <= LinesPerLevel
  {
  }

  /** More lines never lower the level. */
  lemma LevelForMonotone(a: int, b: int)
    requires 0 <= a <= b
    ensures LevelFor(a) <= LevelFor(b)
  {
  }

  /** The table has ten strictly decreasing entries, from 500 down to 50. */
  lemma SpeedTableDecreasing()
    ensures |LevelSpeeds| == MaxLevel
    ensures LevelSpeeds[0] == 500 && LevelSpeeds[MaxLevel - 1] == 50
    ensures forall i, j :: 0 <= i < j < |LevelSpeeds| ==> LevelSpeeds[i] > LevelSpeeds[j]
  {
  }

  /** A higher level never drops more slowly, and every interval lies between 50 and 500 ms. */
  lemma SpeedForMonotone(a: int, b: int)
    requires 1 <= a <= b
    ensures SpeedFor(a) >= SpeedFor(b)
    ensures 50 <= SpeedFor(a) <= 500
  {
    SpeedTableDecreasing();
  }

  class LevelManager {
    var currentLevel: int
    var totalLinesCleared: int
    var linesToNextLevel: int

    /** The level and the lines to go are always in step with the total. */
    ghost predicate Valid()
      reads this
    {
      totalLinesCleared >= 0 &&
      currentLevel == LevelFor(totalLinesCleared) &&
      linesToNextLevel == LinesToNext(currentLevel, totalLinesCleared)
    }

    /** Level 1, no lines, four lines to go. */
    constructor()
      ensures Valid()
      ensures currentLevel == 1 && totalLinesCleared == 0 && linesToNextLevel == 4
    {
      currentLevel := StartingLevel;
      totalLinesCleared := 0;
      linesToNextLevel := LinesPerLevel;
      new;
      UpdateLinesToNextLevel();
    }

    /** Counts cleared lines and catches the level up; a non-positive count changes nothing. */
    method AddLinesCleared(lines: int)
      requires Valid()
      modifies this
      ensures Valid()
      ensures lines <= 0 ==> totalLinesCleared == old(totalLinesCleared) && currentLevel == old(currentLevel) && linesToNextLevel == old(linesToNextLevel)
      ensures lines > 0 ==> totalLinesCleared == old(totalLinesCleared) + lines
      ensures currentLevel >= old(currentLevel)
    {
      if lines > 0 {
        totalLinesCleared := totalLinesCleared + lines;
        LevelForMonotone(old(totalLinesCleared), totalLinesCleared);
        CheckLevelUp();
        UpdateLinesToNextLevel();
      }
    }

    /** Raises the level one step at a time while the next level's requirement is met, up to level 10. */
    method CheckLevelUp()
      requires totalLinesCleared >= 0 && 1 <= currentLevel <= LevelFor(totalLinesCleared)
      modifies this
      ensures currentLevel == LevelFor(totalLinesCleared)
      ensures totalLinesCleared == old(totalLinesCleared) && linesToNextLevel == old(linesToNextLevel)
    {
      var currentTotal := totalLinesCleared;
      var currentLvl := currentLevel;
      var requiredForNextLevel := CalculateRequiredLines(currentLvl + 1);
      while currentTotal >= requiredForNextLevel && currentLvl < MaxLevel
        invariant 1 <= currentLvl <= LevelFor(currentTotal)
        invariant currentLevel == currentLvl && totalLinesCleared == currentTotal
        invariant linesToNextLevel == old(linesToNextLevel)
        invariant requiredForNextLevel == CalculateRequiredLines(currentLvl + 1)
        decreases MaxLevel - currentLvl
      {
        currentLvl := currentLvl + 1;
        currentLevel := currentLvl;
        requiredForNextLevel := CalculateRequiredLines(currentLvl + 1);
      }
    }

    /** Recomputes the lines still needed for the next level. */
    method UpdateLinesToNextLevel()
      modifies this
      ensures linesToNextLevel == LinesToNext(currentLevel, totalLinesCleared)
      ensures currentLevel == old(currentLevel) && totalLinesCleared == old(totalLinesCleared)
    {
      var currentLvl := currentLevel;
      var requiredForNextLevel := CalculateRequiredLines(currentLvl + 1);
      var current := totalLinesCleared;
      var linesNeeded := requiredForNextLevel - current;
      if currentLvl >= MaxLevel || linesNeeded <= 0 {
        linesToNextLevel := 0;
      } else {
        linesToNextLevel := linesNeeded;
      }
    }

    /** The drop interval of the current level, from 500 ms at level 1 down to 50 ms at level 10. */
    method GetCurrentSpeed() returns (ms: int)
      requires Valid()
      ensures ms == SpeedFor(currentLevel)
      ensures ms == LevelSpeeds[currentLevel - 1]
    {
      var levelIndex := Min(currentLevel - 1, |LevelSpeeds| - 1);
      ms := LevelSpeeds[levelIndex];
    }

    /** Back to level 1 with no lines. */
    method Reset()
      modifies this
      ensures Valid()
      ensures currentLevel == 1 && totalLinesCleared == 0 && linesToNextLevel == 4
    {
      currentLevel := StartingLevel;
      totalLinesCleared := 0;
      UpdateLinesToNextLevel();
    }
  }
}
