/**
 * The game-state machine that gates moves and pause, with the drop timer and
 * the audio and panel side effects it drives. The timer is a status and an
 * interval; audio, the game-over panel and the new-game callback are recorded
 * in a ghost log of effects, in the order they happen.
 */
module StateManager {
  import opened Wrappers
  import opened GameStates

  /** The drop timer's status: running, suspended where it stood, or stopped. */
  datatype TimerStatus = Running | Suspended | Stopped

  /** A side effect outside the rules engine. */
  datatype Effect =
    | MusicPaused
    | MusicPlaying
    | MusicReset
    | GameOverPanelShown
    | GameOverPanelHidden
    | NewGameCallbackRun
    | DropIntervalSet(ms: int)

  class GameStateManager {
    var currentState: GameState
    var timer: TimerStatus
    /** The drop timer's interval in milliseconds. */
    var interval: int
    ghost var effects: seq<Effect>

    /** Starts in Playing; the timer is as the caller built it. */
    constructor(timer: TimerStatus, interval: int)
      ensures currentState == Playing && this.timer == timer && this.interval == interval && effects == []
    {
      currentState := Playing;
      this.timer := timer;
      this.interval := interval;
      effects := [];
    }

    /** Pauses when the state allows it: the timer is suspended, the music paused, and the state becomes Paused. */
    method Pause()
      modifies this
      ensures CanPause(old(currentState)) ==> currentState == Paused && timer == Suspended && effects == old(effects) + [MusicPaused]
      ensures !CanPause(old(currentState)) ==> currentState == old(currentState) && timer == old(timer) && effects == old(effects)
      ensures interval == old(interval)
    {
      if CanPause(currentState) {
        timer := Suspended;
        effects := effects + [MusicPaused];
        currentState := Paused;
      }
    }

    /** Resumes from Paused only: the timer runs, the music plays, and the state becomes Playing. */
    method Resume()
      modifies this
      ensures old(currentState) == Paused ==> currentState == Playing && timer == Running && effects == old(effects) + [MusicPlaying]
      ensures old(currentState) != Paused ==> currentState == old(currentState) && timer == old(timer) && effects == old(effects)
      ensures interval == old(interval)
    {
      if currentState == Paused {
        timer := Running;
        effects := effects + [MusicPlaying];
        currentState := Playing;
      }
    }

    /** Playing becomes Paused, Paused becomes Playing, and Game Over stays as it is. */
    method TogglePause()
      modifies this
      ensures old(currentState) == Playing ==> currentState == Paused && timer == Suspended && effects == old(effects) + [MusicPaused]
      ensures old(currentState) == Paused ==> currentState == Playing && timer == Running && effects == old(effects) + [MusicPlaying]
      ensures old(currentState) == GameOver ==> currentState == GameOver && timer == old(timer) && effects == old(effects)
      ensures interval == old(interval)
    {
      if currentState == Paused {
        Resume();
      } else if currentState == Playing {
        Pause();
      }
    }

    /** Ends the game from any state: the timer stops, the music pauses and the panel is shown. */
    method TriggerGameOver()
      modifies this
      ensures currentState == GameOver && timer == Stopped
      ensures effects == old(effects) + [MusicPaused, GameOverPanelShown]
      ensures interval == old(interval)
    {
      timer := Stopped;
      effects := effects + [MusicPaused];
      currentState := GameOver;
      effects := effects + [GameOverPanelShown];
    }

    /**
     * Stops the timer, hides the panel, resets the music, runs the new-game
     * callback once, then restarts the timer in Playing. What the callback
     * does to this manager is a parameter: `callbackSpeed` is the interval it
     * sets through `UpdateSpeed`, if any. In the game the callback starts the
     * controller's new game, which sets the level-1 speed of 500 ms; it runs
     * before the state changes, so the rebuilt timer is stopped until the
     * restart.
     */
    method StartNewGame(callbackSpeed: Option<int>)
      modifies this
      ensures currentState == Playing && timer == Running
      ensures effects == old(effects) + [GameOverPanelHidden, MusicReset, NewGameCallbackRun] +
        (if callbackSpeed.Some? then [DropIntervalSet(callbackSpeed.value)] else [])
      ensures interval == if callbackSpeed.Some? then callbackSpeed.value else old(interval)
    {
      timer := Stopped;
      effects := effects + [GameOverPanelHidden, MusicReset];
      effects := effects + [NewGameCallbackRun];
      if callbackSpeed.Some? {
        UpdateSpeed(callbackSpeed.value);
      }
      timer := Running;
      currentState := Playing;
    }

    /** Rebuilds the timer with a new interval; it runs again only if the state accepts moves. */
    method UpdateSpeed(speedInMillis: int)
      modifies this
      ensures interval == speedInMillis && currentState == old(currentState)
      ensures timer == if CanMove(currentState) then Running else Stopped
      ensures effects == old(effects) + [DropIntervalSet(speedInMillis)]
    {
      timer := Stopped;
      interval := speedInMillis;
      effects := effects + [DropIntervalSet(speedInMillis)];
      if CanMove(currentState) {
        timer := Running;
      }
    }

    /** The current state accepts moves. */
    method GetCanMove() returns (b: bool)
      ensures b == CanMove(currentState)
    {
      b := CanMove(currentState);
    }

    /** The current state accepts pause. */
    method GetCanPause() returns (b: bool)
      ensures b == CanPause(currentState)
    {
      b := CanPause(currentState);
    }

    /** The current state's name. */
    method GetCurrentStateName() returns (name: string)
      ensures name == StateName(currentState)
    {
      name := StateName(currentState);
    }
  }
}
