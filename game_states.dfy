/** The three game states and the moves and pause requests each accepts. */
module GameStates {

  datatype GameState = Playing | Paused | GameOver

  /** Moves, including the automatic drop, are accepted. */
  predicate CanMove(s: GameState)
  {
    match s
    case Playing => true
    case Paused => false
    case GameOver => false
  }

  /** A pause request (or the request that ends a pause) is accepted. */
  predicate CanPause(s: GameState)
  {
    match s
    case Playing => true
    case Paused => true
    case GameOver => false
  }

  /** The name shown for the state. */
  function StateName(s: GameState): string
  {
    match s
    case Playing => "Playing"
    case Paused => "Paused"
    case GameOver => "Game Over"
  }

  /** Playing is the only state accepting both moves and pause; moves are accepted only while playing. */
  lemma OnlyPlayingAcceptsBoth(s: GameState)
    ensures CanMove(s) && CanPause(s) <==> s == Playing
    ensures CanMove(s) <==> s == Playing
  {
  }

  /** Paused differs from Playing in the move flag only. */
  lemma PausedDiffersInMoveOnly()
    ensures CanPause(Paused) == CanPause(Playing)
    ensures CanMove(Paused) != CanMove(Playing)
  {
  }

  /** Game over accepts neither moves nor pause, and is the only such state. */
  lemma GameOverAcceptsNothing(s: GameState)
    ensures !CanMove(s) && !CanPause(s) <==> s == GameOver
  {
  }

  /** Different states have different names. */
  lemma NamesDistinct(a: GameState, b: GameState)
    ensures StateName(a) == StateName(b) <==> a == b
  {
  }
}
