// The turn and outcome bookkeeping every game state embeds (engine/state.h).
module State {
  import opened Common

  /**
   * The score of an outcome for colour `c`: 1 when `c` won, 0 when the
   * opponent of `c` won, and 1/2 otherwise. The first test compares the
   * winner with `c` itself, so with no winner `Outcome(None, None)` is 1.
   */
  function Outcome(winner: Color, c: Color): (r: real)
    ensures r == 1.0 <==> winner == c
    ensures r == 0.0 <==> winner != c && winner == Other(c)
    ensures r == 0.5 <==> winner != c && winner != Other(c)
  {
    if winner == c then 1.0
    else if winner == Other(c) then 0.0
    else 0.5
  }

  /** Black's and White's results always add up to one point. */
  lemma OutcomeZeroSum(winner: Color)
    ensures Outcome(winner, Black) + Outcome(winner, White) == 1.0
  {
  }

  /** The `None` quirk: with no winner the first test already matches. */
  lemma OutcomeOfNone(winner: Color)
    ensures Outcome(winner, None) == (if winner == None then 1.0 else 0.5)
  {
  }

  class BaseState {
    var winner: Color
    var justPlayed: Color
    var gameOver: bool

    constructor ()
      ensures winner == None && justPlayed == White && !gameOver
    {
      winner := None;
      justPlayed := White;
      gameOver := false;
    }

    /** The side to move is the opponent of the side that just played. */
    function Current(): (r: Color)
      reads this
      ensures r == Other(justPlayed)
    {
      Other(justPlayed)
    }

    /** Clears winner and turn; the game-over flag is left as it was. */
    method Reset()
      modifies this
      ensures winner == None && justPlayed == White && Current() == Black
      ensures gameOver == old(gameOver)
    {
      winner := None;
      justPlayed := White;
    }

    method SetGameOver()
      modifies this
      ensures gameOver
      ensures winner == old(winner) && justPlayed == old(justPlayed)
    {
      gameOver := true;
    }

    /** Hands the turn over: the side to move becomes the side that just played. */
    method EndMove()
      modifies this
      ensures justPlayed == old(Current())
      ensures winner == old(winner) && gameOver == old(gameOver)
    {
      justPlayed := Current();
    }

    function Result(c: Color): (r: real)
      reads this
      ensures r == Outcome(winner, c)
    {
      Outcome(winner, c)
    }
  }

  /** Two hand-overs in a row give the turn back to the same side. */
  method EndMoveTwice(s: BaseState)
    modifies s
    ensures s.justPlayed == old(s.justPlayed) && s.winner == old(s.winner)
  {
    s.EndMove();
    s.EndMove();
  }
}
