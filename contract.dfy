// What the engine needs from a game. The engine is written against a game
// state type with `moves`, `move`, `game_over`, `set_game_over`, `score`,
// `winner`, `current` and `clear`; here a game is a record of those
// operations, and a state is a value, so `copy_from` is plain assignment.
module GameContract {
  import opened Common

  datatype Game<!S, !M> = Game(
    moves: S -> seq<M>,       // legal moves of the side to move, none once the game is over
    play: (S, M) -> S,        // `move`: the state after a move
    over: S -> bool,          // `game_over`
    setOver: S -> S,          // `set_game_over`
    score: (S, bool) -> int,  // `score(maximise)`: static evaluation
    winner: S -> Color,
    current: S -> Color,
    initial: S                // the state `clear` resets to
  )

  /**
   * `state.moves(ml)`: the list of legal moves, and the state afterwards —
   * every game marks itself over when it has nothing to play.
   */
  function Generate<S, M>(g: Game<S, M>, s: S): (S, seq<M>)
  {
    var ml := g.moves(s);
    (if |ml| == 0 then g.setOver(s) else s, ml)
  }

  /** The state a search treats as a leaf: decided, or out of depth. */
  predicate Leaf<S, M>(g: Game<S, M>, s: S, depth: nat)
  {
    g.over(s) || depth == 0
  }

  /** The children of an interior node, one per legal move, in move-list order. */
  function Children<S, M>(g: Game<S, M>, s: S): (r: seq<S>)
    ensures |r| == |g.moves(s)|
  {
    var ml := g.moves(s);
    seq(|ml|, i requires 0 <= i < |ml| => g.play(s, ml[i]))
  }

  /**
   * The well-behaved games: within `depth` plies every static score fits a
   * 32-bit `int` with its negation, and every interior node has a move.
   */
  ghost predicate Bounded<S, M>(g: Game<S, M>, s: S, depth: nat)
    decreases depth
  {
    -IntMax <= g.score(s, true) <= IntMax && -IntMax <= g.score(s, false) <= IntMax &&
    (!Leaf(g, s, depth) ==>
       |g.moves(s)| > 0 &&
       forall i :: 0 <= i < |Children(g, s)| ==> Bounded(g, Children(g, s)[i], depth - 1))
  }
}
