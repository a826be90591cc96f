// The match driver (engine/game.h): clears the state and lets Black and
// White move in strict alternation until the state says the game is over.
// A player is the function it applies to the state on its turn; the source
// loops without bound, so the model takes a bound on the number of turns.
module GameLoop {
  import opened Common
  import Contract = GameContract

  /** The side that moves on turn `k` (counting from 0): Black first, then alternately. */
  function MoverAt(k: nat): (c: Color)
    ensures IsPlayer(c)
    ensures k > 0 ==> c == Other(MoverAt(k - 1))
  {
    if k % 2 == 0 then Black else White
  }

  /**
   * The match from `s` with `player` to move, for at most `fuel` turns: the
   * final state and the sides that moved, in order.
   */
  function Run<S, M>(g: Contract.Game<S, M>, black: S -> S, white: S -> S, s: S, player: Color, fuel: nat)
    : (S, seq<Color>)
    decreases fuel
  {
    if g.over(s) || fuel == 0 then (s, [])
    else
      var s' := if player == Black then black(s) else white(s);
      var rest := Run(g, black, white, s', Other(player), fuel - 1);
      (rest.0, [player] + rest.1)
  }

  /**
   * Turns alternate strictly, whatever the state says is to move; a match
   * that stops early ended in a finished game.
   */
  lemma {:induction false} RunAlternates<S, M>(g: Contract.Game<S, M>, black: S -> S, white: S -> S, s: S,
                                               k: nat, fuel: nat)
    ensures var r := Run(g, black, white, s, MoverAt(k), fuel);
      |r.1| <= fuel && (|r.1| < fuel ==> g.over(r.0)) &&
      forall t :: 0 <= t < |r.1| ==> r.1[t] == MoverAt(k + t)
    decreases fuel
  {
    if !(g.over(s) || fuel == 0) {
      var s' := if MoverAt(k) == Black then black(s) else white(s);
      RunAlternates(g, black, white, s', k + 1, fuel - 1);
      assert Other(MoverAt(k)) == MoverAt(k + 1);
    }
  }

  class Game<S, M> {
    const g: Contract.Game<S, M>
    const black: S -> S
    const white: S -> S
    var state: S
    var blackParam: real
    var whiteParam: real

    constructor (game: Contract.Game<S, M>, b: S -> S, w: S -> S)
      ensures g == game && black == b && white == w
    {
      g := game;
      black := b;
      white := w;
      state := game.initial;
      blackParam, whiteParam := 0.0, 0.0;
    }

    /** `set_param`: forwarded to the named side's player; `None` is refused. */
    method SetParam(c: Color, p: real)
      requires IsPlayer(c)
      modifies this
      ensures c == Black ==> blackParam == p && whiteParam == old(whiteParam)
      ensures c == White ==> whiteParam == p && blackParam == old(blackParam)
      ensures state == old(state)
    {
      if c == Black {
        blackParam := p;
      } else {
        whiteParam := p;
      }
    }

    /**
     * `play`: from a cleared state, Black moves first and the sides take
     * turns until the game is over; the result is the state's winner.
     */
    method Play(fuel: nat) returns (w: Color, turns: nat)
      modifies this
      ensures var r := Run(g, black, white, g.initial, Black, fuel);
        state == r.0 && turns == |r.1| && w == g.winner(state)
      ensures turns < fuel ==> g.over(state)
    {
      state := g.initial;
      var player := Black;
      turns := 0;
      while !g.over(state) && turns < fuel
        invariant turns <= fuel && player == MoverAt(turns)
        invariant Run(g, black, white, g.initial, Black, fuel).0 ==
                  Run(g, black, white, state, player, fuel - turns).0
        invariant |Run(g, black, white, g.initial, Black, fuel).1| ==
                  turns + |Run(g, black, white, state, player, fuel - turns).1|
      {
        if player == Black {
          state := black(state);
        } else {
          state := white(state);
        }
        player := Other(player);
        turns := turns + 1;
      }
      w := g.winner(state);
      RunAlternates(g, black, white, g.initial, 0, fuel);
    }
  }
}
