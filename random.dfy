// The random player (engine/random.h): plays a uniformly drawn legal move.
// The draw is a nondeterministic choice here.
module RandomPlayer {
  import opened Common
  import opened GameContract

  class Random<S, M> {
    const g: Game<S, M>
    var ml: seq<M>

    constructor (game: Game<S, M>)
      ensures g == game && ml == []
    {
      g := game;
      ml := [];
    }

    /**
     * `next`: clears the list, regenerates it and plays one move drawn from
     * it; with an empty list the state is only marked over.
     */
    method Next(c: Color, s: S) returns (s': S, ghost choice: nat)
      modifies this
      ensures ml == g.moves(s)
      ensures |ml| == 0 ==> s' == g.setOver(s)
      ensures |ml| > 0 ==> choice < |ml| && s' == g.play(s, ml[choice])
    {
      choice := 0;
      ml := [];
      var generated := Generate(g, s);
      s' := generated.0;
      ml := generated.1;
      if |ml| > 0 {
        var k :| 0 <= k < |ml|;
        choice := k;
        s' := g.play(s', ml[k]);
      }
    }
  }
}
