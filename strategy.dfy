// The fixed-depth search player (engine/minimax/strategy.h): every move at
// the root is scored by a search algorithm `A` run to depth `D`, and the
// first move with the strictly best score is played. `A` at depth `D` is the
// parameter `eval` here: Minimax.Search, Negamax.Search or Negascout.Search.
module Strategy {
  import opened Common
  import opened GameContract
  import Minimax
  import Negamax

  /** `x` strictly improves on `y` for the side that maximises or minimises. */
  predicate Beats(x: int, y: int, maximise: bool)
  {
    if maximise then x > y else x < y
  }

  /**
   * `best` is what a left-to-right scan that replaces the running best only
   * on strict improvement returns: -1 when nothing beats `init`, and
   * otherwise the first position of the best score.
   */
  predicate FirstBest(vals: seq<int>, maximise: bool, init: int, best: int)
  {
    if best == -1 then forall i :: 0 <= i < |vals| ==> !Beats(vals[i], init, maximise)
    else
      0 <= best < |vals| && Beats(vals[best], init, maximise) &&
      (forall i :: 0 <= i < |vals| ==> !Beats(vals[i], vals[best], maximise)) &&
      (forall i :: 0 <= i < best ==> Beats(vals[best], vals[i], maximise))
  }

  /** The scan's answer is unique: it is a function of the scores. */
  lemma FirstBestUnique(vals: seq<int>, maximise: bool, init: int, b1: int, b2: int)
    requires FirstBest(vals, maximise, init, b1) && FirstBest(vals, maximise, init, b2)
    ensures b1 == b2
  {
  }

  /** The side to move maximises exactly when it is Black. */
  function Maximises(c: Color): bool
  {
    c == Black
  }

  /** The running best starts at the sentinel of the side: INT_MIN or INT_MAX. */
  function InitialScore(maximise: bool): int
  {
    if maximise then IntMin else IntMax
  }

  /** One more score: the scan keeps its answer unless the new score strictly beats it. */
  lemma FirstBestStep(vals: seq<int>, maximise: bool, init: int, best: int, i: nat)
    requires i < |vals| && FirstBest(vals[..i], maximise, init, best)
    ensures var running := if best == -1 then init else vals[best];
      FirstBest(vals[..i + 1], maximise, init, if Beats(vals[i], running, maximise) then i else best)
  {
    assert vals[..i + 1][..i] == vals[..i];
  }

  /**
   * `Task::operator()`: the task searches the child for the opponent's flag,
   * keeps the result as a 32-bit `int`, and negates it when the mover
   * minimises; the negation wraps -INT_MIN back to INT_MIN.
   */
  function TaskScore<S>(eval: (S, bool) -> int, child: S, maximise: bool): (r: int)
    ensures IntMin <= r <= IntMax
  {
    var score := Int32(eval(child, !maximise));
    if !maximise then Neg32(score) else score
  }

  /**
   * On scores that fit the symmetric range the task's score is the search
   * result, negated for the minimiser.
   */
  lemma TaskScoreExact<S>(eval: (S, bool) -> int, child: S, maximise: bool)
    requires -IntMax <= eval(child, !maximise) <= IntMax
    ensures TaskScore(eval, child, maximise) == if maximise then eval(child, !maximise) else -eval(child, !maximise)
  {
  }

  /**
   * When a child's search gives INT_MIN (a child with no move that is not
   * over), the minimiser's negation wraps to INT_MIN, which beats the
   * minimiser's starting score INT_MAX and every other score: that move is
   * picked as the minimiser's best, where the exact negation 2^31 would
   * never be picked.
   */
  lemma TaskScoreWraps<S>(eval: (S, bool) -> int, child: S)
    requires eval(child, true) == IntMin
    ensures TaskScore(eval, child, false) == IntMin
    ensures Beats(TaskScore(eval, child, false), InitialScore(false), false)
    ensures !Beats(-eval(child, true), InitialScore(false), false)
  {
  }

  class BasicMinimax<S, M> {
    const g: Game<S, M>
    const eval: (S, bool) -> int
    var parallel: bool
    var globalMl: seq<M>

    constructor (game: Game<S, M>, search: (S, bool) -> int)
      ensures g == game && eval == search && parallel && globalMl == []
    {
      g := game;
      eval := search;
      parallel := true;
      globalMl := [];
    }

    /** `make_child`: a copy of the state with move `i` of the list applied. */
    function Child(s: S, i: nat): (r: S)
      requires i < |globalMl|
      reads this
      ensures r == g.play(s, globalMl[i])
    {
      g.play(s, globalMl[i])
    }

    /** The scores `sync_search` compares: the algorithm with the mover's own flag. */
    function SyncScores(s: S, maximise: bool): (r: seq<int>)
      reads this
      ensures |r| == |globalMl|
      ensures forall i :: 0 <= i < |r| ==> r[i] == eval(g.play(s, globalMl[i]), maximise)
    {
      seq(|globalMl|, i requires 0 <= i < |globalMl| reads this => eval(Child(s, i), maximise))
    }

    /** The scores the tasks report, in the order the tasks were pushed. */
    function TaskScores(s: S, maximise: bool): (r: seq<int>)
      reads this
      ensures |r| == |globalMl|
      ensures forall i :: 0 <= i < |r| ==> r[i] == TaskScore(eval, g.play(s, globalMl[i]), maximise)
    {
      seq(|globalMl|, i requires 0 <= i < |globalMl| reads this => TaskScore(eval, Child(s, i), maximise))
    }

    /** `sync_search`: the first move whose score strictly beats the running best. */
    method SyncSearch(s: S, maximise: bool, score: int) returns (best: int)
      ensures FirstBest(SyncScores(s, maximise), maximise, score, best)
    {
      ghost var vals := SyncScores(s, maximise);
      var running := score;
      best := -1;
      var i := 0;
      while i < |globalMl|
        invariant 0 <= i <= |globalMl|
        invariant FirstBest(vals[..i], maximise, score, best)
        invariant running == if best == -1 then score else vals[best]
      {
        var child := Child(s, i);
        var v := eval(child, maximise);
        FirstBestStep(vals, maximise, score, best, i);
        if (maximise && v > running) || (!maximise && v < running) {
          running, best := v, i;
        }
        i := i + 1;
      }
      assert vals[..i] == vals;
    }

    /**
     * The reduction that follows the parallel tasks, over their results in
     * the order the tasks were pushed: the same scan as `SyncSearch`, on the
     * task scores.
     */
    method AsyncSearch(s: S, maximise: bool, score: int) returns (best: int)
      ensures FirstBest(TaskScores(s, maximise), maximise, score, best)
    {
      ghost var vals := TaskScores(s, maximise);
      var running := score;
      best := -1;
      var i := 0;
      while i < |globalMl|
        invariant 0 <= i <= |globalMl|
        invariant FirstBest(vals[..i], maximise, score, best)
        invariant running == if best == -1 then score else vals[best]
      {
        var v := TaskScore(eval, Child(s, i), maximise);
        FirstBestStep(vals, maximise, score, best, i);
        if (maximise && v > running) || (!maximise && v < running) {
          running, best := v, i;
        }
        i := i + 1;
      }
      assert vals[..i] == vals;
    }

    /**
     * `next`: regenerates the move list, scores it and plays the chosen move;
     * a random move when no score beats the sentinel. With no legal move the
     * state is only marked over.
     */
    method Next(c: Color, s: S) returns (s': S)
      modifies this
      ensures globalMl == g.moves(s) && parallel == old(parallel)
      ensures |globalMl| == 0 ==> s' == g.setOver(s)
      ensures |globalMl| > 0 ==> exists k :: 0 <= k < |globalMl| && s' == g.play(s, globalMl[k])
      ensures |globalMl| > 0 ==>
        var vals := if parallel then TaskScores(s, Maximises(c)) else SyncScores(s, Maximises(c));
        forall b :: FirstBest(vals, Maximises(c), InitialScore(Maximises(c)), b) && b != -1 ==>
          s' == g.play(s, globalMl[b])
    {
      var maximise := c == Black;
      var score := if maximise then IntMin else IntMax;
      globalMl := [];
      var generated := Generate(g, s);
      s' := generated.0;
      globalMl := generated.1;
      var best;
      if parallel {
        best := AsyncSearch(s', maximise, score);
      } else {
        best := SyncSearch(s', maximise, score);
      }
      if |globalMl| > 0 {
        if best == -1 {
          best :| 0 <= best < |globalMl|;
        } else {
          ghost var vals := if parallel then TaskScores(s, maximise) else SyncScores(s, maximise);
          forall b | FirstBest(vals, maximise, score, b)
            ensures b == best
          {
            FirstBestUnique(vals, maximise, score, b, best);
          }
        }
        s' := g.play(s', globalMl[best]);
      }
    }
  }

  /**
   * The two paths do not agree. With Minimax at depth 1 on a root whose two
   * moves lead to positions worth 1 and 2, the sequential path scores the
   * root for the maximiser (2), while a task scores it for the minimiser (1).
   */
  lemma PathsDisagree()
    ensures var eval := (s: nat, m: bool) => Minimax.Search(Negamax.TwoLeaves(), s, 1, m);
      eval(0, true) == 2 && TaskScore(eval, 0, true) == 1
  {
    var g := Negamax.TwoLeaves();
    assert Children(g, 0) == [1, 2];
    assert Minimax.ChildValues(g, 0, 1, true) == [1, 2];
    assert Minimax.ChildValues(g, 0, 1, false) == [1, 2];
  }
}
