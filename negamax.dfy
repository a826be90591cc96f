// Fixed-depth negamax without pruning (engine/minimax/negamax.h).
module Negamax {
  import opened Common
  import opened GameContract
  import Minimax

  /** A leaf's value from the point of view of the side searching it. */
  function LeafValue<S, M>(g: Game<S, M>, s: S, maximise: bool): int
  {
    if maximise then g.score(s, maximise) else -g.score(s, maximise)
  }

  /**
   * `Negamax::search`: an interior node is the maximum, from INT_MIN, of its
   * children's negated values, each searched one ply shallower with the flag
   * flipped. Here the negation is exact: this is the search the source
   * intends, and `SearchAsWritten` below is the one it computes, whose
   * 32-bit negation wraps -INT_MIN back to INT_MIN.
   */
  function Search<S, M>(g: Game<S, M>, s: S, depth: nat, maximise: bool): int
    decreases depth, 1
  {
    if Leaf(g, s, depth) then LeafValue(g, s, maximise)
    else Minimax.MaxFrom(IntMin, ChildValues(g, s, depth, maximise))
  }

  /** The negated values of the children of an interior node, in move-list order. */
  function ChildValues<S, M>(g: Game<S, M>, s: S, depth: nat, maximise: bool): (r: seq<int>)
    requires depth > 0
    ensures |r| == |g.moves(s)|
    decreases depth, 0
  {
    var cs := Children(g, s);
    seq(|cs|, i requires 0 <= i < |cs| => -Search(g, cs[i], depth - 1, !maximise))
  }

  /** Negating every element turns a minimum into a maximum. */
  lemma {:induction false} NegatedMin(a: int, xs: seq<int>, ys: seq<int>)
    requires |ys| == |xs| && forall i :: 0 <= i < |xs| ==> ys[i] == -xs[i]
    ensures -Minimax.MinFrom(a, xs) == Minimax.MaxFrom(-a, ys)
    decreases |xs|
  {
    if xs != [] {
      NegatedMin(if xs[0] < a then xs[0] else a, xs[1..], ys[1..]);
    }
  }

  /** Two starting points below some element give the same maximum. */
  lemma MaxFromStart(a: int, b: int, xs: seq<int>, i: nat)
    requires i < |xs| && a <= xs[i] && b <= xs[i]
    ensures Minimax.MaxFrom(a, xs) == Minimax.MaxFrom(b, xs)
  {
    var u, w := Minimax.MaxFrom(a, xs), Minimax.MaxFrom(b, xs);
    var j :| 0 <= j < |xs| && u == xs[j];
    var k :| 0 <= k < |xs| && w == xs[k];
  }

  /**
   * Negamax is minimax in disguise: on a bounded game it equals
   * `Minimax::search` for the maximiser and its negation for the minimiser.
   */
  lemma {:induction false} SearchIsMinimax<S, M>(g: Game<S, M>, s: S, depth: nat, maximise: bool)
    requires Bounded(g, s, depth)
    ensures Search(g, s, depth, maximise) ==
            if maximise then Minimax.Search(g, s, depth, maximise) else -Minimax.Search(g, s, depth, maximise)
    decreases depth
  {
    if !Leaf(g, s, depth) {
      var cs := Children(g, s);
      var nv := ChildValues(g, s, depth, maximise);
      var mv := Minimax.ChildValues(g, s, depth, maximise);
      forall i | 0 <= i < |cs|
        ensures nv[i] == if maximise then mv[i] else -mv[i]
        ensures -IntMax <= mv[i] <= IntMax
      {
        SearchIsMinimax(g, cs[i], depth - 1, !maximise);
        Minimax.SearchBounded(g, cs[i], depth - 1, !maximise);
      }
      if maximise {
        assert nv == mv;
      } else {
        // The sentinels INT_MAX and INT_MIN are not negations of each other,
        // but both lie below the first child's value.
        NegatedMin(IntMax, mv, nv);
        MaxFromStart(IntMin, -IntMax, nv, 0);
      }
    }
  }

  /** For a bounded game every negamax value fits the symmetric 32-bit range. */
  lemma SearchBounded<S, M>(g: Game<S, M>, s: S, depth: nat, maximise: bool)
    requires Bounded(g, s, depth)
    ensures -IntMax <= Search(g, s, depth, maximise) <= IntMax
  {
    SearchIsMinimax(g, s, depth, maximise);
    Minimax.SearchBounded(g, s, depth, maximise);
  }

  /**
   * A game with one decision between two decided positions, worth 1 and 2
   * whatever the flag.
   */
  function TwoLeaves(): Game<nat, nat>
  {
    Game(s => if s == 0 then [1, 2] else [], (s, m) => m, s => s != 0, s => s,
         (s, maximise) => s as int, s => None, s => Black, 0)
  }

  /**
   * The flag is not a change of sign: searching the same root as maximiser
   * and as minimiser does not give opposite values. Here the maximiser sees
   * the larger leaf and the minimiser the smaller one.
   */
  lemma FlagIsNotNegation()
    ensures Search(TwoLeaves(), 0, 1, true) == 2
    ensures Search(TwoLeaves(), 0, 1, false) == -1
    ensures Search(TwoLeaves(), 0, 1, true) != -Search(TwoLeaves(), 0, 1, false)
  {
    var g := TwoLeaves();
    assert Children(g, 0) == [1, 2];
    assert ChildValues(g, 0, 1, true) == [1, 2];
    assert ChildValues(g, 0, 1, false) == [-1, -2];
  }
  /**
   * The value of an interior node is the best of its moves: at least the
   * negated value of every child, and one of them unless none reaches the
   * starting value INT_MIN.
   */
  lemma SearchIsBestChild<S, M>(g: Game<S, M>, s: S, depth: nat, maximise: bool)
    requires !Leaf(g, s, depth)
    ensures forall i :: 0 <= i < |Children(g, s)| ==>
      Search(g, s, depth, maximise) >= -Search(g, Children(g, s)[i], depth - 1, !maximise)
    ensures Search(g, s, depth, maximise) == IntMin ||
      (exists i :: 0 <= i < |Children(g, s)| &&
         Search(g, s, depth, maximise) == -Search(g, Children(g, s)[i], depth - 1, !maximise))
  {
    var cs := Children(g, s);
    var vals := ChildValues(g, s, depth, maximise);
    assert forall i :: 0 <= i < |cs| ==> vals[i] == -Search(g, cs[i], depth - 1, !maximise);
  }

  // -------------------------------------------- the search as written ---

  /**
   * A leaf's value as the source computes it: the score as a 32-bit `int`,
   * negated with wrap-around for the minimiser.
   */
  function LeafAsWritten<S, M>(g: Game<S, M>, s: S, maximise: bool): (r: int)
    ensures IntMin <= r <= IntMax
    ensures -IntMax <= g.score(s, maximise) <= IntMax ==> r == LeafValue(g, s, maximise)
  {
    var v := Int32(g.score(s, maximise));
    if maximise then v else Neg32(v)
  }

  /** `Negamax::search` as the source computes it, with 32-bit negation. */
  function SearchAsWritten<S, M>(g: Game<S, M>, s: S, depth: nat, maximise: bool): (r: int)
    ensures IntMin <= r <= IntMax
    decreases depth, 1
  {
    if Leaf(g, s, depth) then LeafAsWritten(g, s, maximise)
    else Minimax.MaxFrom(IntMin, ChildValuesAsWritten(g, s, depth, maximise))
  }

  /** The children's values as written: each child's result negated in 32 bits. */
  function ChildValuesAsWritten<S, M>(g: Game<S, M>, s: S, depth: nat, maximise: bool): (r: seq<int>)
    requires depth > 0
    ensures |r| == |g.moves(s)|
    ensures forall i :: 0 <= i < |r| ==> IntMin <= r[i] <= IntMax
    decreases depth, 0
  {
    var cs := Children(g, s);
    seq(|cs|, i requires 0 <= i < |cs| => Neg32(SearchAsWritten(g, cs[i], depth - 1, !maximise)))
  }

  /**
   * On a bounded game nothing wraps: the search as written is the exact
   * negamax value.
   */
  lemma {:induction false} AsWrittenAgrees<S, M>(g: Game<S, M>, s: S, depth: nat, maximise: bool)
    requires Bounded(g, s, depth)
    ensures SearchAsWritten(g, s, depth, maximise) == Search(g, s, depth, maximise)
    decreases depth
  {
    if !Leaf(g, s, depth) {
      var cs := Children(g, s);
      var wv := ChildValuesAsWritten(g, s, depth, maximise);
      var nv := ChildValues(g, s, depth, maximise);
      forall i | 0 <= i < |cs|
        ensures wv[i] == nv[i]
      {
        AsWrittenAgrees(g, cs[i], depth - 1, !maximise);
        SearchBounded(g, cs[i], depth - 1, !maximise);
      }
      assert wv == nv;
    }
  }

  /**
   * A game whose root 0 has one move, to position 1, which has no move and
   * is never over; every position scores 0.
   */
  function StuckGame(): Game<nat, nat>
  {
    Game(s => if s == 0 then [1] else [], (s, m) => m, s => false, s => s,
         (s, maximise) => 0, s => None, s => Black, 0)
  }

  /**
   * The wrap-around at work. Position 1 has no move and is not over, so
   * its value is the sentinel INT_MIN; its parent negates that to -INT_MIN,
   * which a 32-bit `int` wraps back to INT_MIN. The root's only move, the
   * one that leaves the opponent stuck, is then worth the least value there
   * is, below the negation of the child's value, where the exact search
   * gives 2^31.
   */
  lemma MovelessChildWraps()
    ensures SearchAsWritten(StuckGame(), 1, 1, false) == IntMin
    ensures SearchAsWritten(StuckGame(), 0, 2, true) == IntMin
    ensures SearchAsWritten(StuckGame(), 0, 2, true) < -SearchAsWritten(StuckGame(), 1, 1, false)
    ensures Search(StuckGame(), 0, 2, true) == -IntMin
  {
    var g := StuckGame();
    assert Children(g, 0) == [1];
    assert Children(g, 1) == [];
    assert ChildValuesAsWritten(g, 1, 1, false) == [];
    assert ChildValues(g, 1, 1, false) == [];
    assert ChildValuesAsWritten(g, 0, 2, true) == [IntMin];
    assert ChildValues(g, 0, 2, true) == [-IntMin];
  }
}
