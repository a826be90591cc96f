// Fixed-depth minimax without pruning (engine/minimax/minimax.h).
module Minimax {
  import opened Common
  import opened GameContract

  /** `std::max` folded left to right over `xs`, starting from `a`: the maximum. */
  function MaxFrom(a: int, xs: seq<int>): (r: int)
    ensures r >= a && forall i :: 0 <= i < |xs| ==> r >= xs[i]
    ensures r == a || exists i :: 0 <= i < |xs| && r == xs[i]
    decreases |xs|
  {
    if xs == [] then a else MaxFrom(if a < xs[0] then xs[0] else a, xs[1..])
  }

  /** `std::min` folded left to right over `xs`, starting from `a`: the minimum. */
  function MinFrom(a: int, xs: seq<int>): (r: int)
    ensures r <= a && forall i :: 0 <= i < |xs| ==> r <= xs[i]
    ensures r == a || exists i :: 0 <= i < |xs| && r == xs[i]
    decreases |xs|
  {
    if xs == [] then a else MinFrom(if xs[0] < a then xs[0] else a, xs[1..])
  }

  /**
   * `Minimax::search`: a leaf is scored from the maximiser's flag; an interior
   * node folds its children's values, searched one ply shallower with the
   * flag flipped, into INT_MAX with min or into INT_MIN with max.
   */
  function Search<S, M>(g: Game<S, M>, s: S, depth: nat, maximise: bool): int
    decreases depth, 1
  {
    if Leaf(g, s, depth) then g.score(s, maximise)
    else if maximise then MaxFrom(IntMin, ChildValues(g, s, depth, maximise))
    else MinFrom(IntMax, ChildValues(g, s, depth, maximise))
  }

  /** The values of the children of an interior node, in move-list order. */
  function ChildValues<S, M>(g: Game<S, M>, s: S, depth: nat, maximise: bool): (r: seq<int>)
    requires depth > 0
    ensures |r| == |g.moves(s)|
    decreases depth, 0
  {
    var cs := Children(g, s);
    seq(|cs|, i requires 0 <= i < |cs| => Search(g, cs[i], depth - 1, !maximise))
  }

  /**
   * An interior maximising node is worth the best of its children, and is
   * worth exactly one of them unless it has no move (then INT_MIN).
   */
  lemma MaxNode<S, M>(g: Game<S, M>, s: S, depth: nat)
    requires !Leaf(g, s, depth)
    ensures var v := Search(g, s, depth, true);
      (forall i :: 0 <= i < |Children(g, s)| ==> Search(g, Children(g, s)[i], depth - 1, false) <= v) &&
      (if |Children(g, s)| == 0 then v == IntMin
       else v == IntMin || exists i :: 0 <= i < |Children(g, s)| && v == Search(g, Children(g, s)[i], depth - 1, false))
  {
    var vs := ChildValues(g, s, depth, true);
    assert forall i :: 0 <= i < |vs| ==> vs[i] == Search(g, Children(g, s)[i], depth - 1, false);
  }

  /**
   * An interior minimising node is worth the worst of its children, and is
   * worth exactly one of them unless it has no move (then INT_MAX).
   */
  lemma MinNode<S, M>(g: Game<S, M>, s: S, depth: nat)
    requires !Leaf(g, s, depth)
    ensures var v := Search(g, s, depth, false);
      (forall i :: 0 <= i < |Children(g, s)| ==> v <= Search(g, Children(g, s)[i], depth - 1, true)) &&
      (if |Children(g, s)| == 0 then v == IntMax
       else v == IntMax || exists i :: 0 <= i < |Children(g, s)| && v == Search(g, Children(g, s)[i], depth - 1, true))
  {
    var vs := ChildValues(g, s, depth, false);
    assert forall i :: 0 <= i < |vs| ==> vs[i] == Search(g, Children(g, s)[i], depth - 1, true);
  }

  /** For a bounded game every value fits the symmetric 32-bit range. */
  lemma {:induction false} SearchBounded<S, M>(g: Game<S, M>, s: S, depth: nat, maximise: bool)
    requires Bounded(g, s, depth)
    ensures -IntMax <= Search(g, s, depth, maximise) <= IntMax
    decreases depth
  {
    if !Leaf(g, s, depth) {
      var cs := Children(g, s);
      forall i | 0 <= i < |cs|
        ensures -IntMax <= Search(g, cs[i], depth - 1, !maximise) <= IntMax
      {
        SearchBounded(g, cs[i], depth - 1, !maximise);
      }
      if maximise { MaxNode(g, s, depth); } else { MinNode(g, s, depth); }
    }
  }
}
