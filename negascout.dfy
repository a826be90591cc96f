// Principal variation search (engine/minimax/negascout.h): negamax with an
// alpha-beta window, children tried in order of their static score, a null
// window for every child after the first, and a re-search when a null window
// fails high inside the full window. `Pvs` and `Search` are the search with a
// root window of (-INT_MAX, INT_MAX), inside which no negation leaves the
// 32-bit range; `PvsAsWritten` and `SearchAsWritten` are the source's search
// from (INT_MIN, INT_MAX) with 32-bit negation, where -INT_MIN wraps.
module Negascout {
  import opened Common
  import opened GameContract
  import Minimax
  import Negamax
  import opened Sort

  /**
   * The fail-soft contract of a search result `r` for the window
   * (alpha, beta) when the position's true value is `v`: a result at or
   * below alpha is an upper bound, one at or above beta is a lower bound, and
   * one strictly inside the window is exact.
   */
  predicate FailSoft(alpha: int, beta: int, r: int, v: int)
  {
    (r <= alpha ==> v <= r) && (r >= beta ==> r <= v) && (alpha < r < beta ==> r == v)
  }

  /** A value inside the closed window is found exactly. */
  lemma FailSoftExact(alpha: int, beta: int, r: int, v: int)
    requires alpha < beta && FailSoft(alpha, beta, r, v) && alpha <= v <= beta
    ensures r == v
  {
  }

  /**
   * `Negascout::pvs`. Its result bounds, or equals, the negamax value of the
   * position as the window promises; an interior node never returns less
   * than the incoming alpha.
   */
  method Pvs<S, M>(g: Game<S, M>, s: S, alpha: int, beta: int, depth: nat, maximise: bool)
    returns (r: int)
    requires -IntMax <= alpha < beta <= IntMax
    ensures FailSoft(alpha, beta, r, Negamax.Search(g, s, depth, maximise))
    ensures !Leaf(g, s, depth) ==> r >= alpha
    decreases depth, 2
  {
    if Leaf(g, s, depth) {
      return if maximise then g.score(s, maximise) else -g.score(s, maximise);
    }
    var children, sorter := OrderChildren(g, s, maximise);
    ghost var vals := Negamax.ChildValues(g, s, depth, maximise);
    assert Negamax.Search(g, s, depth, maximise) == Minimax.MaxFrom(IntMin, vals);
    r := TryChildren(g, children, sorter, vals, alpha, beta, depth, maximise);
  }

  /**
   * The loop of `pvs` over the ordered children: alpha rises to each child's
   * result, the window narrows to a null window after the first child, and
   * the search stops as soon as alpha reaches beta. `vals` are the children's
   * negamax values seen from this node.
   */
  method TryChildren<S, M>(g: Game<S, M>, children: seq<S>, sorter: IndexSort, ghost vals: seq<int>,
                           alpha: int, beta: int, depth: nat, maximise: bool)
    returns (r: int)
    requires -IntMax <= alpha < beta <= IntMax && depth > 0
    requires sorter.Valid() && sorter.size == |children| == |vals|
    requires forall k :: 0 <= k < |vals| ==> vals[k] == -Negamax.Search(g, children[k], depth - 1, !maximise)
    ensures FailSoft(alpha, beta, r, Minimax.MaxFrom(IntMin, vals)) && r >= alpha
    decreases depth, 1
  {
    var n := |children|;
    ghost var order := sorter.data[..];
    var a, b := alpha, beta;
    ghost var w := 0;  // the child whose value alpha has become, if any
    var i := 0;
    while i < n
      invariant 0 <= i <= n
      invariant alpha <= a < beta && b == (if i == 0 then beta else a + 1)
      invariant forall t :: 0 <= t < i ==> vals[order[t].index] <= a
      invariant a == alpha || (w < n && vals[w] == a)
    {
      var k := sorter.At(i).index;
      assert order[i].index == k < n;
      var res := SearchChild(g, children[k], a, b, beta, i > 0, depth - 1, !maximise);
      if a < res {
        a, w := res, k;
      }
      if a >= beta {
        // cutoff: the value is at least this child's
        Cutoff(alpha, beta, a, vals, k);
        return a;
      }
      b := a + 1;
      i := i + 1;
    }
    forall k | 0 <= k < n ensures vals[k] <= a {
      assert HasIndex(order, k);
    }
    AllTried(alpha, beta, a, vals, w);
    r := a;
  }

  /** A child that fails high fails its parent high too. */
  lemma Cutoff(alpha: int, beta: int, r: int, vals: seq<int>, k: nat)
    requires alpha < beta <= r && k < |vals| && r <= vals[k]
    ensures FailSoft(alpha, beta, r, Minimax.MaxFrom(IntMin, vals))
  {
  }

  /** After every child: alpha is the value if it rose, and an upper bound if not. */
  lemma AllTried(alpha: int, beta: int, a: int, vals: seq<int>, w: nat)
    requires IntMin <= alpha <= a < beta
    requires forall k :: 0 <= k < |vals| ==> vals[k] <= a
    requires a == alpha || (w < |vals| && vals[w] == a)
    ensures FailSoft(alpha, beta, a, Minimax.MaxFrom(IntMin, vals))
  {
  }

  /**
   * One child of `pvs`, seen from the parent: searched with the window
   * (alpha, b) — the full window for the first child, the null window
   * (alpha, alpha + 1) for later ones — and searched again with the full
   * window when a later child's result lands strictly inside it.
   */
  method SearchChild<S, M>(g: Game<S, M>, child: S, alpha: int, b: int, beta: int, later: bool,
                           depth: nat, maximise: bool)
    returns (res: int)
    requires -IntMax <= alpha < b <= beta <= IntMax
    requires b == (if later then alpha + 1 else beta)
    ensures FailSoft(alpha, beta, res, -Negamax.Search(g, child, depth, maximise))
    decreases depth + 1, 0
  {
    res := Pvs(g, child, -b, -alpha, depth, maximise);
    res := -res;
    if later && alpha < res && res < beta {
      res := Pvs(g, child, -beta, -alpha, depth, maximise);
      res := -res;
    }
  }

  /** Each entry carries the static score of the child it indexes. */
  predicate Scored(entries: seq<Entry>, scores: seq<int>)
  {
    forall j :: 0 <= j < |entries| ==>
      entries[j].index < |scores| && entries[j].value == scores[entries[j].index]
  }

  lemma PermutationKeepsScores(a: seq<Entry>, b: seq<Entry>, scores: seq<int>)
    requires multiset(a) == multiset(b) && Scored(a, scores)
    ensures Scored(b, scores)
  {
    forall j | 0 <= j < |b|
      ensures b[j].index < |scores| && b[j].value == scores[b[j].index]
    {
      assert b[j] in multiset(a);
    }
  }

  /** The static scores `score(!maximise)` of the children, in move-list order. */
  function StaticScores<S, M>(g: Game<S, M>, s: S, maximise: bool): (r: seq<int>)
    ensures |r| == |Children(g, s)|
  {
    var cs := Children(g, s);
    seq(|cs|, i requires 0 <= i < |cs| => g.score(cs[i], !maximise))
  }

  /**
   * Builds the children of a node and the order to try them in: every child
   * once, by static score, best first for the maximiser.
   */
  method OrderChildren<S, M>(g: Game<S, M>, s: S, maximise: bool)
    returns (children: seq<S>, sorter: IndexSort)
    ensures children == Children(g, s)
    ensures fresh(sorter) && fresh(sorter.data) && sorter.Valid() && sorter.size == |children|
    ensures Sorted(sorter.data[..], maximise) && Scored(sorter.data[..], StaticScores(g, s, maximise))
  {
    var ml := g.moves(s);
    var n := |ml|;
    children := [];
    sorter := new IndexSort(n);
    ghost var scores := StaticScores(g, s, maximise);
    var i := 0;
    while i < n
      invariant 0 <= i <= n && children == Children(g, s)[..i]
      invariant sorter.Valid() && sorter.size == n && fresh(sorter) && fresh(sorter.data)
      invariant forall j :: 0 <= j < n ==> sorter.data[j].index == j
      invariant forall j :: 0 <= j < i ==> sorter.data[j].value == scores[j]
    {
      children := children + [g.play(s, ml[i])];
      sorter.SetValue(i, g.score(children[i], !maximise));
      i := i + 1;
    }
    ghost var before := sorter.data[..];
    assert Scored(before, scores);
    if maximise {
      sorter.RSort();
    } else {
      sorter.Sort();
    }
    PermutationKeepsScores(before, sorter.data[..], scores);
  }

  /**
   * `Negascout::search` with a root window of (-INT_MAX, INT_MAX): the
   * negated result of a full-window search, which is the negated negamax
   * value whenever that value fits the window.
   */
  method Search<S, M>(g: Game<S, M>, s: S, depth: nat, maximise: bool) returns (r: int)
    ensures -IntMax <= Negamax.Search(g, s, depth, maximise) <= IntMax ==>
            r == -Negamax.Search(g, s, depth, maximise)
    ensures Bounded(g, s, depth) ==>
            r == if maximise then -Minimax.Search(g, s, depth, maximise)
                 else Minimax.Search(g, s, depth, maximise)
  {
    var p := Pvs(g, s, -IntMax, IntMax, depth, maximise);
    r := -p;
    if Bounded(g, s, depth) {
      Negamax.SearchBounded(g, s, depth, maximise);
      Negamax.SearchIsMinimax(g, s, depth, maximise);
    }
  }

  // -------------------------------------------- the search as written ---

  /**
   * `pvs` as the source computes it, with 32-bit negation. The children of
   * a node s are tried in the order `order(s, maximise)`, a list of
   * indices into the children: the order the source's sort produces.
   */
  function PvsAsWritten<S, M>(g: Game<S, M>, s: S, alpha: int, beta: int, depth: nat, maximise: bool,
                              order: (S, bool) -> seq<nat>): (r: int)
    requires IntMin <= alpha <= IntMax && IntMin <= beta <= IntMax
    ensures IntMin <= r <= IntMax
    decreases depth, 1
  {
    if Leaf(g, s, depth) then
      var v := Int32(g.score(s, maximise));
      if maximise then v else Neg32(v)
    else TryAsWritten(g, Children(g, s), order(s, maximise), 0, alpha, beta, beta, depth, maximise, order)
  }

  /** The loop of `pvs` as written, from the i-th child in the order `ord` on. */
  function TryAsWritten<S, M>(g: Game<S, M>, children: seq<S>, ord: seq<nat>, i: nat, alpha: int, b: int, beta: int,
                              depth: nat, maximise: bool, order: (S, bool) -> seq<nat>): (r: int)
    requires IntMin <= alpha <= IntMax && IntMin <= b <= IntMax && IntMin <= beta <= IntMax && depth > 0
    ensures IntMin <= r <= IntMax
    decreases depth, 0, |ord| - i
  {
    if i >= |ord| || ord[i] >= |children| then alpha
    else
      var child := children[ord[i]];
      var first := Neg32(PvsAsWritten(g, child, Neg32(b), Neg32(alpha), depth - 1, !maximise, order));
      var result :=
        if i > 0 && alpha < first < beta
        then Neg32(PvsAsWritten(g, child, Neg32(beta), Neg32(alpha), depth - 1, !maximise, order))
        else first;
      var a := if alpha < result then result else alpha;
      if a >= beta then a
      else TryAsWritten(g, children, ord, i + 1, a, a + 1, beta, depth, maximise, order)
  }

  /** `Negascout::search` as written: the negated result of `pvs` from (INT_MIN, INT_MAX). */
  function SearchAsWritten<S, M>(g: Game<S, M>, s: S, depth: nat, maximise: bool, order: (S, bool) -> seq<nat>): (r: int)
    ensures IntMin <= r <= IntMax
  {
    Neg32(PvsAsWritten(g, s, IntMin, IntMax, depth, maximise, order))
  }

  /**
   * A game of three plies: the root 0 has one move, to 1; position 1 has
   * two, to 2 and to 3; 2 and 3 have one each, to the decided positions 4
   * and 5. Every position scores the same for both flags: 1 for position 3,
   * 10 for 4, 5 for 5 and 0 otherwise.
   */
  function WrapGame(): Game<nat, nat>
  {
    Game(s => if s == 0 then [1] else if s == 1 then [2, 3] else if s == 2 then [4] else if s == 3 then [5] else [],
         (s, m) => m, s => s >= 4, s => s,
         (s, maximise) => if s == 3 then 1 else if s == 4 then 10 else if s == 5 then 5 else 0,
         s => None, s => Black, 0)
  }

  /** The order the source tries the children of `WrapGame` in: its only move, or both moves of position 1 in turn. */
  function WrapOrder(s: nat, maximise: bool): seq<nat>
  {
    if s == 1 then [0, 1] else if s <= 3 then [0] else []
  }

  /**
   * `WrapOrder` is the order the source's sort gives position 1, searched by
   * the minimiser: its children's static scores `score(true)`, ascending.
   */
  lemma WrapOrderSorted()
    ensures StaticScores(WrapGame(), 1, false) == [0, 1]
    ensures Sorted([Entry(0, 0), Entry(1, 1)], false)
  {
    assert Children(WrapGame(), 1) == [2, 3];
  }

  /**
   * The wrap-around at work. From the root window (INT_MIN, INT_MAX) the
   * first child is searched with (-INT_MAX, -INT_MIN), which wraps to
   * (INT_MIN + 1, INT_MIN): alpha is past beta, so position 1 returns after
   * its first child, the one its static scores rank first. The search then
   * answers -10 where the negamax value -5 is due.
   */
  lemma WindowWrapCutsShort()
    ensures SearchAsWritten(WrapGame(), 0, 3, true, WrapOrder) == -10
    ensures -Negamax.Search(WrapGame(), 0, 3, true) == -5
  {
    var g := WrapGame();
    assert Children(g, 0) == [1];
    assert Children(g, 1) == [2, 3];
    assert Children(g, 2) == [4];
    assert Children(g, 3) == [5];
    assert PvsAsWritten(g, 4, IntMin, IntMax, 0, false, WrapOrder) == -10;
    assert TryAsWritten(g, [4], [0], 0, IntMin, IntMax, IntMax, 1, true, WrapOrder) == 10;
    assert PvsAsWritten(g, 2, IntMin, IntMax, 1, true, WrapOrder) == 10;
    assert TryAsWritten(g, [2, 3], [0, 1], 0, IntMin + 1, IntMin, IntMin, 2, false, WrapOrder) == -10;
    assert PvsAsWritten(g, 1, IntMin + 1, IntMin, 2, false, WrapOrder) == -10;
    assert TryAsWritten(g, [1], [0], 0, IntMin, IntMax, IntMax, 3, true, WrapOrder) == 10;
    assert Negamax.ChildValues(g, 2, 1, true) == [10];
    assert Negamax.ChildValues(g, 3, 1, true) == [5];
    assert Negamax.ChildValues(g, 1, 2, false) == [-10, -5];
    assert Negamax.ChildValues(g, 0, 3, true) == [5];
  }
}
