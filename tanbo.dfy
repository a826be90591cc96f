// Tanbo (games/tanbo.h): roots grow from the stones of each group; a group
// that cannot grow any further dies, and a player with no stones loses.
module Tanbo {
  import opened Common
  import opened SquareGrid
  import C4 = Connect4
  import C6 = Connect6
  import Turns = State

  // ------------------------------------------------------ neighbours ---

  /** The cell one step from i in direction d, when `valid(d, i)` allows the step. */
  function Towards(n: nat, d: C4.Direction, i: nat): (r: set<nat>)
    ensures forall j :: j in r ==> j < Area(n)
  {
    if C6.ValidDir(n, d, i) then {C6.MoveDir(n, d, i)} else {}
  }

  /** The orthogonal neighbours of cell i on the board: the `{ N, S, E, W }` steps. */
  function Neighbours(n: nat, i: nat): (r: set<nat>)
    ensures forall j :: j in r ==> j < Area(n)
  {
    Towards(n, C4.N, i) + Towards(n, C4.S, i) + Towards(n, C4.E, i) + Towards(n, C4.W, i)
  }

  /** Two cells of the board with the same column and row are the same cell. */
  lemma SameCell(n: nat, a: nat, b: nat)
    requires n > 0 && X(n, a) == X(n, b) && Y(n, a) == Y(n, b)
    ensures a == b
  {
    IndexOfXY(n, a);
    IndexOfXY(n, b);
  }

  /** A step and the step back: `move_dir(N)` is undone by `move_dir(S)`, and `E` by `W`. */
  lemma StepBack(n: nat, d: C4.Direction, i: nat)
    requires C6.ValidDir(n, d, i) && d in {C4.N, C4.S, C4.E, C4.W}
    ensures C6.ValidDir(n, C4.Reverse(d), C6.MoveDir(n, d, i))
    ensures C6.MoveDir(n, C4.Reverse(d), C6.MoveDir(n, d, i)) == i
  {
    var j := C6.MoveDir(n, d, i);
    var k := C6.MoveDir(n, C4.Reverse(d), j);
    SameCell(n, k, i);
  }

  /** Adjacency is symmetric. */
  lemma NeighboursSymmetric(n: nat, i: nat, j: nat)
    requires j in Neighbours(n, i)
    ensures i in Neighbours(n, j)
  {
    if j in Towards(n, C4.N, i) {
      StepBack(n, C4.N, i);
    } else if j in Towards(n, C4.S, i) {
      StepBack(n, C4.S, i);
    } else if j in Towards(n, C4.E, i) {
      StepBack(n, C4.E, i);
    } else {
      StepBack(n, C4.W, i);
    }
  }

  // ---------------------------------------------------------- groups ---

  /** Cell i is on the board and has colour c. */
  predicate Holds(col: seq<Color>, i: nat, c: Color)
  {
    i < |col| && col[i] == c
  }

  /** A walk through orthogonally adjacent cells of colour c. */
  ghost predicate Path(n: nat, col: seq<Color>, c: Color, p: seq<nat>)
  {
    |p| >= 1 &&
    (forall t :: 0 <= t < |p| ==> Holds(col, p[t], c)) &&
    (forall t :: 0 < t < |p| ==> p[t] in Neighbours(n, p[t - 1]))
  }

  ghost predicate Reach(n: nat, col: seq<Color>, c: Color, a: nat, b: nat)
  {
    exists p :: Path(n, col, c, p) && p[0] == a && p[|p| - 1] == b
  }

  /** The 4-connected group of colour c that holds cell a. */
  ghost function Group(n: nat, col: seq<Color>, c: Color, a: nat): set<nat>
  {
    set j | 0 <= j < |col| && Reach(n, col, c, a, j)
  }

  /** Every neighbour of i with colour c lies in `seen`. */
  ghost predicate Enclosed(n: nat, col: seq<Color>, c: Color, seen: set<nat>, i: nat)
  {
    forall j :: j in Neighbours(n, i) && Holds(col, j, c) ==> j in seen
  }

  /** Every cell of `s` with colour c has all its neighbours of colour c in `s`. */
  ghost predicate Closed(n: nat, col: seq<Color>, c: Color, s: set<nat>)
  {
    forall i {:trigger Enclosed(n, col, c, s, i)} :: i in s && Holds(col, i, c) ==> Enclosed(n, col, c, s, i)
  }

  lemma ReachSelf(n: nat, col: seq<Color>, c: Color, a: nat)
    requires Holds(col, a, c)
    ensures Reach(n, col, c, a, a)
  {
    assert Path(n, col, c, [a]);
  }

  lemma ReachPrepend(n: nat, col: seq<Color>, c: Color, a: nat, b: nat, e: nat)
    requires Holds(col, a, c) && b in Neighbours(n, a) && Reach(n, col, c, b, e)
    ensures Reach(n, col, c, a, e)
  {
    var q :| Path(n, col, c, q) && q[0] == b && q[|q| - 1] == e;
    var p := [a] + q;
    assert forall t :: 0 < t < |p| ==> p[t] == q[t - 1];
    assert Path(n, col, c, p);
  }

  /** Walks can be walked backwards. */
  lemma ReachSymmetric(n: nat, col: seq<Color>, c: Color, a: nat, b: nat)
    requires Reach(n, col, c, a, b)
    ensures Reach(n, col, c, b, a)
  {
    var p :| Path(n, col, c, p) && p[0] == a && p[|p| - 1] == b;
    var q := seq(|p|, t requires 0 <= t < |p| => p[|p| - 1 - t]);
    forall t | 0 < t < |q|
      ensures q[t] in Neighbours(n, q[t - 1])
    {
      NeighboursSymmetric(n, p[|p| - 1 - t], p[|p| - t]);
    }
    assert Path(n, col, c, q);
  }

  /** Walks can be joined end to start. */
  lemma ReachTransitive(n: nat, col: seq<Color>, c: Color, a: nat, b: nat, e: nat)
    requires Reach(n, col, c, a, b) && Reach(n, col, c, b, e)
    ensures Reach(n, col, c, a, e)
  {
    var p :| Path(n, col, c, p) && p[0] == a && p[|p| - 1] == b;
    var q :| Path(n, col, c, q) && q[0] == b && q[|q| - 1] == e;
    var r := p + q[1..];
    assert forall t :: |p| <= t < |r| ==> r[t] == q[t - |p| + 1];
    assert Path(n, col, c, r);
  }

  /** A walk that starts in a closed set never leaves it. */
  lemma {:induction false} PathStaysIn(n: nat, col: seq<Color>, c: Color, s: set<nat>, p: seq<nat>, t: nat)
    requires Path(n, col, c, p) && p[0] in s && t < |p| && Closed(n, col, c, s)
    ensures p[t] in s
  {
    if t > 0 {
      PathStaysIn(n, col, c, s, p, t - 1);
      assert Enclosed(n, col, c, s, p[t - 1]);
    }
  }

  /** Cells that reach each other have the same group. */
  lemma GroupOfMember(n: nat, col: seq<Color>, c: Color, a: nat, b: nat)
    requires Reach(n, col, c, a, b)
    ensures Group(n, col, c, b) == Group(n, col, c, a)
  {
    ReachSymmetric(n, col, c, a, b);
    forall e | Reach(n, col, c, a, e)
      ensures Reach(n, col, c, b, e)
    {
      ReachTransitive(n, col, c, b, a, e);
    }
    forall e | Reach(n, col, c, b, e)
      ensures Reach(n, col, c, a, e)
    {
      ReachTransitive(n, col, c, a, b, e);
    }
  }

  /** A cell of colour c is in its own group, and every cell of a group has colour c. */
  lemma GroupHasSelf(n: nat, col: seq<Color>, c: Color, a: nat)
    requires Holds(col, a, c)
    ensures a in Group(n, col, c, a)
    ensures forall j :: j in Group(n, col, c, a) ==> Holds(col, j, c)
  {
    ReachSelf(n, col, c, a);
    forall j | j in Group(n, col, c, a)
      ensures Holds(col, j, c)
    {
      var p :| Path(n, col, c, p) && p[0] == a && p[|p| - 1] == j;
    }
  }

  /**
   * A set of cells that all reach a, inside a closed set whose other cells of
   * colour c cannot reach a, is a's group.
   */
  lemma GroupIsFresh(n: nat, col: seq<Color>, c: Color, a: nat, grown: set<nat>, seen: set<nat>)
    requires grown <= seen && a in grown && Closed(n, col, c, seen)
    requires forall j :: j in grown ==> j < |col| && Reach(n, col, c, a, j)
    requires forall j :: j in seen - grown && Holds(col, j, c) ==> !Reach(n, col, c, a, j)
    ensures Group(n, col, c, a) == grown
  {
    forall j | j in Group(n, col, c, a)
      ensures j in grown
    {
      var p :| Path(n, col, c, p) && p[0] == a && p[|p| - 1] == j;
      PathStaysIn(n, col, c, seen, p, |p| - 1);
    }
  }

  // ------------------------------------------------------ extensions ---

  /** `valid_move(c, s, k, i)`: no neighbour of k other than i has colour c. */
  predicate Free(n: nat, col: seq<Color>, c: Color, k: nat, i: nat)
  {
    forall j :: j in Neighbours(n, k) && j != i ==> !Holds(col, j, c)
  }

  /** Cell k is a root the stone on i may grow: an empty neighbour touching no other stone of c. */
  predicate Extends(n: nat, col: seq<Color>, c: Color, i: nat, k: nat)
  {
    k in Neighbours(n, i) && Holds(col, k, None) && Free(n, col, c, k, i)
  }

  /** Each empty cell is an extension of at most one stone of a colour. */
  lemma ExtensionOwner(n: nat, col: seq<Color>, c: Color, i: nat, j: nat, k: nat)
    requires Holds(col, i, c) && Holds(col, j, c) && Extends(n, col, c, i, k) && Extends(n, col, c, j, k)
    ensures i == j
  {
    NeighboursSymmetric(n, i, k);
  }

  /** The extension found in direction d from stone i, if any. */
  function ExtFrom(n: nat, col: seq<Color>, c: Color, i: nat, d: C4.Direction): seq<nat>
  {
    if C6.ValidDir(n, d, i) && Extends(n, col, c, i, C6.MoveDir(n, d, i)) then [C6.MoveDir(n, d, i)] else []
  }

  /** The directions `find_moves` and `trace` try, in their order. */
  const Orth: seq<C4.Direction> := [C4.N, C4.S, C4.E, C4.W]

  /** The extensions found in the first d directions from stone i. */
  function ExtUpTo(n: nat, col: seq<Color>, c: Color, i: nat, d: nat): seq<nat>
    requires d <= 4
  {
    if d == 0 then [] else ExtUpTo(n, col, c, i, d - 1) + ExtFrom(n, col, c, i, Orth[d - 1])
  }

  /** What `find_moves(c, s, ml, i)` adds to the list, in order. */
  function ExtList(n: nat, col: seq<Color>, c: Color, i: nat): seq<nat>
  {
    ExtUpTo(n, col, c, i, 4)
  }

  predicate Distinct(s: seq<nat>)
  {
    forall t, u :: 0 <= t < u < |s| ==> s[t] != s[u]
  }

  /** The four directions lead to four different cells. */
  lemma OrthDistinct(n: nat, i: nat, d: nat, e: nat)
    requires d < e < 4 && C6.ValidDir(n, Orth[d], i) && C6.ValidDir(n, Orth[e], i)
    ensures C6.MoveDir(n, Orth[d], i) != C6.MoveDir(n, Orth[e], i)
  {
  }

  /** Every cell listed from the first d directions is the step in one of them, and an extension. */
  lemma {:induction false} ExtUpToMembers(n: nat, col: seq<Color>, c: Color, i: nat, d: nat, k: nat)
    requires d <= 4 && k in ExtUpTo(n, col, c, i, d)
    ensures Extends(n, col, c, i, k)
    ensures exists e :: 0 <= e < d && C6.ValidDir(n, Orth[e], i) && k == C6.MoveDir(n, Orth[e], i)
  {
    if k !in ExtUpTo(n, col, c, i, d - 1) {
      assert C6.ValidDir(n, Orth[d - 1], i) && k == C6.MoveDir(n, Orth[d - 1], i);
    } else {
      ExtUpToMembers(n, col, c, i, d - 1, k);
    }
  }

  /** The step in direction d is not among the cells listed from the directions before it. */
  lemma ExtUpToFresh(n: nat, col: seq<Color>, c: Color, i: nat, d: nat)
    requires d < 4 && C6.ValidDir(n, Orth[d], i)
    ensures C6.MoveDir(n, Orth[d], i) !in ExtUpTo(n, col, c, i, d)
  {
    if C6.MoveDir(n, Orth[d], i) in ExtUpTo(n, col, c, i, d) {
      ExtUpToMembers(n, col, c, i, d, C6.MoveDir(n, Orth[d], i));
      var e :| 0 <= e < d && C6.ValidDir(n, Orth[e], i) && C6.MoveDir(n, Orth[d], i) == C6.MoveDir(n, Orth[e], i);
      OrthDistinct(n, i, e, d);
    }
  }

  /** A list without repeats stays so when a new cell is appended. */
  lemma DistinctAppend(s: seq<nat>, k: nat)
    requires Distinct(s) && k !in s
    ensures Distinct(s + [k])
  {
  }

  /** `find_moves` from stone i lists each cell at most once. */
  lemma {:induction false} ExtUpToDistinct(n: nat, col: seq<Color>, c: Color, i: nat, d: nat)
    requires d <= 4
    ensures Distinct(ExtUpTo(n, col, c, i, d))
  {
    if d > 0 {
      ExtUpToDistinct(n, col, c, i, d - 1);
      var prev, last := ExtUpTo(n, col, c, i, d - 1), ExtFrom(n, col, c, i, Orth[d - 1]);
      if last == [] {
        assert prev + last == prev;
      } else {
        ExtUpToFresh(n, col, c, i, d - 1);
        DistinctAppend(prev, last[0]);
        assert last == [last[0]];
      }
    }
  }

  /** Each extension found in a direction before d is listed. */
  lemma {:induction false} ExtUpToHas(n: nat, col: seq<Color>, c: Color, i: nat, d: nat, e: nat)
    requires e < d <= 4 && C6.ValidDir(n, Orth[e], i) && Extends(n, col, c, i, C6.MoveDir(n, Orth[e], i))
    ensures C6.MoveDir(n, Orth[e], i) in ExtUpTo(n, col, c, i, d)
  {
    if e < d - 1 {
      ExtUpToHas(n, col, c, i, d - 1, e);
    }
  }

  /** `find_moves` from stone i lists exactly the extensions of i, each once. */
  lemma ExtListExact(n: nat, col: seq<Color>, c: Color, i: nat)
    ensures Distinct(ExtList(n, col, c, i))
    ensures forall k :: k in ExtList(n, col, c, i) <==> Extends(n, col, c, i, k)
  {
    ExtUpToDistinct(n, col, c, i, 4);
    forall k | k in ExtList(n, col, c, i)
      ensures Extends(n, col, c, i, k)
    {
      ExtUpToMembers(n, col, c, i, 4, k);
    }
    forall k | Extends(n, col, c, i, k)
      ensures k in ExtList(n, col, c, i)
    {
      if k in Towards(n, C4.N, i) {
        ExtUpToHas(n, col, c, i, 4, 0);
      } else if k in Towards(n, C4.S, i) {
        ExtUpToHas(n, col, c, i, 4, 1);
      } else if k in Towards(n, C4.E, i) {
        ExtUpToHas(n, col, c, i, 4, 2);
      } else {
        ExtUpToHas(n, col, c, i, 4, 3);
      }
    }
  }

  // ------------------------------------------------- trace bookkeeping ---

  function ToSet(l: seq<nat>): set<nat>
  {
    set k | k in l
  }

  /** The stones of colour c among the cells of s. */
  ghost function Stones(col: seq<Color>, c: Color, s: set<nat>): set<nat>
  {
    set e | e in s && Holds(col, e, c)
  }

  lemma StonesSplit(col: seq<Color>, c: Color, a: set<nat>, b: set<nat>, s: set<nat>)
    requires a <= b <= s
    ensures |Stones(col, c, s - a)| == |Stones(col, c, b - a)| + |Stones(col, c, s - b)|
  {
    assert Stones(col, c, s - a) == Stones(col, c, b - a) + Stones(col, c, s - b);
  }

  /** Every empty cell among the seen ones is an extension of a seen stone of c. */
  ghost predicate Claimed(n: nat, col: seq<Color>, c: Color, seen: set<nat>)
  {
    forall k {:trigger Holds(col, k, None)} :: k in seen && Holds(col, k, None) ==>
      exists j :: j in seen && Holds(col, j, c) && Extends(n, col, c, j, k)
  }

  /** An extension of stone i is not seen yet while no seen cell other than i claims it. */
  lemma Unclaimed(n: nat, col: seq<Color>, c: Color, seen: set<nat>, i: nat, k: nat)
    requires IsPlayer(c) && Holds(col, i, c) && Claimed(n, col, c, seen - {i}) && Extends(n, col, c, i, k)
    ensures k !in seen
  {
    if k in seen {
      assert k in seen - {i};
      var j :| j in seen - {i} && Holds(col, j, c) && Extends(n, col, c, j, k);
      ExtensionOwner(n, col, c, i, j, k);
    }
  }

  /** Claims carry over to a larger set of seen cells, together with the new cells claimed by a seen stone i. */
  lemma ClaimedGrow(n: nat, col: seq<Color>, c: Color, a: set<nat>, b: set<nat>, i: nat)
    requires Claimed(n, col, c, a) && a <= b && i in b && Holds(col, i, c)
    requires forall k :: k in b - a && Holds(col, k, None) ==> Extends(n, col, c, i, k)
    ensures Claimed(n, col, c, b)
  {
    forall k | k in b && Holds(col, k, None)
      ensures exists j :: j in b && Holds(col, j, c) && Extends(n, col, c, j, k)
    {
      if k in a {
        var j :| j in a && Holds(col, j, c) && Extends(n, col, c, j, k);
        assert j in b;
      } else {
        assert Extends(n, col, c, i, k);
      }
    }
  }

  /**
   * What `trace` from a leaves behind in the cells it adds: each stone of c
   * among them reaches a and has all its neighbours of colour c seen.
   */
  ghost predicate Grown(n: nat, col: seq<Color>, c: Color, a: nat, seen: set<nat>, added: set<nat>)
  {
    forall e :: e in added && Holds(col, e, c) ==> Enclosed(n, col, c, seen, e) && Reach(n, col, c, a, e)
  }

  /** Stones grown from neighbour b of a are grown from a as well. */
  lemma GrownFrom(n: nat, col: seq<Color>, c: Color, a: nat, b: nat, seen: set<nat>, added: set<nat>)
    requires Holds(col, a, c) && b in Neighbours(n, a) && Grown(n, col, c, b, seen, added)
    ensures Grown(n, col, c, a, seen, added)
  {
    forall e | e in added && Holds(col, e, c)
      ensures Reach(n, col, c, a, e)
    {
      ReachPrepend(n, col, c, a, b, e);
    }
  }

  lemma GrownJoin(n: nat, col: seq<Color>, c: Color, a: nat, x: set<nat>, y: set<nat>, z: set<nat>)
    requires x <= y <= z
    requires Grown(n, col, c, a, y, y - x) && Grown(n, col, c, a, z, z - y)
    ensures Grown(n, col, c, a, z, z - x)
  {
    forall e | e in z - x && Holds(col, e, c)
      ensures Enclosed(n, col, c, z, e) && Reach(n, col, c, a, e)
    {
      if e !in y {
        assert e in z - y;
      } else {
        assert Enclosed(n, col, c, y, e);
      }
    }
  }

  /**
   * The moves `trace` appends for the cells it adds: no cell twice, each
   * one added, and exactly the extensions of the stones of c among them.
   */
  ghost predicate Gathered(n: nat, col: seq<Color>, c: Color, added: set<nat>, l: seq<nat>)
  {
    Distinct(l) && (forall t :: 0 <= t < |l| ==> l[t] in added) &&
    forall k :: k in l <==> exists j :: j in added && Holds(col, j, c) && Extends(n, col, c, j, k)
  }

  lemma GatheredJoin(n: nat, col: seq<Color>, c: Color, a: set<nat>, b: set<nat>, x: seq<nat>, y: seq<nat>)
    requires a !! b && Gathered(n, col, c, a, x) && Gathered(n, col, c, b, y)
    ensures Gathered(n, col, c, a + b, x + y)
  {
    var l := x + y;
    forall t, u | 0 <= t < u < |l|
      ensures l[t] != l[u]
    {
      if u < |x| {
      } else if t >= |x| {
        assert l[t] == y[t - |x|] && l[u] == y[u - |x|];
      } else {
        assert l[t] in a && l[u] == y[u - |x|] && l[u] in b;
      }
    }
    forall k | exists j :: j in a + b && Holds(col, j, c) && Extends(n, col, c, j, k)
      ensures k in l
    {
      var j :| j in a + b && Holds(col, j, c) && Extends(n, col, c, j, k);
      if j in a {
        assert k in x;
      } else {
        assert k in y;
      }
    }
    forall k | k in l
      ensures exists j :: j in a + b && Holds(col, j, c) && Extends(n, col, c, j, k)
    {
      if k in x {
        var j :| j in a && Holds(col, j, c) && Extends(n, col, c, j, k);
        assert j in a + b;
      } else {
        assert k in y;
        var j :| j in b && Holds(col, j, c) && Extends(n, col, c, j, k);
        assert j in a + b;
      }
    }
  }

  /** Nothing added, nothing gathered. */
  lemma GatheredNothing(n: nat, col: seq<Color>, c: Color)
    ensures Gathered(n, col, c, {}, [])
  {
  }

  /** The first d of the four directions from i that lead to a stone of c lead to seen cells. */
  ghost predicate CoveredDirs(n: nat, col: seq<Color>, c: Color, i: nat, d: nat, seen: set<nat>)
    requires d <= 4
  {
    forall e :: 0 <= e < d && C6.ValidDir(n, Orth[e], i) && Holds(col, C6.MoveDir(n, Orth[e], i), c) ==>
      C6.MoveDir(n, Orth[e], i) in seen
  }

  /** All four directions covered: the cell is enclosed. */
  lemma EnclosedByDirs(n: nat, col: seq<Color>, c: Color, i: nat, seen: set<nat>)
    requires CoveredDirs(n, col, c, i, 4, seen)
    ensures Enclosed(n, col, c, seen, i)
  {
    forall j | j in Neighbours(n, i) && Holds(col, j, c)
      ensures j in seen
    {
      if j in Towards(n, C4.N, i) {
        assert j == C6.MoveDir(n, Orth[0], i);
      } else if j in Towards(n, C4.S, i) {
        assert j == C6.MoveDir(n, Orth[1], i);
      } else if j in Towards(n, C4.E, i) {
        assert j == C6.MoveDir(n, Orth[2], i);
      } else {
        assert j == C6.MoveDir(n, Orth[3], i);
      }
    }
  }

  /** The cells of a list, in no order. */
  lemma {:induction false} DistinctCard(l: seq<nat>)
    requires Distinct(l)
    ensures |ToSet(l)| == |l|
  {
    if |l| > 0 {
      var p := l[..|l| - 1];
      assert l == p + [l[|l| - 1]];
      assert ToSet(l) == ToSet(p) + {l[|l| - 1]};
      DistinctCard(p);
    }
  }

  /** The numbers below a: the cells of the board when a is its area. */
  function Below(a: nat): (r: set<nat>)
    ensures forall k: nat :: k in r <==> k < a
  {
    if a == 0 then {} else Below(a - 1) + {a - 1}
  }

  lemma {:induction false} BelowCard(a: nat)
    ensures |Below(a)| == a
  {
    if a > 0 {
      BelowCard(a - 1);
    }
  }

  lemma {:induction false} SubsetCard(a: set<nat>, b: set<nat>)
    requires a <= b
    ensures |a| <= |b|
    decreases a
  {
    if a != {} {
      var x :| x in a;
      SubsetCard(a - {x}, b - {x});
    }
  }

  /** A list of distinct cells of the board leaves room for one more cell it lacks. */
  lemma ListFits(n: nat, l: seq<nat>, k: nat)
    requires Distinct(l) && (forall t :: 0 <= t < |l| ==> l[t] < Area(n)) && k < Area(n) && k !in l
    ensures |l| < Area(n)
  {
    DistinctCard(l);
    BelowCard(Area(n));
    assert k !in ToSet(l);
    SubsetCard(ToSet(l) + {k}, Below(Area(n)));
  }

  // ----------------------------------------------------------- moves ---

  /** `Move`: the index of the cell a root is placed on. */
  datatype Move = MoveOf(index: nat)

  /** `MoveList`: up to SIZE*SIZE moves, in `moves[0..count)`. */
  class MoveList {
    const size: nat
    var items: seq<nat>
    var m: Move

    /** `MoveList()`, that is `clear()`. */
    constructor (size: nat)
      ensures this.size == size && items == [] && m == MoveOf(0)
    {
      this.size := size;
      items, m := [], MoveOf(0);
    }

    method Clear()
      modifies this
      ensures items == [] && m == MoveOf(0)
    {
      items, m := [], MoveOf(0);
    }

    /** `add(i)`: the array of SIZE*SIZE moves must have room. */
    method Add(i: nat)
      requires |items| < Area(size)
      modifies this
      ensures items == old(items) + [i] && m == old(m)
    {
      items := items + [i];
    }
  }

  /** The board with the cells of r emptied. */
  function Cleared(col: seq<Color>, r: set<nat>): (b: seq<Color>)
    ensures |b| == |col|
    ensures forall k :: 0 <= k < |b| && k !in r ==> b[k] == col[k]
    ensures forall k :: 0 <= k < |b| && k in r ==> b[k] == None
  {
    seq(|col|, k requires 0 <= k < |col| => if k in r then None else col[k])
  }

  lemma ClearedTwice(col: seq<Color>, r: set<nat>, q: set<nat>)
    ensures Cleared(Cleared(col, r), q) == Cleared(col, r + q)
  {
  }

  /** Some stone of c may grow a root onto cell k. */
  ghost predicate IsRoot(n: nat, col: seq<Color>, c: Color, k: nat)
  {
    exists j :: Holds(col, j, c) && Extends(n, col, c, j, k)
  }

  /** The cells some stone of c may grow a root onto. */
  ghost function Roots(n: nat, col: seq<Color>, c: Color): set<nat>
  {
    set k | 0 <= k < |col| && IsRoot(n, col, c, k)
  }

  /** A list holding every root of c once. */
  ghost predicate Listed(n: nat, col: seq<Color>, c: Color, l: seq<nat>)
  {
    Distinct(l) && ToSet(l) == Roots(n, col, c)
  }

  /** The groups of colour c. */
  ghost function Groups(n: nat, col: seq<Color>, c: Color): set<set<nat>>
  {
    set a | 0 <= a < |col| && Holds(col, a, c) :: Group(n, col, c, a)
  }

  /** No stone of a's group has a root to grow: the group is dead. */
  ghost predicate Stuck(n: nat, col: seq<Color>, c: Color, a: nat)
  {
    forall j, k :: j in Group(n, col, c, a) ==> !Extends(n, col, c, j, k)
  }

  /** The stones of c in dead groups. */
  ghost function Dead(n: nat, col: seq<Color>, c: Color): set<nat>
  {
    set a | 0 <= a < |col| && Holds(col, a, c) && Stuck(n, col, c, a)
  }

  lemma ExtendedTrans(a: seq<nat>, b: seq<nat>, c: seq<nat>)
    requires Extended(a, b) && Extended(b, c)
    ensures Extended(a, c) && c[|a|..] == b[|a|..] + c[|b|..]
  {
    assert c[..|a|] == c[..|b|][..|a|];
    assert c[|a|..] == c[|a|..|b|] + c[|b|..];
  }

  lemma ToSetAppend(a: seq<nat>, b: seq<nat>)
    ensures ToSet(a + b) == ToSet(a) + ToSet(b)
  {
  }

  /** The directions up to e are those up to d, then direction d. */
  lemma ExtUpToNext(n: nat, col: seq<Color>, c: Color, i: nat, d: nat, e: nat)
    requires e <= 4 && e == d + 1
    ensures ExtUpTo(n, col, c, i, e) == ExtUpTo(n, col, c, i, d) + ExtFrom(n, col, c, i, Orth[d])
  {
  }

  /** Appending `last` to a list and its set of marks that already hold `prev` gives them `prev + last`. */
  lemma Accumulate(base: seq<nat>, prev: seq<nat>, last: seq<nat>, next: seq<nat>, items: seq<nat>, items': seq<nat>,
                   v0: set<nat>, seen: set<nat>, seen': set<nat>)
    requires next == prev + last && items == base + prev && items' == items + last
    requires seen == v0 + ToSet(prev) && seen' == seen + ToSet(last) && v0 !! ToSet(prev) && v0 !! ToSet(last)
    ensures items' == base + next && seen' == v0 + ToSet(next) && v0 !! ToSet(next)
  {
    ToSetAppend(prev, last);
  }

  /** What `find_moves` adds from stone i: the stone itself and its roots, listed once each. */
  lemma GatheredFirst(n: nat, col: seq<Color>, c: Color, i: nat, v0: set<nat>, v1: set<nat>)
    requires IsPlayer(c) && Holds(col, i, c) && i !in v0 && v0 !! ToSet(ExtList(n, col, c, i))
    requires v1 == v0 + {i} + ToSet(ExtList(n, col, c, i))
    ensures Stones(col, c, v1 - v0) == {i}
    ensures Gathered(n, col, c, v1 - v0, ExtList(n, col, c, i))
  {
    var l := ExtList(n, col, c, i);
    ExtListExact(n, col, c, i);
    forall e | e in v1 - v0 && e != i
      ensures !Holds(col, e, c)
    {
      assert e in l;
    }
    forall t | 0 <= t < |l|
      ensures l[t] in v1 - v0
    {
      assert l[t] in ToSet(l);
    }
    forall k | k in l
      ensures exists j :: j in v1 - v0 && Holds(col, j, c) && Extends(n, col, c, j, k)
    {
      assert i in v1 - v0 && Extends(n, col, c, i, k);
    }
    forall k | exists j :: j in v1 - v0 && Holds(col, j, c) && Extends(n, col, c, j, k)
      ensures k in l
    {
      var j :| j in v1 - v0 && Holds(col, j, c) && Extends(n, col, c, j, k);
      assert j == i;
    }
  }

  /** `trace` from i: marking i, listing its roots, then following its neighbours. */
  lemma TraceSettle(n: nat, col: seq<Color>, c: Color, i: nat, v0: set<nat>, v1: set<nat>, vf: set<nat>,
                    l0: seq<nat>, l1: seq<nat>, lf: seq<nat>)
    requires IsPlayer(c) && Holds(col, i, c) && i !in v0 && v1 <= vf && v0 !! ToSet(ExtList(n, col, c, i))
    requires v1 == v0 + {i} + ToSet(ExtList(n, col, c, i)) && l1 == l0 + ExtList(n, col, c, i)
    requires Extended(l1, lf) && Gathered(n, col, c, vf - v1, lf[|l1|..])
    ensures Extended(l0, lf) && Gathered(n, col, c, vf - v0, lf[|l0|..])
    ensures |Stones(col, c, vf - v0)| == 1 + |Stones(col, c, vf - v1)|
  {
    GatheredFirst(n, col, c, i, v0, v1);
    GatheredJoin(n, col, c, v1 - v0, vf - v1, ExtList(n, col, c, i), lf[|l1|..]);
    assert (v1 - v0) + (vf - v1) == vf - v0;
    assert Extended(l0, l1) && l1[|l0|..] == ExtList(n, col, c, i);
    ExtendedTrans(l0, l1, lf);
    StonesSplit(col, c, v0, v1, vf);
  }

  /** The stones `trace` from i marks reach i and are enclosed. */
  lemma GrownSettle(n: nat, col: seq<Color>, c: Color, i: nat, v0: set<nat>, v1: set<nat>, vf: set<nat>)
    requires Holds(col, i, c) && v1 <= vf && Stones(col, c, v1 - v0) == {i}
    requires Enclosed(n, col, c, vf, i) && Grown(n, col, c, i, vf, vf - v1)
    ensures Grown(n, col, c, i, vf, vf - v0)
  {
    forall e | e in vf - v0 && Holds(col, e, c)
      ensures Enclosed(n, col, c, vf, e) && Reach(n, col, c, i, e)
    {
      if e in v1 - v0 {
        assert e in Stones(col, c, v1 - v0);
        ReachSelf(n, col, c, i);
      }
    }
  }

  /** One more stretch of the list, for one more stretch of cells. */
  lemma GatheredMore(n: nat, col: seq<Color>, c: Color, base: set<nat>, v: set<nat>, vf: set<nat>,
                     l0: seq<nat>, l1: seq<nat>, lf: seq<nat>)
    requires base <= v <= vf
    requires Extended(l0, l1) && Gathered(n, col, c, v - base, l1[|l0|..])
    requires Extended(l1, lf) && Gathered(n, col, c, vf - v, lf[|l1|..])
    ensures Extended(l0, lf) && Gathered(n, col, c, vf - base, lf[|l0|..])
  {
    GatheredJoin(n, col, c, v - base, vf - v, l1[|l0|..], lf[|l1|..]);
    assert (v - base) + (vf - v) == vf - base;
    ExtendedTrans(l0, l1, lf);
  }

  /** A cell reached from a closed set is in it. */
  lemma ReachStaysIn(n: nat, col: seq<Color>, c: Color, s: set<nat>, a: nat, b: nat)
    requires Closed(n, col, c, s) && a in s && Reach(n, col, c, a, b)
    ensures b in s
  {
    var p :| Path(n, col, c, p) && p[0] == a && p[|p| - 1] == b;
    PathStaysIn(n, col, c, s, p, |p| - 1);
  }

  /** Stone e is in the group of a stone of c before cell i. */
  ghost predicate RootedAt(n: nat, col: seq<Color>, c: Color, i: nat, e: nat)
  {
    exists a :: 0 <= a < i && Holds(col, a, c) && Reach(n, col, c, a, e)
  }

  /** The stones of c before cell i. */
  ghost function StonesBelow(col: seq<Color>, c: Color, i: nat): set<nat>
  {
    set a | 0 <= a < i && Holds(col, a, c)
  }

  /** The groups of the stones of c before cell i. */
  ghost function GroupsBelow(n: nat, col: seq<Color>, c: Color, i: nat): set<set<nat>>
  {
    set a | 0 <= a < i && Holds(col, a, c) :: Group(n, col, c, a)
  }

  /**
   * The scan of `find` has reached cell i: the stones before i are seen,
   * each seen stone of c is in the group of one of them, and `groups`
   * counts their groups.
   */
  ghost predicate Tally(n: nat, col: seq<Color>, c: Color, seen: set<nat>, i: nat, groups: nat)
  {
    StonesBelow(col, c, i) <= seen &&
    (forall e {:trigger e in seen} :: e in seen && Holds(col, e, c) ==> RootedAt(n, col, c, i, e)) &&
    groups == |GroupsBelow(n, col, c, i)|
  }

  lemma TallyStart(n: nat, col: seq<Color>, c: Color)
    ensures Tally(n, col, c, {}, 0, 0)
  {
    assert GroupsBelow(n, col, c, 0) == {};
  }

  /** Cell i is not the first stone of a new group: the count stays. */
  lemma TallySkip(n: nat, col: seq<Color>, c: Color, seen: set<nat>, i: nat, groups: nat)
    requires Tally(n, col, c, seen, i, groups) && (Holds(col, i, c) ==> i in seen)
    ensures Tally(n, col, c, seen, i + 1, groups)
  {
    forall a | a in StonesBelow(col, c, i + 1)
      ensures a in seen
    {
      if a < i {
        assert a in StonesBelow(col, c, i);
      }
    }
    if Holds(col, i, c) {
      var a :| 0 <= a < i && Holds(col, a, c) && Reach(n, col, c, a, i);
      GroupOfMember(n, col, c, a, i);
      assert GroupsBelow(n, col, c, i + 1) == GroupsBelow(n, col, c, i);
    } else {
      assert GroupsBelow(n, col, c, i + 1) == GroupsBelow(n, col, c, i);
    }
    forall e | e in seen && Holds(col, e, c)
      ensures RootedAt(n, col, c, i + 1, e)
    {
      var a :| 0 <= a < i && Holds(col, a, c) && Reach(n, col, c, a, e);
    }
  }

  /** Tracing a new stone i adds the stones of its group and counts one more group. */
  lemma TallyTrace(n: nat, col: seq<Color>, c: Color, seen: set<nat>, seen': set<nat>, i: nat, groups: nat)
    requires Tally(n, col, c, seen, i, groups) && Closed(n, col, c, seen)
    requires Holds(col, i, c) && i !in seen && i in seen' && seen <= seen'
    requires Grown(n, col, c, i, seen', seen' - seen)
    ensures Closed(n, col, c, seen') && Tally(n, col, c, seen', i + 1, groups + 1)
  {
    forall a | a in StonesBelow(col, c, i + 1)
      ensures a in seen'
    {
      if a < i {
        assert a in StonesBelow(col, c, i);
      }
    }
    ClosedGrow(n, col, c, seen, seen', i);
    RootedGrow(n, col, c, seen, seen', i);
    GroupsGrow(n, col, c, seen, i);

  }

  lemma ClosedGrow(n: nat, col: seq<Color>, c: Color, seen: set<nat>, seen': set<nat>, i: nat)
    requires Closed(n, col, c, seen) && seen <= seen' && Grown(n, col, c, i, seen', seen' - seen)
    ensures Closed(n, col, c, seen')
  {
    forall e | e in seen' && Holds(col, e, c)
      ensures Enclosed(n, col, c, seen', e)
    {
      if e in seen {
        assert Enclosed(n, col, c, seen, e);
      }
    }
  }

  lemma RootedGrow(n: nat, col: seq<Color>, c: Color, seen: set<nat>, seen': set<nat>, i: nat)
    requires forall e {:trigger e in seen} :: e in seen && Holds(col, e, c) ==> RootedAt(n, col, c, i, e)
    requires Holds(col, i, c) && Grown(n, col, c, i, seen', seen' - seen)
    ensures forall e {:trigger e in seen'} :: e in seen' && Holds(col, e, c) ==> RootedAt(n, col, c, i + 1, e)
  {
    forall e | e in seen' && Holds(col, e, c)
      ensures RootedAt(n, col, c, i + 1, e)
    {
      if e in seen {
        var a :| 0 <= a < i && Holds(col, a, c) && Reach(n, col, c, a, e);
      } else {
        assert Reach(n, col, c, i, e);
      }
    }
  }

  /** The group of a stone outside a closed set holding the stones before it is a new group. */
  lemma GroupsGrow(n: nat, col: seq<Color>, c: Color, seen: set<nat>, i: nat)
    requires StonesBelow(col, c, i) <= seen && Closed(n, col, c, seen) && Holds(col, i, c) && i !in seen
    ensures |GroupsBelow(n, col, c, i + 1)| == |GroupsBelow(n, col, c, i)| + 1
  {
    if Group(n, col, c, i) in GroupsBelow(n, col, c, i) {
      var a :| 0 <= a < i && Holds(col, a, c) && Group(n, col, c, a) == Group(n, col, c, i);
      GroupHasSelf(n, col, c, i);
      assert a in StonesBelow(col, c, i);
      ReachStaysIn(n, col, c, seen, a, i);
    }
    assert GroupsBelow(n, col, c, i + 1) == GroupsBelow(n, col, c, i) + {Group(n, col, c, i)};
  }

  lemma GatheredAppend(n: nat, col: seq<Color>, c: Color, seen: set<nat>, seen': set<nat>, l: seq<nat>, l': seq<nat>)
    requires seen <= seen' && Gathered(n, col, c, seen, l)
    requires Extended(l, l') && Gathered(n, col, c, seen' - seen, l'[|l|..])
    ensures Gathered(n, col, c, seen', l')
  {
    GatheredJoin(n, col, c, seen, seen' - seen, l, l'[|l|..]);
    assert seen + (seen' - seen) == seen';
    assert l + l'[|l|..] == l';
  }

  /** The state of the scan of `find` before cell i. */
  ghost predicate Scanned(n: nat, col: seq<Color>, c: Color, seen: set<nat>, l: seq<nat>, i: nat, groups: nat)
  {
    Claimed(n, col, c, seen) && Closed(n, col, c, seen) && Gathered(n, col, c, seen, l) && Tally(n, col, c, seen, i, groups)
  }

  lemma ScanTrace(n: nat, col: seq<Color>, c: Color, seen: set<nat>, seen': set<nat>, l: seq<nat>, l': seq<nat>, i: nat, groups: nat)
    requires Scanned(n, col, c, seen, l, i, groups) && Claimed(n, col, c, seen')
    requires Holds(col, i, c) && i !in seen && i in seen' && seen <= seen'
    requires Grown(n, col, c, i, seen', seen' - seen)
    requires Extended(l, l') && Gathered(n, col, c, seen' - seen, l'[|l|..])
    ensures Scanned(n, col, c, seen', l', i + 1, groups + 1)
  {
    TallyTrace(n, col, c, seen, seen', i, groups);
    GatheredAppend(n, col, c, seen, seen', l, l');
  }

  /** At the end of the scan every stone is seen: the groups and the roots are all of them. */
  lemma TallyDone(n: nat, col: seq<Color>, c: Color, seen: set<nat>, groups: nat, l: seq<nat>)
    requires Tally(n, col, c, seen, |col|, groups) && Gathered(n, col, c, seen, l)
    ensures groups == |Groups(n, col, c)| && Listed(n, col, c, l)
  {
    assert GroupsBelow(n, col, c, |col|) == Groups(n, col, c);
    forall k | k in ToSet(l)
      ensures k in Roots(n, col, c)
    {
      var j :| j in seen && Holds(col, j, c) && Extends(n, col, c, j, k);
    }
    forall k | k in Roots(n, col, c)
      ensures k in ToSet(l)
    {
      var j :| Holds(col, j, c) && Extends(n, col, c, j, k);
      assert j in StonesBelow(col, c, |col|);
    }
  }

  /** The first list followed by more. */
  predicate Extended(a: seq<nat>, b: seq<nat>)
  {
    |a| <= |b| && b[..|a|] == a
  }

  ghost function Unseen(n: nat, v: set<nat>): set<nat>
  {
    set k: nat | k < Area(n) && k !in v
  }

  lemma UnseenShrinks(n: nat, a: set<nat>, b: set<nat>)
    requires a <= b
    ensures Unseen(n, b) <= Unseen(n, a)
  {
  }

  lemma UnseenMark(n: nat, v: set<nat>, i: nat)
    requires i < Area(n) && i !in v
    ensures Unseen(n, v + {i}) < Unseen(n, v)
  {
    assert i in Unseen(n, v);
  }

  /** The step in direction `Orth[d]` is one of the neighbours. */
  lemma OrthNeighbour(n: nat, d: nat, i: nat)
    requires d < 4 && C6.ValidDir(n, Orth[d], i)
    ensures C6.MoveDir(n, Orth[d], i) in Neighbours(n, i)
  {
  }

  /** Every neighbour is the step in one of the four directions. */
  lemma NeighbourDir(n: nat, i: nat, j: nat)
    requires j in Neighbours(n, i)
    ensures exists e :: 0 <= e < 4 && C6.ValidDir(n, Orth[e], i) && j == C6.MoveDir(n, Orth[e], i)
  {
    if j in Towards(n, C4.N, i) {
      assert j == C6.MoveDir(n, Orth[0], i);
    } else if j in Towards(n, C4.S, i) {
      assert j == C6.MoveDir(n, Orth[1], i);
    } else if j in Towards(n, C4.E, i) {
      assert j == C6.MoveDir(n, Orth[2], i);
    } else {
      assert j == C6.MoveDir(n, Orth[3], i);
    }
  }

  // ------------------------------------------------------ dead groups ---

  /** The stones of the groups of the cells in tr. */
  ghost function GroupUnion(n: nat, col: seq<Color>, c: Color, tr: seq<nat>): set<nat>
  {
    if tr == [] then {} else GroupUnion(n, col, c, tr[..|tr| - 1]) + Group(n, col, c, tr[|tr| - 1])
  }

  /**
   * The scan of `remove_dead` so far: tr lists one stone from each dead group
   * met, the groups of the listed stones are disjoint, and together they are
   * exactly the dead stones seen.
   */
  ghost predicate Doomed(n: nat, col: seq<Color>, c: Color, tr: seq<nat>, seen: set<nat>)
  {
    GroupUnion(n, col, c, tr) == seen * Dead(n, col, c) && Kept(n, col, c, tr)
  }

  /** Stones of c whose groups are disjoint: none is in the group of one listed before it. */
  ghost predicate Kept(n: nat, col: seq<Color>, c: Color, tr: seq<nat>)
  {
    forall t :: 0 <= t < |tr| ==> Holds(col, tr[t], c) && Group(n, col, c, tr[t]) !! GroupUnion(n, col, c, tr[..t])
  }

  /**
   * Tracing the first stone i of a group, with roots l listed for it: the
   * group is new and now seen, and the list is empty exactly when the group
   * is dead.
   */
  lemma StuckTrace(n: nat, col: seq<Color>, c: Color, seen: set<nat>, seen': set<nat>, i: nat, groups: nat, l: seq<nat>)
    requires Tally(n, col, c, seen, i, groups) && Closed(n, col, c, seen)
    requires Holds(col, i, c) && i !in seen && i in seen' && seen <= seen'
    requires Grown(n, col, c, i, seen', seen' - seen) && Gathered(n, col, c, seen' - seen, l)
    ensures Group(n, col, c, i) <= seen' && Group(n, col, c, i) !! seen
    ensures l == [] <==> Stuck(n, col, c, i)
  {
    ClosedGrow(n, col, c, seen, seen', i);
    forall j | j in Group(n, col, c, i)
      ensures j in seen' && j !in seen
    {
      ReachStaysIn(n, col, c, seen', i, j);
      if j in seen {
        GroupHasSelf(n, col, c, i);
        assert RootedAt(n, col, c, i, j);
        var a :| 0 <= a < i && Holds(col, a, c) && Reach(n, col, c, a, j);
        ReachSymmetric(n, col, c, i, j);
        ReachTransitive(n, col, c, a, j, i);
        assert a in StonesBelow(col, c, i);
        ReachStaysIn(n, col, c, seen, a, i);
      }
    }
    if l == [] {
      GroupHasSelf(n, col, c, i);
      GatheredNone(n, col, c, seen' - seen, l);
      forall j, k | j in Group(n, col, c, i)
        ensures !Extends(n, col, c, j, k)
      {
        assert j in seen' - seen && Holds(col, j, c);
      }
    } else {
      var k := l[0];
      assert k in l;
      var j :| j in seen' - seen && Holds(col, j, c) && Extends(n, col, c, j, k);
      assert j in Group(n, col, c, i);
    }
  }

  /** An empty list gathered for some cells: none of their stones has a root. */
  lemma GatheredNone(n: nat, col: seq<Color>, c: Color, added: set<nat>, l: seq<nat>)
    requires Gathered(n, col, c, added, l) && l == []
    ensures forall j, k :: j in added && Holds(col, j, c) ==> !Extends(n, col, c, j, k)
  {
    forall j, k | j in added && Holds(col, j, c) && Extends(n, col, c, j, k)
      ensures k in l
    {
    }
  }

  lemma GroupUnionAppend(n: nat, col: seq<Color>, c: Color, tr: seq<nat>, i: nat)
    ensures GroupUnion(n, col, c, tr + [i]) == GroupUnion(n, col, c, tr) + Group(n, col, c, i)
    ensures forall t :: 0 <= t <= |tr| ==> (tr + [i])[..t] == tr[..t]
  {
    assert (tr + [i])[..|tr|] == tr;
  }

  /** A stone whose group is disjoint from the kept groups can be kept too. */
  lemma KeptAppend(n: nat, col: seq<Color>, c: Color, tr: seq<nat>, i: nat)
    requires Kept(n, col, c, tr) && Holds(col, i, c) && Group(n, col, c, i) !! GroupUnion(n, col, c, tr)
    ensures Kept(n, col, c, tr + [i])
  {
    GroupUnionAppend(n, col, c, tr, i);
    var tr' := tr + [i];
    forall t | 0 <= t < |tr'|
      ensures Holds(col, tr'[t], c) && Group(n, col, c, tr'[t]) !! GroupUnion(n, col, c, tr'[..t])
    {
      if t < |tr| {
        assert tr'[t] == tr[t];
      } else {
        assert tr'[..t] == tr;
      }
    }
  }

  /**
   * The dead stones among the cells that a trace from stone i adds: the whole
   * group of i when it is dead, none otherwise.
   */
  lemma DeadGrow(n: nat, col: seq<Color>, c: Color, seen: set<nat>, seen': set<nat>, i: nat)
    requires seen <= seen' && Holds(col, i, c) && Group(n, col, c, i) <= seen'
    requires Grown(n, col, c, i, seen', seen' - seen)
    ensures seen' * Dead(n, col, c) ==
            seen * Dead(n, col, c) + (if Stuck(n, col, c, i) then Group(n, col, c, i) else {})
  {
    forall e | e in seen' * Dead(n, col, c) && e !in seen
      ensures Stuck(n, col, c, i) && e in Group(n, col, c, i)
    {
      assert e in seen' - seen;
      GroupOfMember(n, col, c, i, e);
      GroupHasSelf(n, col, c, e);
    }
    if Stuck(n, col, c, i) {
      GroupHasSelf(n, col, c, i);
      forall e | e in Group(n, col, c, i)
        ensures e in Dead(n, col, c)
      {
        GroupOfMember(n, col, c, i, e);
      }
    }
  }

  lemma GroupUnionStep(n: nat, col: seq<Color>, c: Color, tr: seq<nat>, t: nat)
    requires t < |tr|
    ensures GroupUnion(n, col, c, tr[..t + 1]) == GroupUnion(n, col, c, tr[..t]) + Group(n, col, c, tr[t])
  {
    assert tr[..t + 1] == tr[..t] + [tr[t]];
    GroupUnionAppend(n, col, c, tr[..t], tr[t]);
  }

  /** A dead group traced by `remove_dead`: its first stone is kept. */
  lemma DoomedKeep(n: nat, col: seq<Color>, c: Color, tr: seq<nat>, seen: set<nat>, seen': set<nat>, i: nat)
    requires Doomed(n, col, c, tr, seen) && seen <= seen' && Holds(col, i, c) && Stuck(n, col, c, i)
    requires Group(n, col, c, i) <= seen' && Group(n, col, c, i) !! seen
    requires Grown(n, col, c, i, seen', seen' - seen)
    ensures Doomed(n, col, c, tr + [i], seen')
  {
    DeadGrow(n, col, c, seen, seen', i);
    GroupUnionAppend(n, col, c, tr, i);
    KeptAppend(n, col, c, tr, i);
  }

  /** A live group traced by `remove_dead`: nothing is kept. */
  lemma DoomedPass(n: nat, col: seq<Color>, c: Color, tr: seq<nat>, seen: set<nat>, seen': set<nat>, i: nat)
    requires Doomed(n, col, c, tr, seen) && seen <= seen' && Holds(col, i, c) && !Stuck(n, col, c, i)
    requires Group(n, col, c, i) <= seen' && Grown(n, col, c, i, seen', seen' - seen)
    ensures Doomed(n, col, c, tr, seen')
  {
    DeadGrow(n, col, c, seen, seen', i);
  }

  /** The scan of `remove_dead` before cell i: the groups met so far are seen, and their dead ones kept. */
  ghost predicate DeadScan(n: nat, col: seq<Color>, c: Color, seen: set<nat>, i: nat, groups: nat, tr: seq<nat>)
  {
    Claimed(n, col, c, seen) && Closed(n, col, c, seen) && Tally(n, col, c, seen, i, groups) && Doomed(n, col, c, tr, seen)
  }

  lemma DeadScanStart(n: nat, col: seq<Color>, c: Color)
    ensures DeadScan(n, col, c, {}, 0, 0, [])
  {
    TallyStart(n, col, c);
  }

  /** At the end of the scan of `remove_dead` the kept groups are the dead stones. */
  lemma DeadScanDone(n: nat, col: seq<Color>, c: Color, seen: set<nat>, groups: nat, tr: seq<nat>)
    requires DeadScan(n, col, c, seen, |col|, groups, tr)
    ensures GroupUnion(n, col, c, tr) == Dead(n, col, c) && Kept(n, col, c, tr)
  {
    DoomedDone(n, col, c, tr, seen);
  }

  /** `remove_dead` traces stone i and lists roots l for it: it keeps i when l is empty. */
  lemma DeadTrace(n: nat, col: seq<Color>, c: Color, seen: set<nat>, seen': set<nat>, l: seq<nat>,
                  i: nat, groups: nat, tr: seq<nat>)
    requires DeadScan(n, col, c, seen, i, groups, tr) && Claimed(n, col, c, seen')
    requires Holds(col, i, c) && i !in seen && i in seen' && seen <= seen'
    requires Grown(n, col, c, i, seen', seen' - seen) && Gathered(n, col, c, seen' - seen, l)
    ensures DeadScan(n, col, c, seen', i + 1, groups + 1, if l == [] then tr + [i] else tr)
  {
    StuckTrace(n, col, c, seen, seen', i, groups, l);
    if l == [] {
      DoomedKeep(n, col, c, tr, seen, seen', i);
    } else {
      DoomedPass(n, col, c, tr, seen, seen', i);
    }
    TallyTrace(n, col, c, seen, seen', i, groups);
  }

  /** `remove_dead` passes over cell i. */
  lemma DeadSkip(n: nat, col: seq<Color>, c: Color, seen: set<nat>, i: nat, groups: nat, tr: seq<nat>)
    requires DeadScan(n, col, c, seen, i, groups, tr) && (Holds(col, i, c) ==> i in seen)
    ensures DeadScan(n, col, c, seen, i + 1, groups, tr)
  {
    TallySkip(n, col, c, seen, i, groups);
  }

  /** At the end of the scan the kept groups are the dead stones. */
  lemma DoomedDone(n: nat, col: seq<Color>, c: Color, tr: seq<nat>, seen: set<nat>)
    requires Doomed(n, col, c, tr, seen) && StonesBelow(col, c, |col|) <= seen
    ensures GroupUnion(n, col, c, tr) == Dead(n, col, c)
  {
    forall e | e in Dead(n, col, c)
      ensures e in seen
    {
      assert e in StonesBelow(col, c, |col|);
    }
  }

  /**
   * What `remove_group` from a marks, when no stone of a's group was marked
   * before: exactly that group.
   */
  lemma RemovedIsGroup(n: nat, col: seq<Color>, c: Color, a: nat, v: set<nat>, v': set<nat>)
    requires v <= v' && a in v' - v
    requires forall e :: e in v' - v ==> Holds(col, e, c)
    requires Grown(n, col, c, a, v', v' - v) && Group(n, col, c, a) !! v
    ensures v' - v == Group(n, col, c, a)
  {
    forall e | e in v' - v && Holds(col, e, c)
      ensures Enclosed(n, col, c, v' - v, e)
    {
      forall j | j in Neighbours(n, e) && Holds(col, j, c)
        ensures j in v' - v
      {
        assert Path(n, col, c, [e, j]);
        ReachTransitive(n, col, c, a, e, j);
        assert j in Group(n, col, c, a);
      }
    }
    forall g | g in Group(n, col, c, a)
      ensures g in v' - v
    {
      ReachStaysIn(n, col, c, v' - v, a, g);
    }
  }

  /** Marking stone i before the cells grown from it. */
  lemma GrownMark(n: nat, col: seq<Color>, c: Color, i: nat, v0: set<nat>, v: set<nat>)
    requires Holds(col, i, c) && v0 + {i} <= v && Enclosed(n, col, c, v, i)
    requires Grown(n, col, c, i, v, v - (v0 + {i}))
    ensures Grown(n, col, c, i, v, v - v0)
  {
    forall e | e in v - v0 && Holds(col, e, c)
      ensures Enclosed(n, col, c, v, e) && Reach(n, col, c, i, e)
    {
      if e == i {
        ReachSelf(n, col, c, i);
      }
    }
  }

  /** The cells marked from `before` to `after` are stones of c grown from i. */
  ghost predicate Sweep(n: nat, col: seq<Color>, c: Color, i: nat, before: set<nat>, after: set<nat>)
  {
    before <= after && (forall e :: e in after - before ==> Holds(col, e, c)) && Grown(n, col, c, i, after, after - before)
  }

  /** A sweep from a neighbour k of stone i continues the sweep from i. */
  lemma SweepJoin(n: nat, col: seq<Color>, c: Color, i: nat, k: nat, gone: set<nat>, v1: set<nat>, v: set<nat>, v': set<nat>)
    requires Holds(col, i, c) && k in Neighbours(n, i)
    requires Sweep(n, col, c, i, v1, v) && Sweep(n, col, c, k, v, v')
    ensures Sweep(n, col, c, i, v1, v')
    ensures (gone + (v - v1)) + (v' - v) == gone + (v' - v1)
  {
    GrownFrom(n, col, c, i, k, v', v' - v);
    GrownJoin(n, col, c, i, v1, v, v');
  }

  /** Stone i marked ahead of the sweep from it. */
  lemma SweepMark(n: nat, col: seq<Color>, c: Color, i: nat, gone: set<nat>, v0: set<nat>, v: set<nat>)
    requires Holds(col, i, c) && i !in v0 && Sweep(n, col, c, i, v0 + {i}, v) && Enclosed(n, col, c, v, i)
    ensures Sweep(n, col, c, i, v0, v)
    ensures gone + (v - (v0 + {i})) + {i} == gone + (v - v0)
  {
    GrownMark(n, col, c, i, v0, v);
  }

  /** Emptying one more cell. */
  lemma ClearedMore(col: seq<Color>, x: set<nat>, i: nat)
    requires i < |col|
    ensures Cleared(col, x)[i := None] == Cleared(col, x + {i})
  {
  }

  /** The board has a stone of colour c. */
  predicate HasStones(col: seq<Color>, c: Color)
  {
    exists i :: 0 <= i < |col| && col[i] == c
  }

  /** `count()` of a bitset is zero exactly when no bit is set. */
  lemma {:induction false} PopcountZero(s: seq<bool>)
    ensures C6.Popcount(s) == 0 <==> forall i :: 0 <= i < |s| ==> !s[i]
  {
    if |s| > 0 {
      PopcountZero(s[..|s| - 1]);
      assert forall i :: 0 <= i < |s| - 1 ==> s[..|s| - 1][i] == s[i];
    }
  }

  /** The board after `move` by c on cell i: the stone placed, then the dead groups of c emptied. */
  ghost function Played(n: nat, col: seq<Color>, i: nat, c: Color): seq<Color>
    requires i < |col|
  {
    Cleared(col[i := c], Dead(n, col[i := c], c))
  }

  /**
   * A move changes no stone of the other side and no empty cell but its own,
   * and adds no stone of the mover but the one placed.
   */
  lemma PlayedKeeps(n: nat, col: seq<Color>, i: nat, c: Color)
    requires i < |col| && IsPlayer(c)
    ensures |Played(n, col, i, c)| == |col|
    ensures forall k :: 0 <= k < |col| && k != i && col[k] != c ==> Played(n, col, i, c)[k] == col[k]
    ensures forall k :: 0 <= k < |col| && Played(n, col, i, c)[k] == c ==> k == i || col[k] == c
    ensures Played(n, col, i, c)[i] == None <==> i in Dead(n, col[i := c], c)
  {
  }

  /** Every cell of a path is reached from its first cell. */
  lemma PathPrefix(n: nat, col: seq<Color>, c: Color, q: seq<nat>, t: nat)
    requires Path(n, col, c, q) && t < |q|
    ensures Reach(n, col, c, q[0], q[t])
  {
    var p := q[..t + 1];
    forall u | 0 < u < |p|
      ensures p[u] in Neighbours(n, p[u - 1])
    {
      assert p[u] == q[u] && p[u - 1] == q[u - 1];
    }
    assert Path(n, col, c, p);
  }

  /** In a group of c with a root, every path of c survives the emptying of the dead groups of c. */
  lemma ReachAfterClear(n: nat, col: seq<Color>, c: Color, a: nat, j: nat)
    requires Holds(col, a, c) && !Stuck(n, col, c, a) && Reach(n, col, c, a, j)
    ensures Reach(n, Cleared(col, Dead(n, col, c)), c, a, j)
  {
    var col' := Cleared(col, Dead(n, col, c));
    var q :| Path(n, col, c, q) && q[0] == a && q[|q| - 1] == j;
    forall t | 0 <= t < |q|
      ensures Holds(col', q[t], c)
    {
      PathPrefix(n, col, c, q, t);
      GroupOfMember(n, col, c, a, q[t]);
    }
    assert Path(n, col', c, q);
  }

  /**
   * After `remove_dead` empties the dead groups of c, c has no dead group
   * left: emptying cells only frees roots, and the groups that had a root
   * keep their stones.
   */
  lemma NoDeadAfterClear(n: nat, col: seq<Color>, c: Color)
    requires IsPlayer(c)
    ensures Dead(n, Cleared(col, Dead(n, col, c)), c) == {}
  {
    var col' := Cleared(col, Dead(n, col, c));
    forall a | Holds(col', a, c)
      ensures !Stuck(n, col', c, a)
    {
      assert Holds(col, a, c) && a !in Dead(n, col, c);
      var j, k :| j in Group(n, col, c, a) && Extends(n, col, c, j, k);
      ReachAfterClear(n, col, c, a, j);
      assert j in Group(n, col', c, a);
      assert Extends(n, col', c, j, k);
    }
  }

  // ----------------------------------------------------------- start ---

  /** Black for an even count, White for an odd one: the alternation of `initial()`. */
  function Parity(t: nat): Color
  {
    if t % 2 == 0 then Black else White
  }

  lemma ParityStep(t: nat)
    ensures Parity(t + 1) == Other(Parity(t)) && Parity(t + 4) == Parity(t)
  {
  }

  /** The lattice of `initial()`: every step-th column of every step-th row, colours alternating along both. */
  function LatticeColor(n: nat, step: nat, k: nat): Color
    requires n > 0 && step > 0
  {
    if X(n, k) % step == 0 && Y(n, k) % step == 0 then Parity(X(n, k) / step + Y(n, k) / step) else None
  }

  /** The opening position of `initial()`: four stones on 9 lines, a step-4 or step-6 lattice on 13 or 19. */
  function Start(n: nat): (r: seq<Color>)
    requires n in {9, 13, 19}
    ensures |r| == Area(n)
  {
    if n == 9 then seq(Area(9), k => if k == 10 || k == 70 then White else if k == 16 || k == 64 then Black else None)
    else seq(Area(n), k requires 0 <= k < Area(n) => LatticeColor(n, if n == 19 then 6 else 4, k))
  }

  /** Both players have stones at the start. */
  lemma StartHasBoth(n: nat)
    requires n in {9, 13, 19}
    ensures Holds(Start(n), 0, Black) || Holds(Start(n), 16, Black)
    ensures exists k :: Holds(Start(n), k, Black)
    ensures exists k :: Holds(Start(n), k, White)
  {
    AreaIsSquare(n);
    if n == 9 {
      assert Holds(Start(n), 16, Black) && Holds(Start(n), 10, White);
    } else {
      var step := if n == 19 then 6 else 4;
      XYOfIndex(n, 0, 0);
      XYOfIndex(n, step, 0);
      IndexOfIsLinear(n, step, 0);
      assert Start(n)[0] == LatticeColor(n, step, 0);
      assert Start(n)[step] == LatticeColor(n, step, step);
      assert Holds(Start(n), 0, Black) && Holds(Start(n), step, White);
    }
  }

  /** Neighbouring lattice points along a row have opposite colours. */
  lemma LatticeAlternates(n: nat, step: nat, x: nat, y: nat)
    requires step > 0 && x % step == 0 && y % step == 0 && x + step < n
    ensures LatticeColor(n, step, x + y * n) != None
    ensures LatticeColor(n, step, x + y * n) == Other(LatticeColor(n, step, x + step + y * n))
  {
    var a, b := x / step, y / step;
    DivModUnique(n, x + y * n, x, y);
    DivModUnique(n, x + step + y * n, x + step, y);
    assert x == a * step;
    assert x + step == (a + 1) * step;
    DivModUnique(step, x + step, 0, a + 1);
    ParityStep(a + b);
  }

  /** Column x of row y is the next cell `initial()` fills; before it, the lattice is laid out. */
  ghost predicate Painted(col: seq<Color>, n: nat, step: nat, y: nat, x: nat)
    requires n > 0 && step > 0
  {
    |col| == Area(n) &&
    forall k :: 0 <= k < Area(n) ==>
      col[k] == (if Y(n, k) < y || (Y(n, k) == y && X(n, k) < x) then LatticeColor(n, step, k) else None)
  }

  /** The column after a multiple of step, short of the next one, is off the lattice. */
  lemma OffLattice(x: nat, r: nat, step: nat)
    requires step > 0 && x % step == 0 && 0 < r < step
    ensures (x + r) % step != 0
  {
    DivModUnique(step, x + r, r, x / step);
  }

  /** The next cell `initial()` fills, column x = a*step of row y = b*step, is empty and gets colour `Parity(a + b)`. */
  lemma PaintStep(col: seq<Color>, n: nat, step: nat, y: nat, x: nat, a: nat, b: nat)
    requires n > 0 && step > 0 && x < n && y < n && x == a * step && y == b * step && Painted(col, n, step, y, x)
    ensures x + y * n < Area(n) && col[x + y * n] == None
    ensures LatticeColor(n, step, x + y * n) == Parity(a + b)
    ensures Painted(col[x + y * n := Parity(a + b)], n, step, y, x + step)
  {
    var k0 := x + y * n;
    IndexOfIsLinear(n, x, y);
    XYOfIndex(n, x, y);
    CellInBoard(n, x, y);
    DivModUnique(step, x, 0, a);
    DivModUnique(step, y, 0, b);
    var col' := col[k0 := LatticeColor(n, step, k0)];
    forall k | 0 <= k < Area(n)
      ensures col'[k] == (if Y(n, k) < y || (Y(n, k) == y && X(n, k) < x + step) then LatticeColor(n, step, k) else None)
    {
      if k != k0 && Y(n, k) == y && x <= X(n, k) < x + step {
        if X(n, k) == x {
          SameCell(n, k, k0);
        }
        OffLattice(x, X(n, k) - x, step);
      }
    }
  }

  /** The lattice has four points per line on 13 and on 19 lines. */
  lemma LatticeBound(n: nat, step: nat, a: nat)
    requires (n == 13 && step == 4) || (n == 19 && step == 6)
    ensures a * step < n <==> a <= 3
    ensures (a + 1) * step == a * step + step
  {
    if a >= 4 {
      MulLeq(4, a, step);
    } else {
      MulLeq(a, 3, step);
    }
  }

  /** Columns past the board are all one. */
  lemma PaintPast(col: seq<Color>, n: nat, step: nat, y: nat, x: nat)
    requires n > 0 && step > 0 && n <= x && Painted(col, n, step, y, x)
    ensures Painted(col, n, step, y, n)
  {
    forall k | 0 <= k < Area(n)
      ensures X(n, k) < n
    {
      CellOfIndex(n, k);
    }
  }

  /** Past the last column of a row: the rows up to the next lattice row hold nothing more. */
  lemma PaintRowEnd(col: seq<Color>, n: nat, step: nat, y: nat, x: nat)
    requires n > 0 && step > 0 && n <= x && y % step == 0 && Painted(col, n, step, y, x)
    ensures Painted(col, n, step, y + step, 0)
  {
    forall k | 0 <= k < Area(n)
      ensures col[k] == (if Y(n, k) < y + step then LatticeColor(n, step, k) else None)
    {
      CellOfIndex(n, k);
      if y < Y(n, k) < y + step {
        OffLattice(y, Y(n, k) - y, step);
      }
    }
  }

  /** Past the last row, the whole lattice is laid out. */
  lemma PaintDone(col: seq<Color>, n: nat, step: nat, y: nat)
    requires n > 0 && step > 0 && n <= y && Painted(col, n, step, y, 0)
    ensures col == seq(Area(n), k requires 0 <= k < Area(n) => LatticeColor(n, step, k))
  {
    forall k | 0 <= k < Area(n)
      ensures col[k] == LatticeColor(n, step, k)
    {
      CellOfIndex(n, k);
    }
  }

  // ----------------------------------------------------------- state ---

  class State {
    const size: nat
    var black: seq<bool>
    var white: seq<bool>
    var winner: Color
    var justPlayed: Color
    var gameOver: bool
    const finder: MoveFinder

    /** A 9, 13 or 19 line board on two bitsets that never share a cell. */
    ghost predicate Valid()
      reads this`black, this`white, this`justPlayed
    {
      size in {9, 13, 19} && |black| == Area(size) && |white| == Area(size) &&
      (forall i :: 0 <= i < Area(size) ==> !(black[i] && white[i])) &&
      IsPlayer(justPlayed) && finder.size == size
    }

    /** The colour of every cell, `color(i)` for each i. */
    /** `State()`, that is `clear()`: a zeroed state set up by `initial()`. */
    constructor (size: nat)
      requires size in {9, 13, 19}
      ensures Valid() && this.size == size && Colors() == Start(size)
      ensures winner == None && justPlayed == White && !gameOver
    {
      this.size := size;
      black, white := seq(Area(size), _ => false), seq(Area(size), _ => false);
      winner, justPlayed, gameOver := None, White, false;
      finder := new MoveFinder(size);
      new;
      Initial();
    }

    /** `initial()`: an empty board, then the opening stones for the board's size; other sizes are fatal. */
    method Initial()
      requires size in {9, 13, 19} && finder.size == size
      modifies this
      ensures Valid() && Colors() == Start(size)
      ensures winner == None && justPlayed == White && gameOver == old(gameOver)
    {
      winner, justPlayed := None, White;
      black, white := seq(Area(size), _ => false), seq(Area(size), _ => false);
      var step := 0;
      if size == 19 {
        step := 6;
      } else if size == 13 {
        step := 4;
      } else {
        Setup9x9();
        return;
      }
      var c := Black;
      var y := 0;
      ghost var b := 0;
      while y < size
        invariant Valid() && winner == None && justPlayed == White && gameOver == old(gameOver)
        invariant y == b * step && c == Parity(b) && Painted(Colors(), size, step, y, 0)
      {
        LatticeBound(size, step, b);
        c := InitialRow(c, y, step, b);
        c := Other(c);
        y := y + step;
        b := b + 1;
      }
      PaintDone(Colors(), size, step, y);
    }

    /** One pass of the outer loop of `initial()`: the lattice points of row y = b*step, colours alternating from c. */
    method InitialRow(c0: Color, y: nat, step: nat, ghost b: nat) returns (c: Color)
      requires Valid() && ((size == 13 && step == 4) || (size == 19 && step == 6))
      requires y < size && y == b * step && c0 == Parity(b) && Painted(Colors(), size, step, y, 0)
      modifies this
      ensures Valid() && Other(c) == Parity(b + 1) && Painted(Colors(), size, step, y + step, 0)
      ensures winner == old(winner) && justPlayed == old(justPlayed) && gameOver == old(gameOver)
    {
      c := c0;
      var x := 0;
      ghost var a := 0;
      var row := y * size;
      while x < size
        invariant Valid() && winner == old(winner) && justPlayed == old(justPlayed) && gameOver == old(gameOver)
        invariant x == a * step && a <= 4 && c == Parity(a + b) && Painted(Colors(), size, step, y, x)
      {
        LatticeBound(size, step, a);
        InitialPoint(c, x, y, row, step, a, b);
        ParityStep(a + b);
        c := Other(c);
        x := x + step;
        a := a + 1;
      }
      LatticeBound(size, step, a);
      ParityStep(b);
      PaintPast(Colors(), size, step, y, x);
      DivModUnique(step, y, 0, b);
      PaintRowEnd(Colors(), size, step, y, size);
    }

    /** One pass of the inner loop of `initial()`: the lattice point x = a*step of row y = b*step gets colour c. */
    method InitialPoint(c: Color, x: nat, y: nat, row: nat, step: nat, ghost a: nat, ghost b: nat)
      requires Valid() && ((size == 13 && step == 4) || (size == 19 && step == 6))
      requires x < size && y < size && row == y * size && x == a * step && y == b * step
      requires c == Parity(a + b) && Painted(Colors(), size, step, y, x)
      modifies this
      ensures Valid() && Painted(Colors(), size, step, y, x + step)
      ensures winner == old(winner) && justPlayed == old(justPlayed) && gameOver == old(gameOver)
    {
      ghost var col := Colors();
      PaintStep(col, size, step, y, x, a, b);
      Place(c, x + row);
      assert Colors() == col[x + y * size := Parity(a + b)];
    }

    /** `setup9x9()`: White on (1, 1) and (7, 7), Black on (7, 1) and (1, 7). */
    method Setup9x9()
      requires size == 9 && finder.size == size && IsPlayer(justPlayed)
      requires black == seq(Area(size), _ => false) && white == seq(Area(size), _ => false)
      modifies this
      ensures Valid() && Colors() == Start(size)
      ensures winner == old(winner) && justPlayed == old(justPlayed) && gameOver == old(gameOver)
    {
      AreaIsSquare(size);
      Place(White, 1 + 1 * 9);
      Place(Black, 7 + 1 * 9);
      Place(Black, 1 + 7 * 9);
      Place(White, 7 + 7 * 9);
    }

    function Colors(): (r: seq<Color>)
      reads this`black, this`white
      ensures |r| == |black| && forall i :: 0 <= i < |r| ==> r[i] == C6.CellColor(black, white, i)
    {
      var b, w := black, white;
      seq(|b|, i requires 0 <= i < |b| => C6.CellColor(b, w, i))
    }

    /** `color(i)`. */
    function Color(i: nat): (r: Color)
      reads this`black, this`white, this`justPlayed
      requires Valid() && i < Area(size)
      ensures r == Colors()[i]
    {
      C6.CellColor(black, white, i)
    }

    function Current(): Color
      reads this`justPlayed
    {
      Other(justPlayed)
    }

    /** `result(c)`. */
    function Result(c: Color): (r: real)
      reads this`winner
      ensures r == Turns.Outcome(winner, c)
    {
      Turns.Outcome(winner, c)
    }

    /** `operator[](i)`, the network input of cell i: 1 for Black, -1 for White, 0 for an empty cell. */
    function Feature(i: nat): (r: real)
      reads this`black, this`white, this`justPlayed
      requires Valid() && i < Area(size)
      ensures r == 1.0 <==> Colors()[i] == Black
      ensures r == -1.0 <==> Colors()[i] == White
      ensures r == 0.0 <==> Colors()[i] == None
    {
      if black[i] then 1.0 else if white[i] then -1.0 else 0.0
    }

    /** `valid_index(i)`: a cell is a legal index when it is empty. */
    predicate ValidIndex(i: nat)
      reads this`black, this`white, this`justPlayed
      requires Valid() && i < Area(size)
    {
      !(black[i] || white[i])
    }

    lemma ValidIndexIsEmpty(i: nat)
      requires Valid() && i < Area(size)
      ensures ValidIndex(i) <==> Colors()[i] == None
    {
    }

    /** `place(c, i)`: sets cell i in c's bitset; other colours are fatal. */
    method Place(c: Color, i: nat)
      requires Valid() && IsPlayer(c) && i < Area(size) && Colors()[i] != Other(c)
      modifies this
      ensures Valid() && Colors() == old(Colors())[i := c]
      ensures black == (if c == Black then old(black)[i := true] else old(black))
      ensures white == (if c == White then old(white)[i := true] else old(white))
      ensures winner == old(winner) && justPlayed == old(justPlayed) && gameOver == old(gameOver)
    {
      if c == Black {
        black := black[i := true];
      } else {
        white := white[i := true];
      }
    }

    /** `remove(i)`: the cell must be occupied; its bit is cleared. */
    method Remove(i: nat)
      requires Valid() && i < Area(size) && Colors()[i] != None
      modifies this
      ensures Valid() && Colors() == old(Colors())[i := None]
      ensures black == old(black)[i := false] && white == old(white)[i := false]
      ensures winner == old(winner) && justPlayed == old(justPlayed) && gameOver == old(gameOver)
    {
      if Color(i) == Black {
        black := black[i := false];
      } else {
        white := white[i := false];
      }
    }

    /** `count()` of a side's bitset is zero exactly when the board has no stone of that side. */
    lemma CountZero()
      requires Valid()
      ensures C6.Popcount(black) == 0 <==> !HasStones(Colors(), Black)
      ensures C6.Popcount(white) == 0 <==> !HasStones(Colors(), White)
    {
      PopcountZero(black);
      PopcountZero(white);
      if C6.Popcount(black) != 0 {
        var i :| 0 <= i < |black| && black[i];
        assert Colors()[i] == Black;
      }
      if C6.Popcount(white) != 0 {
        var i :| 0 <= i < |white| && white[i];
        assert Colors()[i] == White;
      }
    }

    /**
     * `move(m)`: places a stone of the side to move on m's cell, removes that
     * side's dead groups, and ends the game when a side has no stone left; the
     * side that still has stones wins.
     */
    method Move(m: Move)
      requires Valid() && finder.Valid() && m.index < Area(size) && Colors()[m.index] != Other(Current())
      modifies this, finder
      ensures Valid() && finder.Valid() && justPlayed == old(Current())
      ensures Colors() == Played(size, old(Colors()), m.index, old(Current()))
      ensures gameOver == (old(gameOver) || !HasStones(Colors(), Black) || !HasStones(Colors(), White))
      ensures winner == (if HasStones(Colors(), Black) == HasStones(Colors(), White) then old(winner)
                         else if HasStones(Colors(), Black) then Black else White)
    {
      var player := Current();
      Place(player, m.index);
      finder.RemoveDead(this);
      ghost var after := Colors();
      assert after == Played(size, old(Colors()), m.index, player);
      var bc, wc := C6.Popcount(black), C6.Popcount(white);
      CountZero();
      ghost var hasBlack, hasWhite := HasStones(after, Black), HasStones(after, White);
      assert (bc == 0 <==> !hasBlack) && (wc == 0 <==> !hasWhite);
      if bc == 0 || wc == 0 {
        gameOver := true;
        if bc == 0 && wc != 0 {
          winner := White;
        } else if bc != 0 && wc == 0 {
          winner := Black;
        }
      }
      justPlayed := player;
      assert Colors() == after;
    }

    /**
     * `moves(ml)`: clears the list; unless the game is over, lists every root
     * of the side to move once, and ends the game when there is none.
     */
    method Moves(ml: MoveList)
      requires Valid() && finder.Valid() && ml.size == size
      modifies this, finder, ml
      ensures Valid() && finder.Valid() && ml.m == MoveOf(0)
      ensures black == old(black) && white == old(white) && winner == old(winner) && justPlayed == old(justPlayed)
      ensures old(gameOver) ==> ml.items == [] && gameOver
      ensures !old(gameOver) ==> Listed(size, Colors(), Current(), ml.items)
      ensures !old(gameOver) ==> (gameOver <==> Roots(size, Colors(), Current()) == {})
    {
      ml.Clear();
      if gameOver {
        return;
      }
      var groups := finder.FindCurrent(this, ml);
      if |ml.items| == 0 {
        gameOver := true;
      } else {
        assert ml.items[0] in ToSet(ml.items);
      }
    }

    /**
     * `random_move(ml, m)`: lists the moves; with none it reports false and
     * leaves m alone, otherwise it picks one of them (the choice of `random()`
     * is left open).
     */
    method RandomMove(ml: MoveList, m: Move) returns (found: bool, m': Move)
      requires Valid() && finder.Valid() && ml.size == size
      modifies this, finder, ml
      ensures Valid() && finder.Valid()
      ensures black == old(black) && white == old(white) && winner == old(winner) && justPlayed == old(justPlayed)
      ensures found <==> !old(gameOver) && Roots(size, Colors(), Current()) != {}
      ensures found ==> m'.index in Roots(size, Colors(), Current())
      ensures !found ==> m' == m
    {
      Moves(ml);
      if |ml.items| == 0 {
        return false, m;
      }
      var t :| 0 <= t < |ml.items|;
      assert ml.items[t] in ToSet(ml.items);
      return true, MoveOf(ml.items[t]);
    }

    /**
     * `score(maximise)`: the roots of Black less those of White, plus ten
     * times Black's groups less White's; `maximise` plays no part.
     */
    method Score(maximise: bool) returns (r: int)
      requires Valid() && finder.Valid()
      modifies finder
      ensures finder.Valid()
      ensures r == (|Roots(size, Colors(), Black)| - |Roots(size, Colors(), White)|) +
                   10 * (|Groups(size, Colors(), Black)| - |Groups(size, Colors(), White)|)
    {
      var ml := new MoveList(size);
      var gb: int := finder.Find(Black, this, ml);
      var cb := |ml.items|;
      DistinctCard(ml.items);
      ml.Clear();
      var gw: int := finder.Find(White, this, ml);
      var cw := |ml.items|;
      DistinctCard(ml.items);
      r := (cb - cw) + 10 * (gb - gw);
    }
  }

  // ---------------------------------------------------------- finder ---

  class MoveFinder {
    const size: nat
    var visited: set<nat>
    var visitedRemove: set<nat>
    var occupied: seq<bool>

    ghost predicate Valid()
      reads this
    {
      size > 0 && |occupied| == Area(size) &&
      (forall k :: k in visited ==> k < Area(size)) &&
      (forall k :: k in visitedRemove ==> k < Area(size))
    }

    /** Zeroed with the rest of the state. */
    constructor (size: nat)
      requires size > 0
      ensures this.size == size && Valid()
      ensures visited == {} && visitedRemove == {} && occupied == seq(Area(size), _ => false)
    {
      this.size := size;
      visited, visitedRemove := {}, {};
      occupied := seq(Area(size), _ => false);
    }

    ghost function Unvisited(): set<nat>
      reads this
    {
      Unseen(size, visited)
    }

    ghost function Unremoved(): set<nat>
      reads this
    {
      Unseen(size, visitedRemove)
    }

    /** `occupied` is `s.black | s.white`. */
    ghost predicate Synced(s: State)
      reads this, s
    {
      Valid() && s.Valid() && s.size == size && occupied == C6.Union(s.black, s.white)
    }

    /** The moves listed are distinct cells already visited. */
    ghost predicate Holding(ml: MoveList)
      reads this, ml
    {
      ml.size == size && Distinct(ml.items) && forall t :: 0 <= t < |ml.items| ==> ml.items[t] in visited
    }

    /** `reset()`: nothing occupied, nothing visited. */
    method Reset()
      requires Valid()
      modifies this
      ensures Valid() && visited == {} && occupied == seq(Area(size), _ => false)
      ensures visitedRemove == old(visitedRemove)
    {
      occupied := seq(Area(size), _ => false);
      visited := {};
    }

    /** `adjacent_occupied(s, c, d, m, i)`: the step from m in direction d is a stone of c other than i. */
    function AdjacentOccupied(s: State, c: Color, d: C4.Direction, m: nat, i: nat): bool
      reads s
      requires s.Valid()
    {
      if !C6.ValidDir(s.size, d, m) then false
      else var k := C6.MoveDir(s.size, d, m); k != i && s.Color(k) == c
    }

    /** `valid_move(c, s, m, i)`: no neighbour of m but i is a stone of c. */
    method ValidMove(c: Color, s: State, m: nat, i: nat) returns (ok: bool)
      requires s.Valid() && m < Area(s.size)
      ensures ok == Free(s.size, s.Colors(), c, m, i)
    {
      var d := 0;
      while d < 4
        invariant d <= 4
        invariant forall e :: 0 <= e < d ==> !AdjacentOccupied(s, c, Orth[e], m, i)
      {
        if AdjacentOccupied(s, c, Orth[d], m, i) {
          OrthNeighbour(s.size, d, m);
          return false;
        }
        d := d + 1;
      }
      forall j | j in Neighbours(s.size, m) && j != i
        ensures !Holds(s.Colors(), j, c)
      {
        NeighbourDir(s.size, m, j);
        var e :| 0 <= e < 4 && C6.ValidDir(s.size, Orth[e], m) && j == C6.MoveDir(s.size, Orth[e], m);
        assert !AdjacentOccupied(s, c, Orth[e], m, i);
      }
      return true;
    }

    /** `find_moves(c, s, ml, i)`: lists and marks the roots stone i may grow, in direction order. */
    method FindMoves(c: Color, s: State, ml: MoveList, i: nat)
      requires Synced(s) && Holding(ml) && IsPlayer(c)
      requires Holds(s.Colors(), i, c) && i in visited && Claimed(size, s.Colors(), c, visited - {i})
      modifies this, ml
      ensures Synced(s) && Holding(ml) && occupied == old(occupied) && visitedRemove == old(visitedRemove)
      ensures visited == old(visited) + ToSet(ExtList(size, s.Colors(), c, i)) && old(visited) !! ToSet(ExtList(size, s.Colors(), c, i))
      ensures ml.items == old(ml.items) + ExtList(size, s.Colors(), c, i) && ml.m == old(ml.m)
    {
      ghost var col := s.Colors();
      ghost var v0 := visited;
      var d := 0;
      while d < 4
        invariant d <= 4 && Synced(s) && col == s.Colors() && Holding(ml) && occupied == old(occupied) && visitedRemove == old(visitedRemove)
        invariant visited == v0 + ToSet(ExtUpTo(size, col, c, i, d)) && v0 !! ToSet(ExtUpTo(size, col, c, i, d))
        invariant ml.items == old(ml.items) + ExtUpTo(size, col, c, i, d) && ml.m == old(ml.m)
      {
        ghost var prev, last := ExtUpTo(size, col, c, i, d), ExtFrom(size, col, c, i, Orth[d]);
        ghost var items, seen := ml.items, visited;
        FindInDirection(c, s, ml, i, d, col, v0);
        var e := d + 1;
        ExtUpToNext(size, col, c, i, d, e);
        Accumulate(old(ml.items), prev, last, ExtUpTo(size, col, c, i, e), items, ml.items, v0, seen, visited);
        d := e;
      }
    }

    /** One pass of the loop of `find_moves`: the step from i in direction `Orth[d]`. */
    method FindInDirection(c: Color, s: State, ml: MoveList, i: nat, d: nat, ghost col: seq<Color>, ghost v0: set<nat>)
      requires d < 4 && Synced(s) && col == s.Colors() && Holding(ml) && IsPlayer(c) && Holds(col, i, c)
      requires i in v0 && Claimed(size, col, c, v0 - {i})
      requires visited == v0 + ToSet(ExtUpTo(size, col, c, i, d))
      modifies this, ml
      ensures Synced(s) && Holding(ml) && occupied == old(occupied) && visitedRemove == old(visitedRemove)
      ensures visited == old(visited) + ToSet(ExtFrom(size, col, c, i, Orth[d])) && v0 !! ToSet(ExtFrom(size, col, c, i, Orth[d]))
      ensures ml.items == old(ml.items) + ExtFrom(size, col, c, i, Orth[d]) && ml.m == old(ml.m)
    {
      if C6.ValidDir(size, Orth[d], i) {
        var k := C6.MoveDir(size, Orth[d], i);
        OrthNeighbour(size, d, i);
        if Extends(size, col, c, i, k) {
          Unclaimed(size, col, c, v0, i, k);
          ExtUpToFresh(size, col, c, i, d);
        }
        TryRoot(c, s, ml, i, k, col);
      }
    }

    /** The test of `find_moves` on cell k next to stone i: lists and marks k when it is an unmarked root of i. */
    method TryRoot(c: Color, s: State, ml: MoveList, i: nat, k: nat, ghost col: seq<Color>)
      requires Synced(s) && col == s.Colors() && Holding(ml) && IsPlayer(c)
      requires k < Area(size) && k in Neighbours(size, i) && (Extends(size, col, c, i, k) ==> k !in visited)
      modifies this, ml
      ensures Synced(s) && Holding(ml) && occupied == old(occupied) && visitedRemove == old(visitedRemove) && ml.m == old(ml.m)
      ensures visited == old(visited) + (if Extends(size, col, c, i, k) then {k} else {})
      ensures ml.items == old(ml.items) + (if Extends(size, col, c, i, k) then [k] else [])
    {
      if k !in visited && !occupied[k] {
        var ok := ValidMove(c, s, k, i);
        if ok {
          ListFits(size, ml.items, k);
          ml.Add(k);
          visited := visited + {k};
        }
      }
    }

    /**
     * `trace(c, s, ml, i)`: marks stone i, lists its roots and follows its
     * unvisited neighbours of colour c; returns the number of stones marked.
     */
    method Trace(c: Color, s: State, ml: MoveList, i: nat) returns (count: nat)
      requires Synced(s) && Holding(ml) && IsPlayer(c)
      requires Holds(s.Colors(), i, c) && i !in visited && Claimed(size, s.Colors(), c, visited)
      modifies this, ml
      ensures Synced(s) && Holding(ml) && occupied == old(occupied) && visitedRemove == old(visitedRemove)
      ensures old(visited) <= visited && i in visited && Claimed(size, s.Colors(), c, visited)
      ensures count == |Stones(s.Colors(), c, visited - old(visited))|
      ensures Grown(size, s.Colors(), c, i, visited, visited - old(visited))
      ensures Extended(old(ml.items), ml.items) && Gathered(size, s.Colors(), c, visited - old(visited), ml.items[|old(ml.items)|..])
      ensures ml.m == old(ml.m)
      decreases Unvisited(), 0
    {
      ghost var col := s.Colors();
      ghost var v0, l0 := visited, ml.items;
      UnseenMark(size, visited, i);
      visited := visited + {i};
      FindMoves(c, s, ml, i);
      ghost var v1, l1 := visited, ml.items;
      ExtListExact(size, col, c, i);
      ClaimedGrow(size, col, c, v0, v1, i);
      var more := Spread(c, s, ml, i);
      count := 1 + more;
      TraceSettle(size, col, c, i, v0, v1, visited, l0, l1, ml.items);
      GrownSettle(size, col, c, i, v0, v1, visited);
    }

    /** The loop of `trace` over the four directions, after stone i is marked and its roots listed. */
    method Spread(c: Color, s: State, ml: MoveList, i: nat) returns (count: nat)
      requires Synced(s) && Holding(ml) && IsPlayer(c)
      requires Holds(s.Colors(), i, c) && i in visited && Claimed(size, s.Colors(), c, visited)
      modifies this, ml
      ensures Synced(s) && Holding(ml) && occupied == old(occupied) && visitedRemove == old(visitedRemove)
      ensures old(visited) <= visited && Claimed(size, s.Colors(), c, visited)
      ensures count == |Stones(s.Colors(), c, visited - old(visited))|
      ensures Enclosed(size, s.Colors(), c, visited, i)
      ensures Grown(size, s.Colors(), c, i, visited, visited - old(visited))
      ensures Extended(old(ml.items), ml.items) && Gathered(size, s.Colors(), c, visited - old(visited), ml.items[|old(ml.items)|..])
      ensures ml.m == old(ml.m)
      decreases Unvisited(), 2
    {
      ghost var col := s.Colors();
      ghost var v1, l1 := visited, ml.items;
      assert visited - v1 == {} && ml.items[|l1|..] == [];
      assert Stones(col, c, visited - v1) == {};
      count := 0;
      var d := 0;
      while d < 4
        invariant d <= 4 && Synced(s) && col == s.Colors() && Holding(ml) && occupied == old(occupied) && visitedRemove == old(visitedRemove)
        invariant i in visited && v1 <= visited && Unvisited() <= old(Unvisited()) && Claimed(size, col, c, visited)
        invariant count == |Stones(col, c, visited - v1)| && Grown(size, col, c, i, visited, visited - v1)
        invariant Extended(l1, ml.items) && Gathered(size, col, c, visited - v1, ml.items[|l1|..])
        invariant CoveredDirs(size, col, c, i, d, visited) && ml.m == old(ml.m)
      {
        ghost var v := visited;
        count := TryTrace(c, s, ml, i, d, v1, l1, count);
        UnseenShrinks(size, v, visited);
        d := d + 1;
      }
      EnclosedByDirs(size, col, c, i, visited);
    }

    /** One pass of the loop of `trace`: the neighbour of stone i in direction `Orth[d]`. */
    method TryTrace(c: Color, s: State, ml: MoveList, i: nat, d: nat, ghost base: set<nat>, ghost items: seq<nat>, sum: nat)
      returns (count: nat)
      requires d < 4 && Synced(s) && Holding(ml) && IsPlayer(c)
      requires Holds(s.Colors(), i, c) && i in visited && Claimed(size, s.Colors(), c, visited)
      requires base <= visited && sum == |Stones(s.Colors(), c, visited - base)|
      requires Grown(size, s.Colors(), c, i, visited, visited - base) && CoveredDirs(size, s.Colors(), c, i, d, visited)
      requires Extended(items, ml.items) && Gathered(size, s.Colors(), c, visited - base, ml.items[|items|..])
      modifies this, ml
      ensures Synced(s) && Holding(ml) && occupied == old(occupied) && visitedRemove == old(visitedRemove)
      ensures old(visited) <= visited && Claimed(size, s.Colors(), c, visited)
      ensures count == |Stones(s.Colors(), c, visited - base)|
      ensures Grown(size, s.Colors(), c, i, visited, visited - base) && CoveredDirs(size, s.Colors(), c, i, d + 1, visited)
      ensures Extended(items, ml.items) && Gathered(size, s.Colors(), c, visited - base, ml.items[|items|..])
      ensures ml.m == old(ml.m)
      decreases Unvisited(), 1
    {
      ghost var col := s.Colors();
      count := sum;
      if C6.ValidDir(size, Orth[d], i) {
        var k := C6.MoveDir(size, Orth[d], i);
        if k !in visited && s.Color(k) == c {
          ghost var v, l := visited, ml.items;
          var more := Trace(c, s, ml, k);
          count := count + more;
          OrthNeighbour(size, d, i);
          GrownFrom(size, col, c, i, k, visited, visited - v);
          GrownJoin(size, col, c, i, base, v, visited);
          StonesSplit(col, c, base, v, visited);
          GatheredMore(size, col, c, base, v, visited, items, l, ml.items);
        }
      }
    }

    /**
     * `find(c, s, ml)`: traces each group of colour c from its first stone,
     * listing every root of c once; returns the number of groups.
     */
    method Find(c: Color, s: State, ml: MoveList) returns (groups: nat)
      requires Valid() && s.Valid() && s.size == size && ml.size == size && ml.items == [] && IsPlayer(c)
      modifies this, ml
      ensures Synced(s) && visitedRemove == old(visitedRemove) && ml.m == old(ml.m)
      ensures groups == |Groups(size, s.Colors(), c)|
      ensures Listed(size, s.Colors(), c, ml.items)
    {
      Reset();
      occupied := C6.Union(s.black, s.white);
      ghost var col := s.Colors();
      TallyStart(size, col, c);
      GatheredNothing(size, col, c);
      groups := 0;
      var i := 0;
      while i < Area(size)
        invariant i <= Area(size) && Synced(s) && col == s.Colors() && Holding(ml) && visitedRemove == old(visitedRemove) && ml.m == old(ml.m)
        invariant Scanned(size, col, c, visited, ml.items, i, groups)
      {
        groups := FindAt(c, s, ml, i, col, groups);
        i := i + 1;
      }
      assert i == |col|;
      TallyDone(size, col, c, visited, groups, ml.items);
    }

    /** One pass of the loop of `find(c, s, ml)`, at cell i: traces i when it is an unvisited stone of c. */
    method FindAt(c: Color, s: State, ml: MoveList, i: nat, ghost col: seq<Color>, groups: nat) returns (groups': nat)
      requires i < Area(size) && Synced(s) && Holding(ml) && IsPlayer(c) && col == s.Colors()
      requires Scanned(size, col, c, visited, ml.items, i, groups)
      modifies this, ml
      ensures Synced(s) && Holding(ml) && visitedRemove == old(visitedRemove) && ml.m == old(ml.m)
      ensures Scanned(size, col, c, visited, ml.items, i + 1, groups')
    {
      groups' := groups;
      if occupied[i] && i !in visited && s.Color(i) == c {
        ghost var v, l := visited, ml.items;
        var count := Trace(c, s, ml, i);
        ScanTrace(size, col, c, v, visited, l, ml.items, i, groups);
        groups' := groups + 1;
      } else {
        TallySkip(size, col, c, visited, i, groups);
      }
    }

    /** `find(s, ml)`: `find` for the side to move. */
    method FindCurrent(s: State, ml: MoveList) returns (groups: nat)
      requires Valid() && s.Valid() && s.size == size && ml.size == size && ml.items == []
      modifies this, ml
      ensures Synced(s) && visitedRemove == old(visitedRemove) && ml.m == old(ml.m)
      ensures groups == |Groups(size, s.Colors(), s.Current())|
      ensures Listed(size, s.Colors(), s.Current(), ml.items)
    {
      groups := Find(s.Current(), s, ml);
    }

    /** The board of `s` is `col0` with the cells of `gone`, all of them marked, emptied. */
    ghost predicate Clearing(s: State, col0: seq<Color>, gone: set<nat>)
      reads this, s
    {
      Valid() && s.Valid() && s.size == size && |col0| == Area(size) && gone <= visitedRemove &&
      s.Colors() == Cleared(col0, gone)
    }

    /** What `remove_group` leaves: the cells marked since `before` are stones of c grown from i, and emptied. */
    ghost predicate Swept(s: State, col0: seq<Color>, c: Color, gone: set<nat>, before: set<nat>, i: nat)
      reads this, s
    {
      Sweep(size, col0, c, i, before, visitedRemove) && Clearing(s, col0, gone + (visitedRemove - before))
    }

    /**
     * `remove_adjacent(c, s, d, i)`: removes the group of the step from i in
     * direction d when that cell is an unmarked stone of c.
     */
    method RemoveAdjacent(c: Color, s: State, d: C4.Direction, i: nat, ghost col0: seq<Color>, ghost gone: set<nat>)
      requires Clearing(s, col0, gone) && IsPlayer(c) && C6.ValidDir(size, d, i)
      modifies this, s
      ensures Swept(s, col0, c, gone, old(visitedRemove), C6.MoveDir(size, d, i))
      ensures Holds(col0, C6.MoveDir(size, d, i), c) ==> C6.MoveDir(size, d, i) in visitedRemove
      ensures s.winner == old(s.winner) && s.justPlayed == old(s.justPlayed) && s.gameOver == old(s.gameOver)
      decreases Unremoved(), 1
    {
      var k := C6.MoveDir(size, d, i);
      if k in visitedRemove || s.Color(k) != c {
        assert visitedRemove - old(visitedRemove) == {} && gone + {} == gone;
        return;
      }
      RemoveGroup(c, s, k, col0, gone);
    }

    /**
     * `remove_group(c, s, i)`: marks stone i, removes the rest of its group
     * through `remove_adjacent` in each direction, then removes i.
     */
    method RemoveGroup(c: Color, s: State, i: nat, ghost col0: seq<Color>, ghost gone: set<nat>)
      requires Clearing(s, col0, gone) && IsPlayer(c) && Holds(col0, i, c) && i !in visitedRemove
      modifies this, s
      ensures Swept(s, col0, c, gone, old(visitedRemove), i) && i in visitedRemove
      ensures s.winner == old(s.winner) && s.justPlayed == old(s.justPlayed) && s.gameOver == old(s.gameOver)
      decreases Unremoved(), 0
    {
      ghost var v0 := visitedRemove;
      UnseenMark(size, visitedRemove, i);
      visitedRemove := visitedRemove + {i};
      RemoveSpread(c, s, i, col0, gone);
      ghost var x := gone + (visitedRemove - (v0 + {i}));
      assert i !in x;
      s.Remove(i);
      SweepMark(size, col0, c, i, gone, v0, visitedRemove);
      ClearedMore(col0, x, i);
    }

    /** The loop of `remove_group` over the four directions, after stone i is marked. */
    method RemoveSpread(c: Color, s: State, i: nat, ghost col0: seq<Color>, ghost gone: set<nat>)
      requires Clearing(s, col0, gone) && IsPlayer(c) && Holds(col0, i, c) && i in visitedRemove
      modifies this, s
      ensures Swept(s, col0, c, gone, old(visitedRemove), i) && Enclosed(size, col0, c, visitedRemove, i)
      ensures s.winner == old(s.winner) && s.justPlayed == old(s.justPlayed) && s.gameOver == old(s.gameOver)
      decreases Unremoved(), 3
    {
      ghost var v1 := visitedRemove;
      assert gone + (visitedRemove - v1) == gone;
      var d := 0;
      while d < 4
        invariant d <= 4 && Swept(s, col0, c, gone, v1, i) && Unremoved() <= old(Unremoved())
        invariant CoveredDirs(size, col0, c, i, d, visitedRemove)
        invariant s.winner == old(s.winner) && s.justPlayed == old(s.justPlayed) && s.gameOver == old(s.gameOver)
      {
        ghost var v := visitedRemove;
        SweepDir(c, s, i, d, col0, gone, v1);
        UnseenShrinks(size, v, visitedRemove);
        d := d + 1;
      }
      EnclosedByDirs(size, col0, c, i, visitedRemove);
    }

    /** One pass of the loop of `remove_group`: the neighbour of stone i in direction `Orth[d]`. */
    method SweepDir(c: Color, s: State, i: nat, d: nat, ghost col0: seq<Color>, ghost gone: set<nat>, ghost v1: set<nat>)
      requires d < 4 && Swept(s, col0, c, gone, v1, i) && IsPlayer(c) && Holds(col0, i, c)
      requires CoveredDirs(size, col0, c, i, d, visitedRemove)
      modifies this, s
      ensures old(visitedRemove) <= visitedRemove && Swept(s, col0, c, gone, v1, i)
      ensures CoveredDirs(size, col0, c, i, d + 1, visitedRemove)
      ensures s.winner == old(s.winner) && s.justPlayed == old(s.justPlayed) && s.gameOver == old(s.gameOver)
      decreases Unremoved(), 2
    {
      if C6.ValidDir(size, Orth[d], i) {
        ghost var v := visitedRemove;
        RemoveAdjacent(c, s, Orth[d], i, col0, gone + (v - v1));
        OrthNeighbour(size, d, i);
        SweepJoin(size, col0, c, i, C6.MoveDir(size, Orth[d], i), gone, v1, v, visitedRemove);
      }
    }

    /**
     * `remove_dead(s)`: traces every group of the side to move, keeping the
     * first stone of each group that lists no root, then removes the kept
     * groups. The board loses exactly the dead stones of the side to move.
     */
    method RemoveDead(s: State)
      requires Valid() && s.Valid() && s.size == size
      modifies this, s
      ensures Valid() && s.Valid()
      ensures s.Colors() == Cleared(old(s.Colors()), Dead(size, old(s.Colors()), old(s.Current())))
      ensures s.winner == old(s.winner) && s.justPlayed == old(s.justPlayed) && s.gameOver == old(s.gameOver)
    {
      var c := s.Current();
      ghost var col := s.Colors();
      var toRemove := CollectDead(c, s, col);
      assert Cleared(col, {}) == col;
      RemoveAll(c, s, toRemove, col);
    }

    /**
     * The first loop of `remove_dead`: one stone from each dead group of c,
     * met in cell order, so that their groups are distinct.
     */
    method CollectDead(c: Color, s: State, ghost col: seq<Color>) returns (toRemove: seq<nat>)
      requires Valid() && s.Valid() && s.size == size && IsPlayer(c) && col == s.Colors()
      modifies this
      ensures Valid() && (toRemove != [] ==> visitedRemove == {})
      ensures GroupUnion(size, col, c, toRemove) == Dead(size, col, c)
      ensures Kept(size, col, c, toRemove)
    {
      Reset();
      occupied := C6.Union(s.black, s.white);
      var ml := new MoveList(size);
      toRemove := [];
      ghost var groups := 0;
      DeadScanStart(size, col, c);
      var i := 0;
      while i < Area(size)
        invariant i <= Area(size) && Synced(s) && ml.size == size && col == s.Colors()
        invariant DeadScan(size, col, c, visited, i, groups, toRemove)
        invariant toRemove != [] ==> visitedRemove == {}
      {
        toRemove, groups := ScanDead(c, s, ml, i, toRemove, col, groups);
        i := i + 1;
      }
      assert i == |col|;
      DeadScanDone(size, col, c, visited, groups, toRemove);
    }

    /** One pass of the first loop of `remove_dead`, at cell i. */
    method ScanDead(c: Color, s: State, ml: MoveList, i: nat, tr: seq<nat>, ghost col: seq<Color>, ghost groups: nat)
      returns (tr': seq<nat>, ghost groups': nat)
      requires i < Area(size) && Synced(s) && ml.size == size && IsPlayer(c) && col == s.Colors()
      requires DeadScan(size, col, c, visited, i, groups, tr)
      requires tr != [] ==> visitedRemove == {}
      modifies this, ml
      ensures Synced(s) && DeadScan(size, col, c, visited, i + 1, groups', tr')
      ensures tr' != [] ==> visitedRemove == {}
    {
      tr', groups' := tr, groups;
      ml.Clear();
      if occupied[i] && i !in visited && s.Color(i) == c {
        ghost var v := visited;
        var count := Trace(c, s, ml, i);
        visitedRemove := {};
        assert ml.items[0..] == ml.items;
        DeadTrace(size, col, c, v, visited, ml.items, i, groups, tr);
        if |ml.items| == 0 {
          tr' := tr + [i];
        }
        groups' := groups + 1;
      } else {
        DeadSkip(size, col, c, visited, i, groups, tr);
      }
    }

    /** The second loop of `remove_dead`: the group of each kept stone, in turn. */
    method RemoveAll(c: Color, s: State, toRemove: seq<nat>, ghost col: seq<Color>)
      requires Clearing(s, col, {}) && IsPlayer(c) && (toRemove != [] ==> visitedRemove == {})
      requires Kept(size, col, c, toRemove)
      modifies this, s
      ensures Valid() && s.Valid() && s.Colors() == Cleared(col, GroupUnion(size, col, c, toRemove))
      ensures s.winner == old(s.winner) && s.justPlayed == old(s.justPlayed) && s.gameOver == old(s.gameOver)
    {
      if toRemove == [] {
        return;
      }
      var t := 0;
      while t < |toRemove|
        invariant t <= |toRemove| && Clearing(s, col, GroupUnion(size, col, c, toRemove[..t]))
        invariant visitedRemove == GroupUnion(size, col, c, toRemove[..t])
        invariant s.winner == old(s.winner) && s.justPlayed == old(s.justPlayed) && s.gameOver == old(s.gameOver)
      {
        RemoveNext(c, s, toRemove[t], col, GroupUnion(size, col, c, toRemove[..t]));
        GroupUnionStep(size, col, c, toRemove, t);
        t := t + 1;
      }
      assert toRemove[..|toRemove|] == toRemove;
    }

    /** One pass of the second loop of `remove_dead`: `remove_group(s.color(r), s, r)` removes r's group. */
    method RemoveNext(c: Color, s: State, r: nat, ghost col: seq<Color>, ghost gone: set<nat>)
      requires Clearing(s, col, gone) && visitedRemove == gone && IsPlayer(c)
      requires Holds(col, r, c) && Group(size, col, c, r) !! gone
      modifies this, s
      ensures Clearing(s, col, gone + Group(size, col, c, r)) && visitedRemove == gone + Group(size, col, c, r)
      ensures s.winner == old(s.winner) && s.justPlayed == old(s.justPlayed) && s.gameOver == old(s.gameOver)
    {
      GroupHasSelf(size, col, c, r);
      var rc := s.Color(r);
      RemoveGroup(rc, s, r, col, gone);
      RemovedIsGroup(size, col, c, r, gone, visitedRemove);
    }
  }
}
