// Flood fills over a square board of colours (engine/search.h): edge-to-edge
// connection, group size and liberty counting, each a depth-first search that
// marks the cells it has seen.
module Search {
  import opened Common

  /** A cell (x, y); the board is read as `grid[y][x]`, like `Rectangle::get`. */
  type Cell = (int, int)

  /** The edge a connection search is aiming for. */
  datatype Direction = XDir | YDir

  predicate OnGrid(n: nat, c: Cell)
  {
    0 <= c.0 < n && 0 <= c.1 < n
  }

  /** A board of n rows of n colours. */
  predicate Square(n: nat, grid: seq<seq<Color>>)
  {
    |grid| == n && forall y :: 0 <= y < n ==> |grid[y]| == n
  }

  /** Cell c is on the board and holds colour k. */
  predicate Holds(grid: seq<seq<Color>>, c: Cell, k: Color)
  {
    0 <= c.1 < |grid| && 0 <= c.0 < |grid[c.1]| && grid[c.1][c.0] == k
  }

  /** The four orthogonal neighbours; the ones off the board are never used. */
  function Neighbours(c: Cell): set<Cell>
  {
    {(c.0 - 1, c.1), (c.0 + 1, c.1), (c.0, c.1 - 1), (c.0, c.1 + 1)}
  }

  lemma NeighboursSymmetric(c: Cell, d: Cell)
    requires d in Neighbours(c)
    ensures c in Neighbours(d)
  {
  }

  /** `isTarget`: the last column for `XDIR`, the last row for `YDIR`. */
  predicate IsTarget(n: nat, dir: Direction, c: Cell)
  {
    match dir
    case XDir => c.0 == n - 1
    case YDir => c.1 == n - 1
  }

  /** The edge the searches start from: the first column or the first row. */
  predicate IsStart(dir: Direction, c: Cell)
  {
    match dir
    case XDir => c.0 == 0
    case YDir => c.1 == 0
  }

  /** A walk through orthogonally adjacent cells of colour k. */
  ghost predicate Path(grid: seq<seq<Color>>, k: Color, p: seq<Cell>)
  {
    |p| >= 1 &&
    (forall i :: 0 <= i < |p| ==> Holds(grid, p[i], k)) &&
    (forall i :: 0 < i < |p| ==> p[i] in Neighbours(p[i - 1]))
  }

  /** A path of colour k from the start edge to the target edge. */
  ghost predicate Crossing(n: nat, grid: seq<seq<Color>>, k: Color, dir: Direction)
  {
    exists p :: Path(grid, k, p) && IsStart(dir, p[0]) && IsTarget(n, dir, p[|p| - 1])
  }

  ghost predicate Reach(grid: seq<seq<Color>>, k: Color, a: Cell, b: Cell)
  {
    exists p :: Path(grid, k, p) && p[0] == a && p[|p| - 1] == b
  }

  /** The 4-connected group of colour k that holds cell a. */
  ghost function Group(n: nat, grid: seq<seq<Color>>, k: Color, a: Cell): set<Cell>
  {
    set x, y | 0 <= x < n && 0 <= y < n && Reach(grid, k, a, (x, y)) :: (x, y)
  }

  /** Every neighbour of c with colour k has been seen. */
  ghost predicate Enclosed(grid: seq<seq<Color>>, k: Color, seen: set<Cell>, c: Cell)
  {
    forall d :: d in Neighbours(c) && Holds(grid, d, k) ==> d in seen
  }

  /**
   * What a failed connection search leaves behind: none of the cells in
   * `added` is a target, and their neighbours of colour k have all been seen.
   */
  ghost predicate Closed(n: nat, grid: seq<seq<Color>>, k: Color, dir: Direction,
                         seen: set<Cell>, added: set<Cell>)
  {
    forall c :: c in added ==> !IsTarget(n, dir, c) && Enclosed(grid, k, seen, c)
  }

  // ------------------------------------------------- lemmas on the sets ---

  /** Seeing more cells keeps a closed set closed. */
  lemma ClosedGrow(n: nat, grid: seq<seq<Color>>, k: Color, dir: Direction,
                   a: set<Cell>, b: set<Cell>, c: set<Cell>)
    requires a <= b <= c
    requires Closed(n, grid, k, dir, b, b - a)
    requires Closed(n, grid, k, dir, c, c - b)
    ensures Closed(n, grid, k, dir, c, c - a)
  {
    forall e | e in c - a
      ensures !IsTarget(n, dir, e) && Enclosed(grid, k, c, e)
    {
      if e !in b {
        assert e in c - b;
      }
    }
  }

  /**
   * The four `SEARCH(x, y, cond)` expansions of a walk step, in their order:
   * west, east, north, south, each with the guard that keeps it on the board.
   */
  function Steps(n: nat, c: Cell): (r: seq<(Cell, bool)>)
    ensures |r| == 4
    ensures forall i :: 0 <= i < 4 ==> r[i].0 in Neighbours(c)
    ensures OnGrid(n, c) ==> forall i :: 0 <= i < 4 ==> r[i].1 == OnGrid(n, r[i].0)
  {
    [((c.0 - 1, c.1), c.0 > 0), ((c.0 + 1, c.1), c.0 < n - 1),
     ((c.0, c.1 - 1), c.1 > 0), ((c.0, c.1 + 1), c.1 < n - 1)]
  }

  /** The first i steps that land on colour k land on seen cells. */
  ghost predicate Covered(grid: seq<seq<Color>>, k: Color, r: seq<(Cell, bool)>, i: nat, seen: set<Cell>)
    requires i <= |r|
  {
    forall j :: 0 <= j < i && Holds(grid, r[j].0, k) ==> r[j].0 in seen
  }

  lemma CoveredStep(grid: seq<seq<Color>>, k: Color, r: seq<(Cell, bool)>, i: nat, a: set<Cell>, b: set<Cell>)
    requires i < |r| && Covered(grid, k, r, i, a) && a <= b
    requires Holds(grid, r[i].0, k) ==> r[i].0 in b
    ensures Covered(grid, k, r, i + 1, b)
  {
  }

  /** A cell whose four neighbours of colour k are all seen is enclosed. */
  lemma EnclosedBySteps(n: nat, grid: seq<seq<Color>>, k: Color, seen: set<Cell>, c: Cell)
    requires Covered(grid, k, Steps(n, c), 4, seen)
    ensures Enclosed(grid, k, seen, c)
  {
    var r := Steps(n, c);
    assert Holds(grid, r[0].0, k) ==> r[0].0 in seen;
    assert Holds(grid, r[1].0, k) ==> r[1].0 in seen;
    assert Holds(grid, r[2].0, k) ==> r[2].0 in seen;
    assert Holds(grid, r[3].0, k) ==> r[3].0 in seen;
  }

  /** The cells of an n by n board not yet seen. */
  ghost function UnseenOf(n: nat, seen: set<Cell>): set<Cell>
  {
    set x, y | 0 <= x < n && 0 <= y < n && (x, y) !in seen :: (x, y)
  }

  lemma UnseenShrinks(n: nat, a: set<Cell>, b: set<Cell>)
    requires a <= b
    ensures UnseenOf(n, b) <= UnseenOf(n, a)
  {
  }

  /** Marking an unseen cell of the board takes it out of the unseen ones. */
  lemma UnseenMark(n: nat, a: set<Cell>, c: Cell)
    requires OnGrid(n, c) && c !in a
    ensures UnseenOf(n, a + {c}) < UnseenOf(n, a)
  {
    assert c in UnseenOf(n, a) && c !in UnseenOf(n, a + {c});
  }

  /** Adding the settled start cell to the cells a search closed. */
  lemma Settle(n: nat, grid: seq<seq<Color>>, k: Color, dir: Direction,
               before: set<Cell>, seen: set<Cell>, c: Cell)
    requires c !in before && before + {c} <= seen
    requires !IsTarget(n, dir, c) && Enclosed(grid, k, seen, c)
    requires Closed(n, grid, k, dir, seen, seen - (before + {c}))
    ensures Closed(n, grid, k, dir, seen, seen - before)
  {
    assert seen - before == (seen - (before + {c})) + {c};
  }

  lemma CountSplit<T>(a: set<T>, b: set<T>, c: set<T>)
    requires a <= b <= c
    ensures |c - a| == |b - a| + |c - b|
  {
    assert c - a == (b - a) + (c - b);
  }

  /** Every cell of a path that starts in a set enclosed under colour k lies in that set. */
  lemma {:induction false} PathStaysIn(grid: seq<seq<Color>>, k: Color, seen: set<Cell>, p: seq<Cell>, i: nat)
    requires Path(grid, k, p) && p[0] in seen && i < |p|
    requires forall c {:trigger Enclosed(grid, k, seen, c)} :: c in seen ==> Enclosed(grid, k, seen, c)
    ensures p[i] in seen
  {
    if i > 0 {
      PathStaysIn(grid, k, seen, p, i - 1);
      assert Enclosed(grid, k, seen, p[i - 1]);
      assert p[i] in Neighbours(p[i - 1]) && Holds(grid, p[i], k);
    }
  }

  /**
   * A failed search from the start edge leaves no crossing: every crossing
   * would begin on a seen cell and stay among seen cells, none a target.
   */
  lemma NoCrossing(n: nat, grid: seq<seq<Color>>, k: Color, dir: Direction, seen: set<Cell>)
    requires Closed(n, grid, k, dir, seen, seen)
    requires forall c :: IsStart(dir, c) && Holds(grid, c, k) ==> c in seen
    ensures !Crossing(n, grid, k, dir)
  {
    if Crossing(n, grid, k, dir) {
      var p :| Path(grid, k, p) && IsStart(dir, p[0]) && IsTarget(n, dir, p[|p| - 1]);
      PathStaysIn(grid, k, seen, p, |p| - 1);
      assert false;
    }
  }

  lemma ReachPrepend(grid: seq<seq<Color>>, k: Color, c: Cell, d: Cell, e: Cell)
    requires Holds(grid, c, k) && d in Neighbours(c) && Reach(grid, k, d, e)
    ensures Reach(grid, k, c, e)
  {
    var q :| Path(grid, k, q) && q[0] == d && q[|q| - 1] == e;
    var p := [c] + q;
    assert forall i :: 0 < i < |p| ==> p[i] == q[i - 1];
    assert Path(grid, k, p);
  }

  lemma ReachSelf(grid: seq<seq<Color>>, k: Color, c: Cell)
    requires Holds(grid, c, k)
    ensures Reach(grid, k, c, c)
  {
    assert Path(grid, k, [c]);
  }

  /** Paths can be walked backwards. */
  lemma ReachSymmetric(grid: seq<seq<Color>>, k: Color, a: Cell, b: Cell)
    requires Reach(grid, k, a, b)
    ensures Reach(grid, k, b, a)
  {
    var p :| Path(grid, k, p) && p[0] == a && p[|p| - 1] == b;
    var q := seq(|p|, i requires 0 <= i < |p| => p[|p| - 1 - i]);
    forall i | 0 < i < |q|
      ensures q[i] in Neighbours(q[i - 1])
    {
      NeighboursSymmetric(p[|p| - 1 - i], p[|p| - i]);
    }
    assert Path(grid, k, q);
  }

  /** Paths can be joined end to start. */
  lemma ReachTransitive(grid: seq<seq<Color>>, k: Color, a: Cell, b: Cell, c: Cell)
    requires Reach(grid, k, a, b) && Reach(grid, k, b, c)
    ensures Reach(grid, k, a, c)
  {
    var p :| Path(grid, k, p) && p[0] == a && p[|p| - 1] == b;
    var q :| Path(grid, k, q) && q[0] == b && q[|q| - 1] == c;
    var r := p + q[1..];
    assert forall i :: |p| <= i < |r| ==> r[i] == q[i - |p| + 1];
    assert Path(grid, k, r);
  }

  /** Cells that reach each other have the same group. */
  lemma GroupOfMember(n: nat, grid: seq<seq<Color>>, k: Color, a: Cell, b: Cell)
    requires Reach(grid, k, a, b)
    ensures Group(n, grid, k, b) == Group(n, grid, k, a)
  {
    ReachSymmetric(grid, k, a, b);
    forall e | Reach(grid, k, a, e)
      ensures Reach(grid, k, b, e)
    {
      ReachTransitive(grid, k, b, a, e);
    }
    forall e | Reach(grid, k, b, e)
      ensures Reach(grid, k, a, e)
    {
      ReachTransitive(grid, k, a, b, e);
    }
  }

  /**
   * A set of fresh cells that all reach a and are enclosed, next to seen
   * cells that are themselves enclosed, is exactly a's group.
   */
  lemma GroupIsFresh(n: nat, grid: seq<seq<Color>>, k: Color, a: Cell, before: set<Cell>, seen: set<Cell>)
    requires Square(n, grid) && before <= seen && a in seen - before
    requires forall c {:trigger Enclosed(grid, k, seen, c)} :: c in seen ==> Enclosed(grid, k, seen, c)
    requires forall c {:trigger Enclosed(grid, k, before, c)} :: c in before ==> Enclosed(grid, k, before, c)
    requires forall c :: c in seen - before ==> Reach(grid, k, a, c)
    ensures Group(n, grid, k, a) == seen - before
  {
    forall c | c in seen - before
      ensures c in Group(n, grid, k, a)
    {
      var p :| Path(grid, k, p) && p[0] == a && p[|p| - 1] == c;
      assert OnGrid(n, c);
    }
    forall c | c in Group(n, grid, k, a)
      ensures c in seen - before
    {
      var p :| Path(grid, k, p) && p[0] == a && p[|p| - 1] == c;
      PathStaysIn(grid, k, seen, p, |p| - 1);
      if c in before {
        ReachSymmetric(grid, k, a, c);
        var q :| Path(grid, k, q) && q[0] == c && q[|q| - 1] == a;
        PathStaysIn(grid, k, before, q, |q| - 1);
      }
    }
  }

  /**
   * What `length` leaves behind: every added cell has colour k, reaches a,
   * and has all its neighbours of colour k seen.
   */
  ghost predicate Grown(grid: seq<seq<Color>>, k: Color, a: Cell, seen: set<Cell>, added: set<Cell>)
  {
    forall e :: e in added ==> Holds(grid, e, k) && Enclosed(grid, k, seen, e) && Reach(grid, k, a, e)
  }

  /** Cells grown from neighbour d of c are grown from c as well. */
  lemma GrownFrom(grid: seq<seq<Color>>, k: Color, c: Cell, d: Cell, seen: set<Cell>, added: set<Cell>)
    requires Holds(grid, c, k) && d in Neighbours(c) && Grown(grid, k, d, seen, added)
    ensures Grown(grid, k, c, seen, added)
  {
    forall e | e in added
      ensures Reach(grid, k, c, e)
    {
      ReachPrepend(grid, k, c, d, e);
    }
  }

  lemma GrownJoin(grid: seq<seq<Color>>, k: Color, c: Cell, a: set<Cell>, b: set<Cell>, s: set<Cell>)
    requires a <= b <= s
    requires Grown(grid, k, c, b, b - a) && Grown(grid, k, c, s, s - b)
    ensures Grown(grid, k, c, s, s - a)
  {
    forall e | e in s - a
      ensures Holds(grid, e, k) && Enclosed(grid, k, s, e) && Reach(grid, k, c, e)
    {
      if e !in b {
        assert e in s - b;
      }
    }
  }

  /** The start cell joins the cells grown from it. */
  lemma GrownSettle(grid: seq<seq<Color>>, k: Color, c: Cell, before: set<Cell>, seen: set<Cell>)
    requires c !in before && before + {c} <= seen
    requires Holds(grid, c, k) && Enclosed(grid, k, seen, c)
    requires Grown(grid, k, c, seen, seen - (before + {c}))
    ensures Grown(grid, k, c, seen, seen - before)
    ensures |seen - before| == 1 + |seen - (before + {c})|
  {
    ReachSelf(grid, k, c);
    assert seen - before == (seen - (before + {c})) + {c};
  }

  /**
   * What `longest` keeps while it scans: the seen cells all have colour k
   * and are enclosed, no group among them is larger than best, and when
   * best is positive one of them has exactly that size.
   */
  ghost predicate Tallied(n: nat, grid: seq<seq<Color>>, k: Color, seen: set<Cell>, best: nat)
  {
    (forall e {:trigger Enclosed(grid, k, seen, e)} :: e in seen ==> Holds(grid, e, k) && Enclosed(grid, k, seen, e)) &&
    (forall e :: e in seen ==> |Group(n, grid, k, e)| <= best) &&
    (best > 0 ==> exists e :: e in seen && |Group(n, grid, k, e)| == best)
  }

  /** One call of `length` from an unseen cell s, followed by the comparison with best. */
  lemma TallyStep(n: nat, grid: seq<seq<Color>>, k: Color, before: set<Cell>, seen: set<Cell>,
                  s: Cell, best: nat, len: nat)
    requires Square(n, grid) && Tallied(n, grid, k, before, best)
    requires before <= seen && s in seen - before
    requires Grown(grid, k, s, seen, seen - before) && len == |seen - before|
    ensures Tallied(n, grid, k, seen, if len > best then len else best)
  {
    forall e | e in seen
      ensures Holds(grid, e, k) && Enclosed(grid, k, seen, e)
    {
      if e in before {
        assert Enclosed(grid, k, before, e);
      }
    }
    GroupIsFresh(n, grid, k, s, before, seen);
    forall e | e in seen - before
      ensures Group(n, grid, k, e) == seen - before
    {
      GroupOfMember(n, grid, k, s, e);
    }
  }

  /** A cell of colour k is in its own group. */
  lemma GroupHasSelf(n: nat, grid: seq<seq<Color>>, k: Color, e: Cell)
    requires Square(n, grid) && Holds(grid, e, k)
    ensures e in Group(n, grid, k, e) && |Group(n, grid, k, e)| >= 1
  {
    ReachSelf(grid, k, e);
  }

  // ---------------------------------------------------- liberties ---

  /**
   * A cell `liberty_count` walks through: neither empty nor the enemy's.
   * Cells hold only the three colours, so for a player k that is a cell of
   * colour k; with k = None nothing is walked through but the empty start.
   */
  predicate Passes(grid: seq<seq<Color>>, k: Color, e: Cell)
  {
    IsPlayer(k) && Holds(grid, e, k)
  }

  /** Every neighbour of e on the board has been seen. */
  ghost predicate Open(n: nat, seen: set<Cell>, e: Cell)
  {
    forall d :: d in Neighbours(e) && OnGrid(n, d) ==> d in seen
  }

  /** Cell e is next to a cell of `added` that is walked through. */
  ghost predicate Touches(grid: seq<seq<Color>>, k: Color, added: set<Cell>, e: Cell)
  {
    exists d :: d in added && Passes(grid, k, d) && e in Neighbours(d)
  }

  /**
   * What `liberty_count` from a leaves behind: each added cell is a itself,
   * a neighbour of a when a is walked through, or a neighbour of another
   * added cell walked through; and each added cell walked through is
   * reached from a and has all its neighbours seen.
   */
  ghost predicate Spread(n: nat, grid: seq<seq<Color>>, k: Color, a: Cell, seen: set<Cell>, added: set<Cell>)
  {
    forall e :: e in added ==>
      (Passes(grid, k, e) ==> Reach(grid, k, a, e) && Open(n, seen, e)) &&
      (e == a || (Passes(grid, k, a) && e in Neighbours(a)) || Touches(grid, k, added, e))
  }

  /** The empty cells of a set. */
  ghost function Empties(grid: seq<seq<Color>>, s: set<Cell>): set<Cell>
  {
    set e | e in s && Holds(grid, e, None)
  }

  lemma EmptiesSplit(grid: seq<seq<Color>>, a: set<Cell>, b: set<Cell>, c: set<Cell>)
    requires a <= b <= c
    ensures |Empties(grid, c - a)| == |Empties(grid, b - a)| + |Empties(grid, c - b)|
  {
    assert Empties(grid, c - a) == Empties(grid, b - a) + Empties(grid, c - b);
  }

  /** Cell e is next to a cell of a's group of colour k. */
  ghost predicate Adjacent(grid: seq<seq<Color>>, k: Color, a: Cell, e: Cell)
  {
    exists d :: d in Neighbours(e) && Reach(grid, k, a, d)
  }

  /** The liberties of a's group: the empty cells next to it, each once. */
  ghost function LibertiesOf(n: nat, grid: seq<seq<Color>>, k: Color, a: Cell): set<Cell>
  {
    set x, y | 0 <= x < n && 0 <= y < n && Holds(grid, (x, y), None) && Adjacent(grid, k, a, (x, y)) :: (x, y)
  }

  /** The first i steps that stay on the board land on seen cells. */
  ghost predicate Stepped(r: seq<(Cell, bool)>, i: nat, seen: set<Cell>)
    requires i <= |r|
  {
    forall j :: 0 <= j < i && r[j].1 ==> r[j].0 in seen
  }

  lemma SteppedStep(r: seq<(Cell, bool)>, i: nat, a: set<Cell>, b: set<Cell>)
    requires i < |r| && Stepped(r, i, a) && a <= b
    requires r[i].1 ==> r[i].0 in b
    ensures Stepped(r, i + 1, b)
  {
  }

  /** A cell whose four steps on the board are all seen is open. */
  lemma OpenBySteps(n: nat, seen: set<Cell>, c: Cell)
    requires OnGrid(n, c) && Stepped(Steps(n, c), 4, seen)
    ensures Open(n, seen, c)
  {
    var r := Steps(n, c);
    assert r[0].1 ==> r[0].0 in seen;
    assert r[1].1 ==> r[1].0 in seen;
    assert r[2].1 ==> r[2].0 in seen;
    assert r[3].1 ==> r[3].0 in seen;
  }

  /** The cells spread from neighbour d of a walked-through cell c are spread from c. */
  lemma SpreadFrom(n: nat, grid: seq<seq<Color>>, k: Color, c: Cell, d: Cell,
                   base: set<Cell>, v: set<Cell>, seen: set<Cell>)
    requires Passes(grid, k, c) && d in Neighbours(c) && c in base
    requires base <= v <= seen && d in seen - v
    requires Spread(n, grid, k, c, v, v - base)
    requires Spread(n, grid, k, d, seen, seen - v)
    ensures Spread(n, grid, k, c, seen, seen - base)
  {
    forall e | e in seen - base
      ensures Passes(grid, k, e) ==> Reach(grid, k, c, e) && Open(n, seen, e)
      ensures e == c || (Passes(grid, k, c) && e in Neighbours(c)) || Touches(grid, k, seen - base, e)
    {
      if e in v {
        if Touches(grid, k, v - base, e) {
          var w :| w in v - base && Passes(grid, k, w) && e in Neighbours(w);
          assert w in seen - base;
        }
      } else {
        assert e in seen - v;
        if Passes(grid, k, e) {
          ReachPrepend(grid, k, c, d, e);
        }
        if e != d {
          if Passes(grid, k, d) && e in Neighbours(d) {
            assert d in seen - base;
          } else {
            var w :| w in seen - v && Passes(grid, k, w) && e in Neighbours(w);
            assert w in seen - base;
          }
        }
      }
    }
  }

  /** The start cell joins the cells spread from it once its neighbours are seen. */
  lemma SpreadSettle(n: nat, grid: seq<seq<Color>>, k: Color, c: Cell, before: set<Cell>, seen: set<Cell>)
    requires c !in before && before + {c} <= seen
    requires Passes(grid, k, c) && Open(n, seen, c)
    requires Spread(n, grid, k, c, seen, seen - (before + {c}))
    ensures Spread(n, grid, k, c, seen, seen - before)
    ensures |Empties(grid, seen - before)| == |Empties(grid, seen - (before + {c}))|
  {
    ReachSelf(grid, k, c);
    assert seen - before == (seen - (before + {c})) + {c};
    assert Empties(grid, seen - before) == Empties(grid, seen - (before + {c}));
    forall e | e in seen - before
      ensures e == c || (Passes(grid, k, c) && e in Neighbours(c)) || Touches(grid, k, seen - before, e)
    {
      if e != c && !(e in Neighbours(c)) {
        var w :| w in seen - (before + {c}) && Passes(grid, k, w) && e in Neighbours(w);
        assert w in seen - before;
      }
    }
  }

  /**
   * A walk from an unmarked board that spread from a cell of player k
   * found exactly the liberties of its group.
   */
  lemma LibertiesFound(n: nat, grid: seq<seq<Color>>, k: Color, a: Cell, seen: set<Cell>)
    requires Square(n, grid) && IsPlayer(k) && Holds(grid, a, k) && a in seen
    requires forall c :: c in seen ==> OnGrid(n, c)
    requires Spread(n, grid, k, a, seen, seen)
    ensures Empties(grid, seen) == LibertiesOf(n, grid, k, a)
  {
    var group := set c | c in seen && Holds(grid, c, k);
    forall c | c in group
      ensures Enclosed(grid, k, group, c)
    {
      assert Passes(grid, k, c) && Open(n, seen, c);
      forall d | d in Neighbours(c) && Holds(grid, d, k)
        ensures d in group
      {
        assert OnGrid(n, d);
      }
    }
    forall e | e in Empties(grid, seen)
      ensures e in LibertiesOf(n, grid, k, a)
    {
      assert OnGrid(n, e) && e != a;
      if Passes(grid, k, a) && e in Neighbours(a) {
        ReachSelf(grid, k, a);
        NeighboursSymmetric(a, e);
      } else {
        var d :| d in seen && Passes(grid, k, d) && e in Neighbours(d);
        NeighboursSymmetric(d, e);
        assert Reach(grid, k, a, d);
      }
    }
    forall e | e in LibertiesOf(n, grid, k, a)
      ensures e in Empties(grid, seen)
    {
      var d :| d in Neighbours(e) && Reach(grid, k, a, d);
      var p :| Path(grid, k, p) && p[0] == a && p[|p| - 1] == d;
      PathStaysIn(grid, k, group, p, |p| - 1);
      assert Open(n, seen, d);
      NeighboursSymmetric(e, d);
    }
  }

  // ------------------------------------------------------ the finder ---

  /** `SquarePathFinder<SIZE>`; `map` is held as the board's contents. */
  class PathFinder {
    const size: nat
    var color: Color
    var grid: seq<seq<Color>>
    var visited: set<Cell>
    var direction: Direction

    ghost predicate Valid()
      reads this
    {
      Square(size, grid) && forall c :: c in visited ==> OnGrid(size, c)
    }

    ghost function Unvisited(): set<Cell>
      reads this
    {
      UnseenOf(size, visited)
    }

    constructor (size: nat)
      ensures this.size == size && color == None && grid == [] && visited == {}
    {
      this.size := size;
      color := None;
      grid := [];
      visited := {};
      direction := XDir;
    }

    /** `clear(c, m)`: no cell is marked. */
    method Clear(c: Color, m: seq<seq<Color>>)
      requires Square(size, m)
      modifies this
      ensures Valid() && color == c && grid == m && visited == {} && direction == old(direction)
    {
      color := c;
      grid := m;
      visited := {};
    }

    /** `search(x, y)`: a depth-first walk through unseen cells of `color`. */
    method Search(x: int, y: int) returns (found: bool, ghost p: seq<Cell>)
      requires Valid() && OnGrid(size, (x, y)) && (x, y) !in visited
      requires Holds(grid, (x, y), color)
      modifies this
      ensures Valid() && color == old(color) && grid == old(grid) && direction == old(direction)
      ensures old(visited) <= visited
      ensures found ==> Path(grid, color, p) && p[0] == (x, y) && IsTarget(size, direction, p[|p| - 1])
      ensures !found ==> (x, y) in visited && Closed(size, grid, color, direction, visited, visited - old(visited))
      decreases Unvisited(), 0
    {
      var c := (x, y);
      if IsTarget(size, direction, c) {
        assert Path(grid, color, [c]);
        return true, [c];
      }
      UnseenMark(size, visited, c);
      visited := visited + {c};
      found, p := Explore(c);
      if !found {
        Settle(size, grid, color, direction, old(visited), visited, c);
      }
    }

    /** The four `SEARCH` steps of `search`, after cell c is marked. */
    method Explore(c: Cell) returns (found: bool, ghost p: seq<Cell>)
      requires Valid() && OnGrid(size, c) && c in visited && Holds(grid, c, color)
      modifies this
      ensures Valid() && color == old(color) && grid == old(grid) && direction == old(direction)
      ensures old(visited) <= visited
      ensures found ==> Path(grid, color, p) && p[0] == c && IsTarget(size, direction, p[|p| - 1])
      ensures !found ==> Enclosed(grid, color, visited, c)
      ensures !found ==> Closed(size, grid, color, direction, visited, visited - old(visited))
      decreases Unvisited(), 2
    {
      var steps := Steps(size, c);
      ghost var v1 := visited;
      var i := 0;
      while i < 4
        invariant 0 <= i <= 4
        invariant Valid() && color == old(color) && grid == old(grid) && direction == old(direction)
        invariant c in visited && v1 <= visited && Unvisited() <= old(Unvisited())
        invariant Closed(size, grid, color, direction, visited, visited - v1)
        invariant Covered(grid, color, steps, i, visited)
      {
        ghost var v := visited;
        found, p := Try(c, steps[i].0, steps[i].1, v1);
        if found { return; }
        UnseenShrinks(size, v, visited);
        CoveredStep(grid, color, steps, i, v, visited);
        i := i + 1;
      }
      EnclosedBySteps(size, grid, color, visited, c);
      found, p := false, [];
    }

    /** One `SEARCH(x, y, cond)` step of `search`, from cell c to its neighbour d. */
    method Try(c: Cell, d: Cell, cond: bool, ghost base: set<Cell>) returns (found: bool, ghost p: seq<Cell>)
      requires Valid() && c in visited && Holds(grid, c, color)
      requires d in Neighbours(c) && cond == OnGrid(size, d)
      requires base <= visited && Closed(size, grid, color, direction, visited, visited - base)
      modifies this
      ensures Valid() && color == old(color) && grid == old(grid) && direction == old(direction)
      ensures old(visited) <= visited
      ensures found ==> Path(grid, color, p) && p[0] == c && IsTarget(size, direction, p[|p| - 1])
      ensures c in visited && base <= visited
      ensures !found ==> (Holds(grid, d, color) ==> d in visited)
      ensures !found ==> Closed(size, grid, color, direction, visited, visited - base)
      decreases Unvisited(), 1
    {
      if cond && d !in visited && Holds(grid, d, color) {
        ghost var q;
        ghost var v := visited;
        found, q := Search(d.0, d.1);
        if found {
          p := [c] + q;
          assert forall i :: 0 < i < |p| ==> p[i] == q[i - 1];
          return;
        }
        ClosedGrow(size, grid, color, direction, base, v, visited);
      }
      found, p := false, [];
    }

    /** `searchEastWest`: a search from every unseen cell of the first column. */
    method SearchEastWest() returns (found: bool, ghost p: seq<Cell>)
      requires Valid()
      modifies this
      ensures Valid() && color == old(color) && grid == old(grid) && direction == XDir
      ensures old(visited) <= visited
      ensures found ==> Path(grid, color, p) && IsStart(XDir, p[0]) && IsTarget(size, XDir, p[|p| - 1])
      ensures !found ==> Closed(size, grid, color, XDir, visited, visited - old(visited))
      ensures !found ==> forall c :: IsStart(XDir, c) && Holds(grid, c, color) ==> c in visited
    {
      direction := XDir;
      var y := 0;
      while y < size
        invariant 0 <= y <= size
        invariant Valid() && color == old(color) && grid == old(grid) && direction == XDir
        invariant old(visited) <= visited
        invariant Closed(size, grid, color, XDir, visited, visited - old(visited))
        invariant forall y' :: 0 <= y' < y && Holds(grid, (0, y'), color) ==> (0, y') in visited
      {
        if (0, y) !in visited && Holds(grid, (0, y), color) {
          ghost var v := visited;
          found, p := Search(0, y);
          if found { return; }
          ClosedGrow(size, grid, color, XDir, old(visited), v, visited);
        }
        y := y + 1;
      }
      found, p := false, [];
    }

    /** `searchNorthSouth`: a search from every unseen cell of the first row. */
    method SearchNorthSouth() returns (found: bool, ghost p: seq<Cell>)
      requires Valid()
      modifies this
      ensures Valid() && color == old(color) && grid == old(grid) && direction == YDir
      ensures old(visited) <= visited
      ensures found ==> Path(grid, color, p) && IsStart(YDir, p[0]) && IsTarget(size, YDir, p[|p| - 1])
      ensures found ==> p[0] !in old(visited)
      ensures !found ==> Closed(size, grid, color, YDir, visited, visited - old(visited))
      ensures !found ==> forall c :: IsStart(YDir, c) && Holds(grid, c, color) && c !in old(visited) ==> c in visited
    {
      direction := YDir;
      var x := 0;
      while x < size
        invariant 0 <= x <= size
        invariant Valid() && color == old(color) && grid == old(grid) && direction == YDir
        invariant old(visited) <= visited
        invariant Closed(size, grid, color, YDir, visited, visited - old(visited))
        invariant forall x' :: 0 <= x' < x && Holds(grid, (x', 0), color) ==> (x', 0) in visited
      {
        if (x, 0) !in visited && Holds(grid, (x, 0), color) {
          ghost var v := visited;
          found, p := Search(x, 0);
          if found { return; }
          ClosedGrow(size, grid, color, YDir, old(visited), v, visited);
        }
        x := x + 1;
      }
      found, p := false, [];
    }

    /** `connected(c, m)`: west to east for White, north to south otherwise. */
    method Connected(c: Color, m: seq<seq<Color>>) returns (found: bool)
      requires Square(size, m)
      modifies this
      ensures found <==> Crossing(size, m, c, if c == White then XDir else YDir)
    {
      Clear(c, m);
      ghost var p;
      if color == White {
        found, p := SearchEastWest();
      } else {
        found, p := SearchNorthSouth();
      }
      if !found {
        NoCrossing(size, grid, color, direction, visited);
      }
    }

    /**
     * `connected_any(c, m)` as written: the north-to-south search runs on the
     * marks the east-to-west search left, so it skips the first-row cells of
     * every group that touches the first column.
     */
    method ConnectedAny(c: Color, m: seq<seq<Color>>) returns (found: bool)
      requires Square(size, m)
      modifies this
      ensures found ==> Crossing(size, m, c, XDir) || Crossing(size, m, c, YDir)
      ensures Crossing(size, m, c, XDir) ==> found
      ensures !Crossing(size, m, c, XDir) && (forall x :: 0 < x < size ==> !Holds(m, (x, 0), c)) ==> !found
    {
      Clear(c, m);
      ghost var p;
      found, p := SearchEastWest();
      if found { return; }
      NoCrossing(size, grid, color, XDir, visited);
      found, p := SearchNorthSouth();
    }

    /** `connected_any` with the marks cleared between the two searches. */
    method ConnectedEither(c: Color, m: seq<seq<Color>>) returns (found: bool)
      requires Square(size, m)
      modifies this
      ensures found <==> Crossing(size, m, c, XDir) || Crossing(size, m, c, YDir)
    {
      Clear(c, m);
      ghost var p;
      found, p := SearchEastWest();
      if found { return; }
      NoCrossing(size, grid, color, XDir, visited);
      Clear(c, m);
      found, p := SearchNorthSouth();
      if !found {
        NoCrossing(size, grid, color, YDir, visited);
      }
    }

    /** `length(x, y)`: the number of cells the walk from (x, y) adds. */
    method Length(x: int, y: int) returns (len: nat)
      requires Valid() && OnGrid(size, (x, y)) && (x, y) !in visited
      requires Holds(grid, (x, y), color)
      modifies this
      ensures Valid() && color == old(color) && grid == old(grid) && direction == old(direction)
      ensures old(visited) <= visited && (x, y) in visited
      ensures len == |visited - old(visited)|
      ensures Grown(grid, color, (x, y), visited, visited - old(visited))
      decreases Unvisited(), 0
    {
      var c := (x, y);
      UnseenMark(size, visited, c);
      visited := visited + {c};
      var more := Measure(c);
      len := 1 + more;
      GrownSettle(grid, color, c, old(visited), visited);
    }

    /** The four `SEARCH` steps of `length`, after cell c is marked. */
    method Measure(c: Cell) returns (len: nat)
      requires Valid() && OnGrid(size, c) && c in visited && Holds(grid, c, color)
      modifies this
      ensures Valid() && color == old(color) && grid == old(grid) && direction == old(direction)
      ensures old(visited) <= visited
      ensures len == |visited - old(visited)|
      ensures Enclosed(grid, color, visited, c)
      ensures Grown(grid, color, c, visited, visited - old(visited))
      decreases Unvisited(), 2
    {
      var steps := Steps(size, c);
      ghost var v1 := visited;
      assert visited - v1 == {};
      len := 0;
      var i := 0;
      while i < 4
        invariant 0 <= i <= 4
        invariant Valid() && color == old(color) && grid == old(grid) && direction == old(direction)
        invariant c in visited && v1 <= visited && Unvisited() <= old(Unvisited())
        invariant len == |visited - v1| && Grown(grid, color, c, visited, visited - v1)
        invariant Covered(grid, color, steps, i, visited)
      {
        ghost var v := visited;
        len := TryLength(c, steps[i].0, steps[i].1, v1, len);
        UnseenShrinks(size, v, visited);
        CoveredStep(grid, color, steps, i, v, visited);
        i := i + 1;
      }
      EnclosedBySteps(size, grid, color, visited, c);
    }

    /** One `SEARCH(x, y, cond)` step of `length`, from cell c to its neighbour d. */
    method TryLength(c: Cell, d: Cell, cond: bool, ghost base: set<Cell>, sum: nat) returns (len: nat)
      requires Valid() && c in visited && Holds(grid, c, color)
      requires d in Neighbours(c) && cond == OnGrid(size, d)
      requires base <= visited && Grown(grid, color, c, visited, visited - base)
      requires sum == |visited - base|
      modifies this
      ensures Valid() && color == old(color) && grid == old(grid) && direction == old(direction)
      ensures old(visited) <= visited
      ensures c in visited && base <= visited && len == |visited - base|
      ensures Holds(grid, d, color) ==> d in visited
      ensures Grown(grid, color, c, visited, visited - base)
      decreases Unvisited(), 1
    {
      len := sum;
      if cond && d !in visited && Holds(grid, d, color) {
        ghost var v := visited;
        var more := Length(d.0, d.1);
        len := len + more;
        GrownFrom(grid, color, c, d, visited, visited - v);
        GrownJoin(grid, color, c, base, v, visited);
        CountSplit(base, v, visited);
      }
    }

    /** `longest(c, m)`: the size of the largest group of colour c. */
    method Longest(c: Color, m: seq<seq<Color>>) returns (best: nat)
      requires Square(size, m)
      modifies this
      ensures forall e :: Holds(m, e, c) ==> 1 <= |Group(size, m, c, e)| <= best
      ensures best > 0 ==> exists e :: Holds(m, e, c) && |Group(size, m, c, e)| == best
    {
      Clear(c, m);
      best := 0;
      var x := 0;
      while x < size
        invariant 0 <= x <= size
        invariant Valid() && color == c && grid == m
        invariant Tallied(size, grid, color, visited, best)
        invariant forall e :: Holds(grid, e, color) && e.0 < x ==> e in visited
      {
        best := LongestInColumn(x, best);
        x := x + 1;
      }
      forall e | Holds(m, e, c)
        ensures 1 <= |Group(size, m, c, e)|
      {
        GroupHasSelf(size, m, c, e);
      }
      if best > 0 {
        ghost var e :| e in visited && |Group(size, m, c, e)| == best;
        assert Enclosed(grid, color, visited, e);
      }
    }

    /** One pass of the inner loop of `longest`: the cells of column x. */
    method LongestInColumn(x: int, best0: nat) returns (best: nat)
      requires Valid() && 0 <= x < size && Tallied(size, grid, color, visited, best0)
      requires forall e :: Holds(grid, e, color) && e.0 < x ==> e in visited
      modifies this
      ensures Valid() && color == old(color) && grid == old(grid)
      ensures Tallied(size, grid, color, visited, best)
      ensures forall e :: Holds(grid, e, color) && e.0 <= x ==> e in visited
    {
      best := best0;
      var y := 0;
      while y < size
        invariant 0 <= y <= size
        invariant Valid() && color == old(color) && grid == old(grid)
        invariant Tallied(size, grid, color, visited, best)
        invariant forall e :: Holds(grid, e, color) && (e.0 < x || (e.0 == x && e.1 < y)) ==> e in visited
      {
        best := TallyCell(x, y, best);
        y := y + 1;
      }
    }

    /** One cell of the inner loop of `longest`: the group from (x, y), if not yet measured. */
    method TallyCell(x: int, y: int, best0: nat) returns (best: nat)
      requires Valid() && 0 <= x < size && 0 <= y < size && Tallied(size, grid, color, visited, best0)
      modifies this
      ensures Valid() && color == old(color) && grid == old(grid) && old(visited) <= visited
      ensures Tallied(size, grid, color, visited, best)
      ensures Holds(grid, (x, y), color) ==> (x, y) in visited
    {
      best := best0;
      if (x, y) !in visited && Holds(grid, (x, y), color) {
        ghost var v := visited;
        var len := Length(x, y);
        TallyStep(size, grid, color, v, visited, (x, y), best, len);
        if len > best {
          best := len;
        }
      }
    }

    /** `liberty_count(x, y)`: the empty cells the walk from (x, y) marks. */
    method LibertyCount(x: int, y: int) returns (count: nat)
      requires Valid() && OnGrid(size, (x, y)) && (x, y) !in visited
      requires IsPlayer(color) || Holds(grid, (x, y), None)
      modifies this
      ensures Valid() && color == old(color) && grid == old(grid) && direction == old(direction)
      ensures old(visited) <= visited && (x, y) in visited
      ensures count == |Empties(grid, visited - old(visited))|
      ensures Spread(size, grid, color, (x, y), visited, visited - old(visited))
      ensures Holds(grid, (x, y), None) ==> count == 1 && visited == old(visited) + {(x, y)}
      ensures IsPlayer(color) && Holds(grid, (x, y), Other(color)) ==> count == 0 && visited == old(visited) + {(x, y)}
      decreases Unvisited(), 0
    {
      var c := (x, y);
      UnseenMark(size, visited, c);
      visited := visited + {c};
      assert visited - old(visited) == {c};
      assert !Passes(grid, color, c) ==> Spread(size, grid, color, c, visited, {c});
      if Holds(grid, c, None) {
        assert Empties(grid, {c}) == {c};
        return 1;
      }
      if Holds(grid, c, Other(color)) {
        assert Empties(grid, {c}) == {};
        return 0;
      }
      count := Gather(c);
      SpreadSettle(size, grid, color, c, old(visited), visited);
    }

    /** The four `SEARCH` steps of `liberty_count`, after cell c is marked and walked through. */
    method Gather(c: Cell) returns (count: nat)
      requires Valid() && OnGrid(size, c) && c in visited && Passes(grid, color, c)
      modifies this
      ensures Valid() && color == old(color) && grid == old(grid) && direction == old(direction)
      ensures old(visited) <= visited
      ensures count == |Empties(grid, visited - old(visited))|
      ensures Open(size, visited, c)
      ensures Spread(size, grid, color, c, visited, visited - old(visited))
      decreases Unvisited(), 2
    {
      var steps := Steps(size, c);
      ghost var v1 := visited;
      assert Empties(grid, visited - v1) == {};
      count := 0;
      var i := 0;
      while i < 4
        invariant 0 <= i <= 4
        invariant Valid() && color == old(color) && grid == old(grid) && direction == old(direction)
        invariant c in visited && v1 <= visited && Unvisited() <= old(Unvisited())
        invariant count == |Empties(grid, visited - v1)| && Spread(size, grid, color, c, visited, visited - v1)
        invariant Stepped(steps, i, visited)
      {
        ghost var v := visited;
        count := TryLiberty(c, steps[i].0, steps[i].1, v1, count);
        UnseenShrinks(size, v, visited);
        SteppedStep(steps, i, v, visited);
        i := i + 1;
      }
      OpenBySteps(size, visited, c);
    }

    /** One `SEARCH(x, y, cond)` step of `liberty_count`, from cell c to its neighbour d. */
    method TryLiberty(c: Cell, d: Cell, cond: bool, ghost base: set<Cell>, sum: nat) returns (count: nat)
      requires Valid() && c in base && Passes(grid, color, c)
      requires d in Neighbours(c) && cond == OnGrid(size, d)
      requires base <= visited && Spread(size, grid, color, c, visited, visited - base)
      requires sum == |Empties(grid, visited - base)|
      modifies this
      ensures Valid() && color == old(color) && grid == old(grid) && direction == old(direction)
      ensures old(visited) <= visited
      ensures base <= visited && count == |Empties(grid, visited - base)|
      ensures cond ==> d in visited
      ensures Spread(size, grid, color, c, visited, visited - base)
      decreases Unvisited(), 1
    {
      count := sum;
      if cond && d !in visited {
        ghost var v := visited;
        var more := LibertyCount(d.0, d.1);
        count := count + more;
        SpreadFrom(size, grid, color, c, d, base, v, visited);
        EmptiesSplit(grid, base, v, visited);
      }
    }

    /**
     * `liberties(x, y, m)`: with the colour of (x, y) as the walker's colour,
     * an empty cell counts itself and a stone counts its group's liberties.
     */
    method Liberties(x: int, y: int, m: seq<seq<Color>>) returns (count: nat)
      requires Square(size, m) && OnGrid(size, (x, y))
      modifies this
      ensures Holds(m, (x, y), None) ==> count == 1
      ensures IsPlayer(m[y][x]) ==> count == |LibertiesOf(size, m, m[y][x], (x, y))|
    {
      Clear(m[y][x], m);
      count := LibertyCount(x, y);
      if IsPlayer(color) {
        LibertiesFound(size, grid, color, (x, y), visited);
      }
    }
  }

  // ------------------------------------- connected_any on one column ---

  /** A 3 by 3 board whose first column is black and the rest empty. */
  const ColumnGrid: seq<seq<Color>> := [[Black, None, None], [Black, None, None], [Black, None, None]]

  /**
   * The column crosses from north to south, never from west to east, and has
   * no black cell on the first row but its corner: so `connected_any` as
   * written answers false on it.
   */
  lemma ColumnCrossesOnlyNorthSouth()
    ensures Square(3, ColumnGrid)
    ensures !Crossing(3, ColumnGrid, Black, XDir)
    ensures forall x :: 0 < x < 3 ==> !Holds(ColumnGrid, (x, 0), Black)
    ensures Crossing(3, ColumnGrid, Black, YDir)
  {
    forall p | Path(ColumnGrid, Black, p)
      ensures !IsTarget(3, XDir, p[|p| - 1])
    {
      assert Holds(ColumnGrid, p[|p| - 1], Black);
    }
    var q := [(0, 0), (0, 1), (0, 2)];
    assert Path(ColumnGrid, Black, q);
  }

  /** `connected_any` misses the column's crossing; clearing the marks finds it. */
  method ConnectedAnyOnColumn() returns (any: bool, either: bool)
    ensures !any && either
  {
    ColumnCrossesOnlyNorthSouth();
    var finder := new PathFinder(3);
    any := finder.ConnectedAny(Black, ColumnGrid);
    either := finder.ConnectedEither(Black, ColumnGrid);
  }
}
