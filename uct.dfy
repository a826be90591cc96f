// Monte-Carlo tree search with the UCB1 selection rule (engine/uct.h).
//
// The source links `UCTNode`s by raw pointers into a static memory pool. Here
// the root and the pool are one arena of nodes numbered from 0: the root is
// node 0 and pool slot `j` is node `j + 1`, a pointer is a `Ptr` holding a
// node number, and each field of `UCTNode` is a sequence with one entry per
// node, the sequences held together in one `Nodes` value. The ghost `kids`
// lists the children of every node in sibling order; `Shape` ties the
// `parent`/`child`/`next`/`last` links to it.
module Uct {
  import opened Common
  import opened State
  import opened GameContract

  /** NUM_THREADS: the iteration budget is split into this many equal tasks. */
  const NumThreads: nat := 8

  /** A node pointer: null, or the number of a node. */
  datatype Ptr = Null | Ref(i: nat)

  /** The number of moves not yet tried. */
  function CountUntried(tried: seq<bool>): (r: nat)
    ensures r <= |tried|
  {
    if |tried| == 0 then 0
    else CountUntried(tried[..|tried| - 1]) + (if tried[|tried| - 1] then 0 else 1)
  }

  /** The flags `clear` leaves for `n` moves: none tried, so all `n` count as untried. */
  function NoneTried(n: nat): (r: seq<bool>)
    ensures |r| == n && CountUntried(r) == n
    ensures forall i :: 0 <= i < n ==> !r[i]
  {
    if n == 0 then []
    else
      var r := NoneTried(n - 1) + [false];
      assert r[..n - 1] == NoneTried(n - 1);
      r
  }

  /** The number of iterations, among `reached`, whose descent reached a node. */
  function Hits(reached: seq<bool>): (r: nat)
    ensures r <= |reached|
    ensures r == |reached| <==> forall i :: 0 <= i < |reached| ==> reached[i]
  {
    if |reached| == 0 then 0
    else Hits(reached[..|reached| - 1]) + (if reached[|reached| - 1] then 1 else 0)
  }

  /** Hits add up over consecutive runs of iterations. */
  lemma {:induction false} HitsAppend(a: seq<bool>, b: seq<bool>)
    ensures Hits(a + b) == Hits(a) + Hits(b)
    decreases |b|
  {
    if |b| == 0 {
      assert a + b == a;
    } else {
      var n := |b| - 1;
      assert (a + b)[..|a + b| - 1] == a + b[..n];
      assert (a + b)[|a + b| - 1] == b[n];
      HitsAppend(a, b[..n]);
    }
  }

  /** Marking one untried move as tried lowers the count by exactly one. */
  lemma {:induction false} CountMarked(tried: seq<bool>, i: nat)
    requires i < |tried| && !tried[i]
    ensures CountUntried(tried[i := true]) == CountUntried(tried) - 1
  {
    var n := |tried| - 1;
    var marked := tried[i := true];
    assert marked[..n] == if i < n then tried[..n][i := true] else tried[..n];
    if i < n {
      CountMarked(tried[..n], i);
    }
  }

  /**
   * The scan `select` and `move` perform: walk the scores from the left and
   * take a position only when its score is strictly greater than the best so
   * far, starting from `init`. The answer is -1 when nothing beats `init`,
   * and otherwise the first position of the largest score.
   */
  function ArgMax(vals: seq<real>, init: real): (r: int)
    ensures -1 <= r < |vals|
  {
    if |vals| == 0 then -1
    else
      var front := vals[..|vals| - 1];
      var r := ArgMax(front, init);
      var best := if r == -1 then init else vals[r];
      if vals[|vals| - 1] > best then |vals| - 1 else r
  }

  /**
   * The scan finds nothing exactly when no value beats `init`, and
   * otherwise a value above `init` that is the largest and is larger than
   * every value before it.
   */
  lemma {:induction false} ArgMaxSpec(vals: seq<real>, init: real)
    ensures var r := ArgMax(vals, init);
      (r == -1 <==> forall i :: 0 <= i < |vals| ==> vals[i] <= init) &&
      (r != -1 ==> vals[r] > init) &&
      (r != -1 ==> forall i :: 0 <= i < |vals| ==> vals[i] <= vals[r]) &&
      (r != -1 ==> forall i :: 0 <= i < r ==> vals[i] < vals[r])
  {
    if |vals| > 0 {
      var n := |vals| - 1;
      var front := vals[..n];
      ArgMaxSpec(front, init);
      assert forall i :: 0 <= i < n ==> front[i] == vals[i];
    }
  }

  /** The scan one position further: the new value is taken only when it beats the best so far. */
  lemma {:induction false} ArgMaxStep(vals: seq<real>, init: real, t: nat)
    requires t < |vals|
    ensures var r := ArgMax(vals[..t], init);
      ArgMax(vals[..t + 1], init) == if vals[t] > (if r == -1 then init else vals[r]) then t else r
  {
    assert vals[..t + 1][..t] == vals[..t];
  }

  /** The first position of the largest of some values. */
  function FirstMax(vals: seq<real>): (r: nat)
    requires |vals| > 0
    ensures r < |vals|
    ensures forall i :: 0 <= i < |vals| ==> vals[i] <= vals[r]
    ensures forall i :: 0 <= i < r ==> vals[i] < vals[r]
  {
    ArgMaxSpec(vals, vals[0]);
    var r := ArgMax(vals, vals[0]);
    if r == -1 then 0 else r
  }

  /** The side whose result is credited `t` levels above the side `c`. */
  function Perspective(c: Color, t: nat): (r: Color)
    ensures IsPlayer(c) <==> IsPlayer(r)
    ensures t % 2 == 0 ==> r == c
    ensures t % 2 == 1 ==> r == Other(c)
  {
    if t % 2 == 0 then c else Other(c)
  }

  /** One level further up, the credited side flips. */
  lemma PerspectiveStep(c: Color, t: nat, next: nat)
    requires next == t + 1
    ensures Perspective(c, next) == Other(Perspective(c, t))
  {
    OtherInvolution(c);
  }

  /** The move bookkeeping: one flag per move, and `untried` counts the clear flags. */
  ghost predicate Books<M>(moves: seq<seq<M>>, tried: seq<seq<bool>>, untried: seq<nat>)
  {
    |moves| == |tried| == |untried| &&
    forall k :: 0 <= k < |tried| ==> |tried[k]| == |moves[k]| && untried[k] == CountUntried(tried[k])
  }

  /** Node 0 is the root, and every other node has a parent before it. */
  ghost predicate Rooted(parent: seq<Ptr>)
  {
    |parent| >= 1 && parent[0] == Null &&
    forall k :: 0 < k < |parent| ==> parent[k].Ref? && parent[k].i < k
  }

  /** Every node but the root has a parent that has tried the node's move. */
  ghost predicate Parents(parent: seq<Ptr>, move: seq<nat>, tried: seq<seq<bool>>)
  {
    Rooted(parent) && |parent| == |move| == |tried| &&
    forall k :: 0 < k < |parent| ==>
      move[k] < |tried[parent[k].i]| && tried[parent[k].i][move[k]]
  }

  /** The nodes from `k` up to the root, by parent links: `k` first, the root last. */
  ghost function Ancestors(parent: seq<Ptr>, k: nat): (a: seq<nat>)
    requires Rooted(parent) && k < |parent|
    ensures |a| >= 1 && a[0] == k && a[|a| - 1] == 0
    ensures forall t :: 0 <= t < |a| ==> a[t] < |parent|
    ensures forall t :: 0 < t < |a| ==> a[t] < k
    ensures forall t :: 0 <= t < |a| ==> parent[a[t]] == if t + 1 < |a| then Ref(a[t + 1]) else Null
    decreases k
  {
    if k == 0 then [0] else [k] + Ancestors(parent, parent[k].i)
  }

  /** No node appears twice in `a`. */
  ghost predicate Distinct(a: seq<nat>)
  {
    forall t, u :: 0 <= t < u < |a| ==> a[t] != a[u]
  }

  /** No node appears twice on the way to the root. */
  lemma {:induction false} AncestorsDistinct(parent: seq<Ptr>, k: nat)
    requires Rooted(parent) && k < |parent|
    ensures Distinct(Ancestors(parent, k))
    decreases k
  {
    if k > 0 {
      var a := Ancestors(parent, k);
      var p := parent[k].i;
      var b := Ancestors(parent, p);
      AncestorsDistinct(parent, p);
      assert a == [k] + b;
      forall t, u | 0 <= t < u < |a| ensures a[t] != a[u]
      {
        if t == 0 {
          assert a[u] == b[u - 1] <= p;
        } else {
          assert a[t] == b[t - 1] && a[u] == b[u - 1];
        }
      }
    }
  }

  /** The visit counts after one more visit to each of the nodes `a`. */
  function Visited(visits: seq<nat>, a: seq<nat>): (r: seq<nat>)
    requires forall t :: 0 <= t < |a| ==> a[t] < |visits|
    ensures |r| == |visits|
  {
    if a == [] then visits
    else
      var n := |a| - 1;
      var v := Visited(visits, a[..n]);
      v[a[n] := v[a[n]] + 1]
  }

  /**
   * The wins after node `a[t]` is credited the result of `winner` for the
   * side `t` levels from `side`, for every `t`.
   */
  function Credited(wins: seq<real>, a: seq<nat>, winner: Color, side: Color): (r: seq<real>)
    requires forall t :: 0 <= t < |a| ==> a[t] < |wins|
    ensures |r| == |wins|
  {
    if a == [] then wins
    else
      var n := |a| - 1;
      var w := Credited(wins, a[..n], winner, side);
      w[a[n] := w[a[n]] + Outcome(winner, Perspective(side, n))]
  }

  /** Crediting one node more: the next node on the way up gets its visit and result. */
  lemma {:induction false} CreditStep(visits: seq<nat>, wins: seq<real>, a: seq<nat>, winner: Color, side: Color, t: nat, next: nat)
    requires |visits| == |wins| && forall u :: 0 <= u < |a| ==> a[u] < |visits|
    requires t < |a| && next == t + 1
    ensures var v := Visited(visits, a[..t]);
      Visited(visits, a[..next]) == v[a[t] := v[a[t]] + 1]
    ensures var w := Credited(wins, a[..t], winner, side);
      Credited(wins, a[..next], winner, side) == w[a[t] := w[a[t]] + Outcome(winner, Perspective(side, t))]
  {
    assert a[..next][..t] == a[..t];
  }

  /** A node not among `a` keeps its visits and wins. */
  lemma {:induction false} CreditElsewhere(visits: seq<nat>, wins: seq<real>, a: seq<nat>,
                                           winner: Color, side: Color, j: nat)
    requires |visits| == |wins| && forall t :: 0 <= t < |a| ==> a[t] < |visits|
    requires j < |visits| && j !in a
    ensures Visited(visits, a)[j] == visits[j] && Credited(wins, a, winner, side)[j] == wins[j]
  {
    if a != [] {
      var n := |a| - 1;
      assert forall x :: x in a[..n] ==> x in a;
      CreditElsewhere(visits, wins, a[..n], winner, side, j);
    }
  }

  /** Each of the distinct nodes `a` gets exactly one visit, and `a[t]` the result for its side. */
  lemma {:induction false} CreditEach(visits: seq<nat>, wins: seq<real>, a: seq<nat>,
                                      winner: Color, side: Color, t: nat)
    requires |visits| == |wins| && forall u :: 0 <= u < |a| ==> a[u] < |visits|
    requires Distinct(a) && t < |a|
    ensures Visited(visits, a)[a[t]] == visits[a[t]] + 1
    ensures Credited(wins, a, winner, side)[a[t]] == wins[a[t]] + Outcome(winner, Perspective(side, t))
  {
    var n := |a| - 1;
    var front := a[..n];
    if t == n {
      assert a[n] !in front;
      CreditElsewhere(visits, wins, front, winner, side, a[n]);
    } else {
      assert front[t] == a[t] && a[t] != a[n];
      CreditEach(visits, wins, front, winner, side, t);
    }
  }

  /** Sibling `t` of the children `ks` links to sibling `t + 1`. */
  ghost predicate Linked(next: seq<Ptr>, ks: seq<nat>, t: nat)
    requires t + 1 < |ks| && ks[t] < |next|
  {
    next[ks[t]] == Ref(ks[t + 1])
  }

  /** The `child` and `last` links of a node whose children are `ks`, and the null at the end. */
  ghost predicate Ends(next: seq<Ptr>, ks: seq<nat>, child: Ptr, last: Ptr)
  {
    (ks == [] ==> child == Null && last == Null) &&
    (ks != [] ==>
       child == Ref(ks[0]) && last == Ref(ks[|ks| - 1]) &&
       ks[|ks| - 1] < |next| && next[ks[|ks| - 1]] == Null)
  }

  /**
   * The sibling lists: the children of `k` are later nodes whose parent is
   * `k`, linked by `next` in the order of `kids[k]` from `child` to `last`.
   */
  ghost predicate Shape(parent: seq<Ptr>, next: seq<Ptr>, child: seq<Ptr>, last: seq<Ptr>,
                        kids: seq<seq<nat>>)
  {
    |next| == |child| == |last| == |kids| == |parent| &&
    (forall k, t :: 0 <= k < |kids| && 0 <= t < |kids[k]| ==>
       k < kids[k][t] < |parent| && parent[kids[k][t]] == Ref(k)) &&
    (forall k, t :: 0 <= k < |kids| && 0 <= t < |kids[k]| - 1 ==> Linked(next, kids[k], t)) &&
    (forall k :: 0 <= k < |kids| ==> Ends(next, kids[k], child[k], last[k]))
  }

  /** Marking an untried move of node `k` keeps the bookkeeping and the parents. */
  lemma {:induction false} MarkKeeps<M>(moves: seq<seq<M>>, tried: seq<seq<bool>>, untried: seq<nat>,
                     parent: seq<Ptr>, move: seq<nat>, k: nat, i: nat)
    requires Books(moves, tried, untried) && Parents(parent, move, tried)
    requires k < |tried| && i < |tried[k]| && !tried[k][i]
    ensures untried[k] > 0
    ensures var tried' := tried[k := tried[k][i := true]];
      Books(moves, tried', untried[k := untried[k] - 1]) && Parents(parent, move, tried')
  {
    CountMarked(tried[k], i);
  }

  /** A new node for move `m` of node `k`, with all its moves untried, keeps the bookkeeping. */
  lemma {:induction false} AppendKeepsBooks<M>(moves: seq<seq<M>>, tried: seq<seq<bool>>, untried: seq<nat>,
                            parent: seq<Ptr>, move: seq<nat>, k: nat, m: nat, ml: seq<M>)
    requires Books(moves, tried, untried) && Parents(parent, move, tried)
    requires k < |parent| && m < |tried[k]| && tried[k][m]
    ensures var flags := NoneTried(|ml|);
      Books(moves + [ml], tried + [flags], untried + [|ml|]) &&
      Parents(parent + [Ref(k)], move + [m], tried + [flags])
  {
    var flags := NoneTried(|ml|);
    var n := |tried|;
    var moves', tried', untried' := moves + [ml], tried + [flags], untried + [|ml|];
    forall x | 0 <= x < |tried'|
      ensures |tried'[x]| == |moves'[x]| && untried'[x] == CountUntried(tried'[x])
    {
      if x < n {
        assert tried'[x] == tried[x] && moves'[x] == moves[x] && untried'[x] == untried[x];
      }
    }
    var parent', move' := parent + [Ref(k)], move + [m];
    forall x | 0 < x < |parent'|
      ensures move'[x] < |tried'[parent'[x].i]| && tried'[parent'[x].i][move'[x]]
    {
      if x < n {
        assert parent'[x] == parent[x] && move'[x] == move[x] && tried'[parent[x].i] == tried[parent[x].i];
      } else {
        assert tried'[k] == tried[k];
      }
    }
  }

  /**
   * A node that is nobody's child yet can be appended as the last child of
   * its parent `k`: as the first child when `k` has none, and otherwise
   * after the current last one.
   */
  lemma {:induction false} LinkKeepsShape(parent: seq<Ptr>, next: seq<Ptr>, child: seq<Ptr>, last: seq<Ptr>,
                       kids: seq<seq<nat>>, k: nat, j: nat,
                       next': seq<Ptr>, child': seq<Ptr>)
    requires Shape(parent, next, child, last, kids) && k < j < |parent| && parent[j] == Ref(k)
    requires forall x, t :: 0 <= x < |kids| && 0 <= t < |kids[x]| ==> kids[x][t] != j
    requires kids[j] == [] && next[j] == Null
    requires kids[k] == [] ==> next' == next && child' == child[k := Ref(j)]
    requires kids[k] != [] ==> next' == next[last[k].i := Ref(j)] && child' == child
    ensures Shape(parent, next', child', last[k := Ref(j)], kids[k := kids[k] + [j]])
  {
    var last' := last[k := Ref(j)];
    var kids' := kids[k := kids[k] + [j]];
    assert Ends(next, kids[k], child[k], last[k]);
    forall x, t | 0 <= x < |kids'| && 0 <= t < |kids'[x]|
      ensures x < kids'[x][t] < |parent| && parent[kids'[x][t]] == Ref(x)
    {
      if x != k || t < |kids[k]| {
        assert kids'[x][t] == kids[x][t];
      }
    }
    forall x, t | 0 <= x < |kids'| && 0 <= t < |kids'[x]| - 1
      ensures Linked(next', kids'[x], t)
    {
      if x == k && t == |kids[k]| - 1 {
        assert kids'[x][t] == last[k].i;
      } else {
        assert kids'[x][t] == kids[x][t] && kids'[x][t + 1] == kids[x][t + 1];
        assert Linked(next, kids[x], t);
      }
    }
    forall x | 0 <= x < |kids'|
      ensures Ends(next', kids'[x], child'[x], last'[x])
    {
      if x != k {
        assert Ends(next, kids[x], child[x], last[x]);
        if kids[x] != [] && kids[k] != [] {
          assert parent[kids[x][|kids[x]| - 1]] == Ref(x);
          assert parent[kids[k][|kids[k]| - 1]] == Ref(k);
        }
      }
    }
  }

  /** A new node with no children keeps the sibling lists. */
  lemma {:induction false} AllocKeepsShape(parent: seq<Ptr>, next: seq<Ptr>, child: seq<Ptr>, last: seq<Ptr>,
                        kids: seq<seq<nat>>, k: nat)
    requires Shape(parent, next, child, last, kids)
    ensures Shape(parent + [Ref(k)], next + [Null], child + [Null], last + [Null], kids + [[]])
    ensures forall x, t :: 0 <= x < |kids| + 1 && 0 <= t < |(kids + [[]])[x]| ==>
      (kids + [[]])[x][t] < |parent|
  {
    var kids' := kids + [[]];
    assert forall x :: 0 <= x < |kids| ==> kids'[x] == kids[x];
    forall x, t | 0 <= x < |kids'| && 0 <= t < |kids'[x]| - 1
      ensures Linked(next + [Null], kids'[x], t)
    {
      assert Linked(next, kids[x], t);
    }
    forall x | 0 <= x < |kids'|
      ensures Ends(next + [Null], kids'[x], (child + [Null])[x], (last + [Null])[x])
    {
      if x < |kids| {
        assert Ends(next, kids[x], child[x], last[x]);
      }
    }
  }

  /** `ks` is the sibling list that starts at `first` and follows `next` to null. */
  ghost predicate Chain(next: seq<Ptr>, ks: seq<nat>, first: Ptr)
  {
    (forall t :: 0 <= t < |ks| ==> ks[t] < |next|) &&
    first == (if ks == [] then Null else Ref(ks[0])) &&
    forall t :: 0 <= t < |ks| ==> next[ks[t]] == if t + 1 < |ks| then Ref(ks[t + 1]) else Null
  }

  /** In a tree, the children of each node are the list from its `child` along `next`. */
  lemma ShapeChain(parent: seq<Ptr>, next: seq<Ptr>, child: seq<Ptr>, last: seq<Ptr>,
                   kids: seq<seq<nat>>, k: nat)
    requires Shape(parent, next, child, last, kids) && k < |kids|
    ensures Chain(next, kids[k], child[k])
  {
    var ks := kids[k];
    assert Ends(next, ks, child[k], last[k]);
    forall t | 0 <= t < |ks|
      ensures ks[t] < |next| && next[ks[t]] == if t + 1 < |ks| then Ref(ks[t + 1]) else Null
    {
      if t + 1 < |ks| {
        assert Linked(next, ks, t);
      }
    }
  }

  /** The scores `ucb` gives the nodes `ks` under a parent visited `pv` times. */
  function ChildScores(wins: seq<real>, visits: seq<nat>, ks: seq<nat>, pv: nat,
                       ucb: (real, nat, nat, real) -> real, cp: real): (r: seq<real>)
    requires |wins| == |visits| && forall t :: 0 <= t < |ks| ==> ks[t] < |visits|
    ensures |r| == |ks|
    ensures forall t :: 0 <= t < |ks| ==> r[t] == ucb(wins[ks[t]], visits[ks[t]], pv, cp)
  {
    seq(|ks|, t requires 0 <= t < |ks| => ucb(wins[ks[t]], visits[ks[t]], pv, cp))
  }

  /** The visit counts of the nodes `ks`. */
  function ChildVisits(visits: seq<nat>, ks: seq<nat>): (r: seq<real>)
    requires forall t :: 0 <= t < |ks| ==> ks[t] < |visits|
    ensures |r| == |ks|
    ensures forall t :: 0 <= t < |ks| ==> r[t] == visits[ks[t]] as real
  {
    seq(|ks|, t requires 0 <= t < |ks| => visits[ks[t]] as real)
  }

  /** Before the last task, there is room for one more task's iterations within the budget. */
  lemma RoomLeft(task: nat, iter: nat)
    requires task < NumThreads
    ensures (task + 1) * iter == task * iter + iter <= NumThreads * iter
  {
  }

  /**
   * The fields of every node: entry `k` of each sequence belongs to node
   * `k`. `move` is the node's position in its parent's move list, `untried`
   * the number of its moves not yet tried, `wins` and `visits` its score.
   */
  datatype Nodes<S, M> = Nodes(
    snapshot: seq<S>, move: seq<nat>, untried: seq<nat>,
    parent: seq<Ptr>, next: seq<Ptr>, child: seq<Ptr>, last: seq<Ptr>,
    moves: seq<seq<M>>, tried: seq<seq<bool>>, wins: seq<real>, visits: seq<nat>)

  /** Every one of `n` nodes has each field. */
  predicate Sized<S, M>(t: Nodes<S, M>, n: nat)
  {
    |t.snapshot| == |t.move| == |t.untried| == |t.parent| == |t.next| == |t.child| ==
      |t.last| == |t.moves| == |t.tried| == |t.wins| == |t.visits| == n
  }

  /**
   * The arena is a tree of pool nodes below the root: every node has each
   * field, at most `capacity` nodes were drawn from the pool, the move
   * bookkeeping holds, and the links match the sibling lists `kids`.
   */
  ghost predicate Tree<S, M>(t: Nodes<S, M>, kids: seq<seq<nat>>, capacity: nat)
  {
    Sized(t, |kids|) && 1 <= |kids| <= capacity + 1 &&
    Books(t.moves, t.tried, t.untried) && Parents(t.parent, t.move, t.tried) &&
    Shape(t.parent, t.next, t.child, t.last, kids)
  }

  /**
   * Node `init(state)` on the cleared root: snapshot `x`, the moves `ml` all
   * untried, no links, no score.
   */
  function Root<S, M>(x: S, ml: seq<M>): Nodes<S, M>
  {
    Nodes([x], [0], [|ml|], [Null], [Null], [Null], [Null], [ml], [NoneTried(|ml|)], [0.0], [0])
  }

  /** The cleared root alone is a tree. */
  lemma RootAlone<S, M>(x: S, ml: seq<M>, capacity: nat)
    ensures Tree(Root(x, ml), [[]], capacity)
  {
  }

  /**
   * One more node, for move `m` of node `k`: snapshot `x`, the moves `ml`
   * all untried, parent `k`, no other links, no score.
   */
  function Appended<S, M>(t: Nodes<S, M>, k: nat, m: nat, x: S, ml: seq<M>): Nodes<S, M>
  {
    Nodes(t.snapshot + [x], t.move + [m], t.untried + [|ml|],
          t.parent + [Ref(k)], t.next + [Null], t.child + [Null], t.last + [Null],
          t.moves + [ml], t.tried + [NoneTried(|ml|)], t.wins + [0.0], t.visits + [0])
  }

  /**
   * While the pool has room, a new node for a tried move of an existing node
   * keeps the tree, as a node no sibling list holds yet.
   */
  lemma {:induction false} AppendKeepsTree<S, M>(t: Nodes<S, M>, kids: seq<seq<nat>>, capacity: nat,
                                                k: nat, m: nat, x: S, ml: seq<M>)
    requires Tree(t, kids, capacity) && |kids| <= capacity
    requires k < |kids| && m < |t.tried[k]| && t.tried[k][m]
    ensures Tree(Appended(t, k, m, x, ml), kids + [[]], capacity)
    ensures forall y, u :: 0 <= y < |kids| + 1 && 0 <= u < |(kids + [[]])[y]| ==>
      (kids + [[]])[y][u] < |kids|
  {
    AppendKeepsBooks(t.moves, t.tried, t.untried, t.parent, t.move, k, m, ml);
    AllocKeepsShape(t.parent, t.next, t.child, t.last, kids, k);
  }

  /**
   * The loop of `UCT::backprop` on the `visits` and `wins` of the nodes:
   * from `k` up to the root by parent links, each node gets one visit and
   * the result for its side, `side` at `k` and alternating level by level.
   */
  method Credit(parent: seq<Ptr>, visits: seq<nat>, wins: seq<real>, k: nat, winner: Color, side: Color)
    returns (visits': seq<nat>, wins': seq<real>)
    requires Rooted(parent) && k < |parent| && |visits| == |wins| == |parent|
    ensures visits' == Visited(visits, Ancestors(parent, k))
    ensures wins' == Credited(wins, Ancestors(parent, k), winner, side)
  {
    ghost var a := Ancestors(parent, k);
    visits', wins' := visits, wins;
    var sc := side;
    var node := Ref(k);
    ghost var t := 0;
    while node.Ref?
      invariant 0 <= t <= |a|
      invariant node == (if t < |a| then Ref(a[t]) else Null)
      invariant sc == Perspective(side, t)
      invariant visits' == Visited(visits, a[..t]) && wins' == Credited(wins, a[..t], winner, side)
      decreases |a| - t
    {
      var x := node.i;
      ghost var next := t + 1;
      assert x == a[t] && parent[a[t]] == if next < |a| then Ref(a[next]) else Null;
      CreditStep(visits, wins, a, winner, side, t, next);
      visits' := visits'[x := visits'[x] + 1];
      wins' := wins'[x := wins'[x] + Outcome(winner, sc)];
      node := parent[x];
      PerspectiveStep(side, t, next);
      sc := Other(sc);
      t := next;
    }
    assert a[..t] == a;
  }

  /** The child `select` picks among `ks`: the first with the strictly highest score above INT_MIN. */
  ghost function PickAmong(wins: seq<real>, visits: seq<nat>, ks: seq<nat>, pv: nat,
                           ucb: (real, nat, nat, real) -> real, cp: real): (r: Ptr)
    requires |wins| == |visits| && forall t :: 0 <= t < |ks| ==> ks[t] < |visits|
    ensures r == Null <==> forall t :: 0 <= t < |ks| ==> ChildScores(wins, visits, ks, pv, ucb, cp)[t] <= IntMin as real
    ensures r.Ref? ==> r.i in ks
  {
    var vals := ChildScores(wins, visits, ks, pv, ucb, cp);
    ArgMaxSpec(vals, IntMin as real);
    var t := ArgMax(vals, IntMin as real);
    if t == -1 then Null else Ref(ks[t])
  }

  /**
   * The loop of node `select(Cp)`: walks the sibling list from `first` and
   * keeps the first node whose score strictly beats the best so far, which
   * starts at INT_MIN.
   */
  method SelectAmong(next: seq<Ptr>, wins: seq<real>, visits: seq<nat>, ghost ks: seq<nat>, first: Ptr,
                     pv: nat, ucb: (real, nat, nat, real) -> real, cp: real) returns (r: Ptr)
    requires |wins| == |visits| == |next| && Chain(next, ks, first)
    ensures r == PickAmong(wins, visits, ks, pv, ucb, cp)
  {
    ghost var vals := ChildScores(wins, visits, ks, pv, ucb, cp);
    var best: real := IntMin as real;
    r := Null;
    var n := first;
    ghost var t := 0;
    ghost var idx := -1;
    while n.Ref?
      invariant 0 <= t <= |ks|
      invariant n == if t < |ks| then Ref(ks[t]) else Null
      invariant idx == ArgMax(vals[..t], IntMin as real)
      invariant r == (if idx == -1 then Null else Ref(ks[idx]))
      invariant best == (if idx == -1 then IntMin as real else vals[idx])
      decreases |ks| - t
    {
      assert n.i == ks[t] && next[ks[t]] == if t + 1 < |ks| then Ref(ks[t + 1]) else Null;
      var score := ucb(wins[n.i], visits[n.i], pv, cp);
      ArgMaxStep(vals, IntMin as real, t);
      if score > best {
        best := score;
        r := n;
        idx := t;
      }
      n := next[n.i];
      t := t + 1;
    }
    assert vals[..t] == vals;
  }

  /**
   * The loop of `UCT::move`: walks the non-empty sibling list from `first`
   * and keeps the first node whose visit count strictly beats the best so
   * far, which starts at the first node's count.
   */
  method MostVisited(next: seq<Ptr>, visits: seq<nat>, ghost ks: seq<nat>, first: Ptr) returns (result: nat)
    requires |visits| == |next| && Chain(next, ks, first) && ks != []
    ensures result == ks[FirstMax(ChildVisits(visits, ks))]
  {
    ghost var vals := ChildVisits(visits, ks);
    result := first.i;
    var best := visits[result];
    var n := first;
    ghost var t := 0;
    ghost var m := -1;
    ghost var r := 0;
    while n.Ref?
      invariant 0 <= t <= |ks| && -1 <= m < |ks| && 0 <= r < |ks|
      invariant n == if t < |ks| then Ref(ks[t]) else Null
      invariant m == ArgMax(vals[..t], vals[0]) && r == (if m == -1 then 0 else m)
      invariant result == ks[r] && best as real == vals[r]
      decreases |ks| - t
    {
      assert n.i == ks[t] && next[ks[t]] == if t + 1 < |ks| then Ref(ks[t + 1]) else Null;
      ArgMaxStep(vals, vals[0], t);
      if visits[n.i] > best {
        best := visits[n.i];
        result := n.i;
        r := t;
      }
      m := ArgMax(vals[..t + 1], vals[0]);
      n := next[n.i];
      t := t + 1;
    }
    assert vals[..t] == vals;
  }

  /**
   * One UCT player and its tree. `ucb(wins, visits, parentVisits, cp)` is the
   * UCB1 score `uct(Cp, n)` of a child, Q + Cp * sqrt(2 ln N / n), which is
   * floating point in the source and a parameter here.
   */
  class Player<S, M> {
    const g: Game<S, M>
    const ucb: (real, nat, nat, real) -> real
    const capacity: nat      // the size of the node pool
    const maxIter: nat       // MAX_ITER
    var cp: real
    var nodes: Nodes<S, M>
    ghost var kids: seq<seq<nat>>

    /** The arena is a tree whose sibling lists are `kids`, within the pool. */
    ghost predicate Valid()
      reads this
    {
      Tree(nodes, kids, capacity)
    }

    /** `UCT()`: Cp is sqrt 2 in the source and a parameter here; the root is cleared. */
    constructor (game: Game<S, M>, score: (real, nat, nat, real) -> real, poolSize: nat,
                 iterations: nat, c0: real)
      ensures g == game && ucb == score && capacity == poolSize && maxIter == iterations
      ensures cp == c0 && nodes == Root(game.initial, []) && kids == [[]]
      ensures Valid()
    {
      g := game;
      ucb := score;
      capacity := poolSize;
      maxIter := iterations;
      cp := c0;
      nodes := Root(game.initial, []);
      kids := [[]];
      var none: seq<M> := [];
      RootAlone(game.initial, none, poolSize);
    }

    /** `set_param(p)`: the exploration constant. */
    method SetParam(p: real)
      modifies this`cp
      ensures cp == p
    {
      cp := p;
    }

    /** The number of iterations `next` runs: MAX_ITER rounded down to a multiple of NUM_THREADS. */
    function Iterations(): (r: nat)
      ensures r <= maxIter && maxIter - r < NumThreads && r % NumThreads == 0
    {
      NumThreads * (maxIter / NumThreads)
    }

    /** The number of nodes. */
    function Size(): nat
      reads this
    {
      |nodes.parent|
    }

    /** `get_move`: the move that leads to node `j`, looked up in its parent's list. */
    function MoveOf(j: nat): M
      reads this
      requires Valid() && 0 < j < Size()
    {
      nodes.moves[nodes.parent[j].i][nodes.move[j]]
    }

    /** The UCB1 scores of the children of `k`, in sibling order. */
    ghost function Scores(k: nat): (r: seq<real>)
      reads this
      requires Valid() && k < Size()
      ensures |r| == |kids[k]|
    {
      ChildScores(nodes.wins, nodes.visits, kids[k], nodes.visits[k], ucb, cp)
    }

    /** The visit counts of the children of `k`, in sibling order. */
    ghost function Visits(k: nat): (r: seq<real>)
      reads this
      requires Valid() && k < Size()
      ensures |r| == |kids[k]|
    {
      ChildVisits(nodes.visits, kids[k])
    }

    /** The child `select` picks: the first with the strictly highest score above INT_MIN. */
    ghost function Pick(k: nat): (r: Ptr)
      reads this
      requires Valid() && k < Size()
      ensures r.Ref? ==> k < r.i < Size()
    {
      PickAmong(nodes.wins, nodes.visits, kids[k], nodes.visits[k], ucb, cp)
    }

    /**
     * Node `select(Cp)`: walks the sibling list from `child` and keeps the
     * first node whose score strictly beats the best so far, which starts
     * at INT_MIN. Null when there are no children or none scores above it.
     */
    method NodeSelect(k: nat) returns (r: Ptr)
      requires Valid() && k < Size()
      ensures r == Pick(k)
      ensures r == Null <==> forall t :: 0 <= t < |kids[k]| ==> Scores(k)[t] <= IntMin as real
    {
      var ns := nodes;
      ShapeChain(ns.parent, ns.next, ns.child, ns.last, kids, k);
      r := SelectAmong(ns.next, ns.wins, ns.visits, kids[k], ns.child[k], ns.visits[k], ucb, cp);
      assert Scores(k) == ChildScores(ns.wins, ns.visits, kids[k], ns.visits[k], ucb, cp);
    }

    /**
     * Node `expand`: a choice below `untried` is drawn (before the assertion
     * that `untried` is positive, which the model makes a precondition), and
     * the untried moves are counted down to it: the move taken is the untried
     * one with exactly `untried - 1 - choice` untried moves before it. It is
     * marked tried and `untried` drops by one; nothing else changes.
     */
    method NodeExpand(k: nat) returns (i: nat, ghost choice: nat)
      requires Valid() && k < Size() && nodes.untried[k] > 0
      modifies this`nodes
      ensures Valid()
      ensures var flags := old(nodes.tried[k]);
        i < |flags| && !flags[i] && choice < old(nodes.untried[k]) &&
        CountUntried(flags[..i]) == old(nodes.untried[k]) - 1 - choice
      ensures nodes == old(nodes).(tried := old(nodes.tried)[k := old(nodes.tried[k])[i := true]],
                                   untried := old(nodes.untried)[k := old(nodes.untried[k]) - 1])
    {
      var ns := nodes;
      var flags := ns.tried[k];
      var count := ns.untried[k];
      var draw :| 0 <= draw < count;
      choice := draw;
      var c := count;
      i := 0;
      assert flags[..|flags|] == flags;
      while true
        invariant i < |flags|
        invariant c == count - CountUntried(flags[..i]) && c > draw
        decreases |flags| - i
      {
        assert flags[..i + 1][..i] == flags[..i];
        if !flags[i] {
          c := c - 1;
          if c == draw {
            MarkKeeps(ns.moves, ns.tried, ns.untried, ns.parent, ns.move, k, i);
            nodes := ns.(tried := ns.tried[k := flags[i := true]], untried := ns.untried[k := count - 1]);
            return;
          }
        }
        i := i + 1;
      }
    }

    /**
     * The first half of node `add(m, state)`: a pool node is allocated and
     * initialised for move `m` under `k`, and `tried[m]` is set again (it
     * already is). `init` generates the node's moves from the state (which
     * may mark it over), and because its parameter shadows the member, the
     * copy at its top copies the argument onto itself: the node's snapshot
     * stays cleared. The pool must have room, and `m` is a move `expand` has
     * just marked.
     */
    method Alloc(k: nat, m: nat, s: S) returns (j: nat, s': S)
      requires Valid() && k < Size() && Size() <= capacity
      requires m < |nodes.tried[k]| && nodes.tried[k][m]
      modifies this`nodes, this`kids
      ensures Valid() && j == old(Size())
      ensures s' == Generate(g, s).0
      ensures nodes == Appended(old(nodes), k, m, g.initial, g.moves(s)) && kids == old(kids) + [[]]
      ensures forall x, t :: 0 <= x < |kids| && 0 <= t < |kids[x]| ==> kids[x][t] < j
    {
      j := |nodes.parent|;
      var (after, ml) := Generate(g, s);
      s' := after;
      AppendKeepsTree(nodes, kids, capacity, k, m, g.initial, ml);
      nodes := Appended(nodes, k, m, g.initial, ml);
      kids := kids + [[]];
    }

    /**
     * The second half of node `add`: node `j`, a child of `k` that is in no
     * sibling list yet, is appended at the tail of the list of `k`; the
     * `next` of the tail is left null.
     */
    method Link(k: nat, j: nat)
      requires Valid() && k < Size() && j < Size() && nodes.parent[j] == Ref(k)
      requires kids[j] == [] && nodes.next[j] == Null
      requires forall x, t :: 0 <= x < |kids| && 0 <= t < |kids[x]| ==> kids[x][t] != j
      modifies this`nodes, this`kids
      ensures Valid()
      ensures kids == old(kids)[k := old(kids[k]) + [j]]
      ensures old(kids[k]) == [] ==>
        nodes == old(nodes).(child := old(nodes.child)[k := Ref(j)], last := old(nodes.last)[k := Ref(j)])
      ensures old(kids[k]) != [] ==>
        nodes == old(nodes).(next := old(nodes.next)[old(nodes.last[k]).i := Ref(j)],
                             last := old(nodes.last)[k := Ref(j)])
    {
      var ns := nodes;
      assert Ends(ns.next, kids[k], ns.child[k], ns.last[k]);
      if ns.child[k] == Null {
        LinkKeepsShape(ns.parent, ns.next, ns.child, ns.last, kids, k, j, ns.next, ns.child[k := Ref(j)]);
        nodes := ns.(child := ns.child[k := Ref(j)], last := ns.last[k := Ref(j)]);
      } else {
        LinkKeepsShape(ns.parent, ns.next, ns.child, ns.last, kids, k, j, ns.next[ns.last[k].i := Ref(j)], ns.child);
        nodes := ns.(next := ns.next[ns.last[k].i := Ref(j)], last := ns.last[k := Ref(j)]);
      }
      kids := kids[k := kids[k] + [j]];
    }

    /** Node `add(m, state)`: allocate and initialise a child of `k` for move `m`, and link it last. */
    method NodeAdd(k: nat, m: nat, s: S) returns (j: nat, s': S)
      requires Valid() && k < Size() && Size() <= capacity
      requires m < |nodes.tried[k]| && nodes.tried[k][m]
      modifies this`nodes, this`kids
      ensures Valid() && j == old(Size()) && nodes.parent == old(nodes.parent) + [Ref(k)]
      ensures s' == Generate(g, s).0 && nodes.move == old(nodes.move) + [m]
      ensures nodes.snapshot == old(nodes.snapshot) + [g.initial]
      ensures nodes.moves == old(nodes.moves) + [g.moves(s)]
      ensures nodes.untried == old(nodes.untried) + [|g.moves(s)|]
      ensures nodes.wins == old(nodes.wins) + [0.0] && nodes.visits == old(nodes.visits) + [0]
      ensures kids == old(kids)[k := old(kids[k]) + [j]] + [[]]
    {
      j, s' := Alloc(k, m, s);
      Link(k, j);
    }

    /**
     * What `UCT::select` reaches from node `k` with state `s`: it stops at a
     * node with untried moves or with no child, and otherwise moves to the
     * child `select` picks and plays that child's move, or ends at null.
     */
    ghost function Walk(s: S, k: nat): (S, Ptr)
      reads this
      requires Valid() && k < Size()
      decreases Size() - k
    {
      if nodes.untried[k] != 0 || nodes.child[k] == Null then (s, Ref(k))
      else
        var c := Pick(k);
        if c == Null then (s, Null) else Walk(g.play(s, MoveOf(c.i)), c.i)
    }

    /** `UCT::select`: descends while a node is fully expanded and has a child. */
    method Descend(s: S, k: nat) returns (s': S, r: Ptr)
      requires Valid() && k < Size()
      ensures (s', r) == Walk(s, k)
      ensures r.Ref? ==> r.i < Size() && (nodes.untried[r.i] > 0 || nodes.child[r.i] == Null)
    {
      r := Ref(k);
      s' := s;
      while r.Ref? && nodes.untried[r.i] == 0 && nodes.child[r.i] != Null
        invariant r.Ref? ==> r.i < Size() && Walk(s', r.i) == Walk(s, k)
        invariant r == Null ==> (s', r) == Walk(s, k)
        decreases if r.Ref? then Size() - r.i else 0
      {
        var c := NodeSelect(r.i);
        if c.Ref? {
          s' := g.play(s', MoveOf(c.i));
        }
        r := c;
      }
    }

    /**
     * `UCT::expand`: at a node with untried moves, expand one, play it on the
     * working state and add its child; a fully expanded node is returned
     * unchanged. Existing nodes keep their visits, wins, moves and snapshots.
     */
    method Grow(s: S, k: nat) returns (s': S, j: nat)
      requires Valid() && k < Size() && Size() <= capacity
      modifies this`nodes, this`kids
      ensures Valid() && j < Size() && Size() <= old(Size()) + 1
      ensures old(nodes.untried[k]) == 0 ==> s' == s && j == k && nodes == old(nodes) && kids == old(kids)
      ensures old(nodes.untried[k]) > 0 ==>
        j == old(Size()) && nodes.parent[j] == Ref(k) && kids[k] == old(kids[k]) + [j] &&
        exists i :: 0 <= i < |old(nodes.moves[k])| && !old(nodes.tried[k][i]) &&
          nodes.move[j] == i && s' == Generate(g, g.play(s, old(nodes.moves[k][i]))).0
      ensures old(nodes.untried[k]) > 0 ==>
        nodes.visits == old(nodes.visits) + [0] && nodes.wins == old(nodes.wins) + [0.0]
      ensures nodes.visits[..old(Size())] == old(nodes.visits)
      ensures nodes.wins[..old(Size())] == old(nodes.wins)
      ensures nodes.moves[..old(Size())] == old(nodes.moves)
      ensures nodes.snapshot[..old(Size())] == old(nodes.snapshot)
    {
      if nodes.untried[k] > 0 {
        var m, choice := NodeExpand(k);
        s' := g.play(s, nodes.moves[k][m]);
        j, s' := NodeAdd(k, m, s');
      } else {
        s', j := s, k;
      }
    }

    /** One `random_move` step: the moves are generated, and one is played if there is any. */
    ghost predicate RandomStep(a: S, b: S)
    {
      var (a', ml) := Generate(g, a);
      if |ml| == 0 then b == a' else exists i :: 0 <= i < |ml| && b == g.play(a', ml[i])
    }

    /**
     * `UCT::rollout`: random moves until the game is over. The source loops
     * without bound; here at most `fuel` steps are taken, and the game is
     * over whenever fewer were taken.
     */
    method Rollout(s: S, fuel: nat) returns (s': S, ghost trace: seq<S>)
      ensures |trace| >= 1 && trace[0] == s && trace[|trace| - 1] == s'
      ensures forall t :: 0 <= t < |trace| - 1 ==> !g.over(trace[t]) && RandomStep(trace[t], trace[t + 1])
      ensures |trace| <= fuel + 1
      ensures |trace| <= fuel ==> g.over(s')
    {
      s' := s;
      trace := [s];
      var steps := 0;
      while !g.over(s') && steps < fuel
        invariant |trace| == steps + 1 <= fuel + 1
        invariant trace[0] == s && trace[steps] == s'
        invariant forall t :: 0 <= t < steps ==> !g.over(trace[t]) && RandomStep(trace[t], trace[t + 1])
      {
        var (a, ml) := Generate(g, s');
        var after := a;
        if |ml| > 0 {
          var i :| 0 <= i < |ml|;
          after := g.play(a, ml[i]);
        }
        assert RandomStep(s', after);
        s' := after;
        trace := trace + [s'];
        steps := steps + 1;
      }
    }

    /**
     * `UCT::backprop`: every node from `k` up to the root gets one visit and
     * the result of the final state for its side, which starts as the
     * opponent of the side to move and alternates level by level. No other
     * node and no other field changes.
     */
    method Backprop(s: S, k: nat)
      requires Valid() && k < Size()
      modifies this`nodes
      ensures Valid()
      ensures var a := Ancestors(old(nodes.parent), k);
        nodes == old(nodes).(visits := Visited(old(nodes.visits), a),
                             wins := Credited(old(nodes.wins), a, g.winner(s), Other(g.current(s))))
    {
      var ns := nodes;
      var visits, wins := Credit(ns.parent, ns.visits, ns.wins, k, g.winner(s), Other(g.current(s)));
      nodes := ns.(visits := visits, wins := wins);
    }

    /**
     * The second half of `UCT::iterate`, from node `j`: a random playout
     * from the state to `final`, whose result is backed up from `j` to the
     * root: every node on the way gets a visit and the result for its side,
     * and nothing else changes. The root gains exactly one visit.
     */
    method Playout(s: S, j: nat, fuel: nat) returns (ghost final: S, ghost trace: seq<S>)
      requires Valid() && j < Size()
      modifies this`nodes
      ensures |trace| >= 1 && trace[0] == s && trace[|trace| - 1] == final
      ensures forall t :: 0 <= t < |trace| - 1 ==> !g.over(trace[t]) && RandomStep(trace[t], trace[t + 1])
      ensures |trace| <= fuel + 1 && (|trace| <= fuel ==> g.over(final))
      ensures Valid()
      ensures var a := Ancestors(old(nodes.parent), j);
        nodes == old(nodes).(visits := Visited(old(nodes.visits), a),
                             wins := Credited(old(nodes.wins), a, g.winner(final), Other(g.current(final))))
      ensures nodes.visits[0] == old(nodes.visits[0]) + 1
    {
      var state;
      state, trace := Rollout(s, fuel);
      final := state;
      ghost var ns := nodes;
      ghost var a := Ancestors(ns.parent, j);
      AncestorsDistinct(ns.parent, j);
      CreditEach(ns.visits, ns.wins, a, g.winner(state), Other(g.current(state)), |a| - 1);
      Backprop(state, j);
    }

    /**
     * `UCT::iterate`: descend from the root on a copy of the state; if that
     * reaches a node, expand it to `j` (the node itself when it has no
     * untried move, else its new child), roll out to `final`, and back the
     * result up from `j` to the root of the expanded tree `grown`. The root
     * then has exactly one visit more. If the descent ends at null, nothing
     * changes.
     */
    method Iterate(s: S, fuel: nat) returns (reached: bool, ghost grown: Nodes<S, M>, ghost j: nat,
                                             ghost final: S, ghost trace: seq<S>)
      requires Valid() && Size() <= capacity
      modifies this`nodes, this`kids
      ensures Valid() && Size() <= old(Size()) + 1
      ensures reached <==> old(Walk(s, 0)).1 != Null
      ensures !reached ==> nodes == old(nodes) && kids == old(kids)
      ensures reached ==>
        |trace| >= 1 && trace[|trace| - 1] == final && |trace| <= fuel + 1 &&
        (|trace| <= fuel ==> g.over(final)) &&
        (forall t :: 0 <= t < |trace| - 1 ==> !g.over(trace[t]) && RandomStep(trace[t], trace[t + 1]))
      ensures reached ==>
        var k := old(Walk(s, 0)).1.i;
        (j == k && grown == old(nodes) && trace[0] == old(Walk(s, 0)).0) ||
        (j == old(Size()) && j < Size() && nodes.parent[j] == Ref(k) &&
         grown.visits == old(nodes.visits) + [0] && grown.wins == old(nodes.wins) + [0.0] &&
         trace[0] == Generate(g, g.play(old(Walk(s, 0)).0, MoveOf(j))).0)
      ensures reached ==>
        j < Size() && |grown.visits| == |grown.wins| == Size() &&
        var a := Ancestors(nodes.parent, j);
        nodes == grown.(visits := Visited(grown.visits, a),
                        wins := Credited(grown.wins, a, g.winner(final), Other(g.current(final))))
      ensures reached ==> nodes.visits[0] == old(nodes.visits[0]) + 1
      ensures nodes.moves[0] == old(nodes.moves[0]) && nodes.snapshot[0] == old(nodes.snapshot[0])
    {
      grown, j, final, trace := nodes, 0, s, [s];
      var state, node := Descend(s, 0);
      if node == Null {
        return false, grown, j, final, trace;
      }
      var n;
      state, n := Grow(state, node.i);
      grown, j := nodes, n;
      assert nodes.visits[0] == old(nodes.visits)[0] && nodes.moves[0] == old(nodes.moves)[0];
      assert nodes.snapshot[0] == old(nodes.snapshot)[0];
      final, trace := Playout(state, n, fuel);
      return true, grown, j, final, trace;
    }

    /**
     * `UCT::move`: the root child with the strictly largest visit count, the
     * first one on ties, is played; with no child the state is set over.
     */
    method Choose(s: S) returns (s': S)
      requires Valid()
      ensures kids[0] == [] ==> s' == g.setOver(s)
      ensures kids[0] != [] ==> s' == g.play(s, MoveOf(kids[0][FirstMax(Visits(0))]))
    {
      var ns := nodes;
      ShapeChain(ns.parent, ns.next, ns.child, ns.last, kids, 0);
      if ns.child[0] == Null {
        s' := g.setOver(s);
      } else {
        var j := MostVisited(ns.next, ns.visits, kids[0], ns.child[0]);
        s' := g.play(s, MoveOf(j));
      }
    }

    /**
     * The start of `UCT::next`: the pool is cleared and the root initialised
     * from the state, generating its moves (which marks a finished state
     * over). The root has no child, no visit and no move tried.
     */
    method Reset(s: S) returns (state: S)
      modifies this`nodes, this`kids
      ensures Valid() && nodes == Root(g.initial, g.moves(s)) && kids == [[]]
      ensures state == Generate(g, s).0
    {
      var (after, ml) := Generate(g, s);
      state := after;
      RootAlone(g.initial, ml, capacity);
      nodes := Root(g.initial, ml);
      kids := [[]];
    }

    /**
     * `Task`: `iter` iterations on the same tree from the same state. The
     * pool must have room for a node per iteration. `reached` records, for
     * each iteration, whether its descent reached a node; the root gains one
     * visit for each of those and for no other.
     */
    method Task(s: S, fuel: nat, iter: nat) returns (ghost reached: seq<bool>)
      requires Valid() && Size() + iter <= capacity + 1
      modifies this`nodes, this`kids
      ensures Valid() && Size() <= old(Size()) + iter
      ensures |reached| == iter && nodes.visits[0] == old(nodes.visits[0]) + Hits(reached)
      ensures nodes.moves[0] == old(nodes.moves[0]) && nodes.snapshot[0] == old(nodes.snapshot[0])
    {
      reached := [];
      var i := 0;
      while i < iter
        invariant i <= iter && Valid() && |reached| == i
        invariant Size() <= old(Size()) + i && nodes.visits[0] == old(nodes.visits[0]) + Hits(reached)
        invariant nodes.moves[0] == old(nodes.moves[0]) && nodes.snapshot[0] == old(nodes.snapshot[0])
      {
        var hit, grown, j, final, trace := Iterate(s, fuel);
        assert (reached + [hit])[..i] == reached;
        reached := reached + [hit];
        i := i + 1;
      }
    }

    /**
     * `UCT::next`: after the reset, the NUM_THREADS tasks of
     * MAX_ITER / NUM_THREADS iterations each run one after the other on the
     * same tree; then the move is chosen. The pool must hold a node per
     * iteration. The root's visits count the iterations whose descent
     * reached a node, in `reached`.
     */
    method Next(c: Color, s: S, fuel: nat) returns (s': S, ghost reached: seq<bool>)
      requires Iterations() <= capacity
      modifies this`nodes, this`kids
      ensures Valid() && Size() <= 1 + Iterations()
      ensures |reached| == Iterations() && nodes.visits[0] == Hits(reached)
      ensures nodes.moves[0] == g.moves(s) && nodes.snapshot[0] == g.initial
      ensures kids[0] == [] ==> s' == g.setOver(Generate(g, s).0)
      ensures kids[0] != [] ==> s' == g.play(Generate(g, s).0, MoveOf(kids[0][FirstMax(Visits(0))]))
    {
      var state := Reset(s);
      var iter := maxIter / NumThreads;
      var task := 0;
      reached := [];
      while task < NumThreads
        invariant task <= NumThreads && Valid() && |reached| == task * iter
        invariant Size() <= 1 + task * iter && nodes.visits[0] == Hits(reached)
        invariant nodes.moves[0] == g.moves(s) && nodes.snapshot[0] == g.initial
      {
        RoomLeft(task, iter);
        var more := Task(state, fuel, iter);
        HitsAppend(reached, more);
        reached := reached + more;
        task := task + 1;
      }
      s' := Choose(state);
    }
  }
}
