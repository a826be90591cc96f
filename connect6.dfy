// Connect-6 (games/connect6.h): Black opens with one stone, then each side
// places two stones a turn on a SIZE by SIZE board; six in a row wins.
module Connect6 {
  import opened Common
  import opened Text
  import opened SquareGrid
  import C4 = Connect4
  import Turns = State

  // -------------------------------------------------------- binomials ---

  /** The binomial coefficient C(n, k), by Pascal's rule. */
  function Choose(n: nat, k: nat): nat
  {
    if k == 0 then 1 else if n == 0 then 0 else Choose(n - 1, k - 1) + Choose(n - 1, k)
  }

  lemma {:induction false} ChooseOne(n: nat)
    ensures Choose(n, 1) == n
  {
    if n > 0 {
      ChooseOne(n - 1);
    }
  }

  lemma {:induction false} ChooseAbove(n: nat, k: nat)
    requires n < k
    ensures Choose(n, k) == 0
  {
    if n > 0 {
      ChooseAbove(n - 1, k - 1);
      ChooseAbove(n - 1, k);
    }
  }

  /** Pascal's rule for pairs: one more cell adds one pair per cell already there. */
  lemma PairsOfOneMore(n: nat)
    ensures Choose(n + 1, 2) == Choose(n, 2) + n
  {
    ChooseOne(n);
  }

  /** Absorption: k C(n, k) == n C(n - 1, k - 1). */
  lemma {:induction false} Absorb(n: nat, k: nat)
    requires n >= 1 && k >= 1
    ensures k * Choose(n, k) == n * Choose(n - 1, k - 1)
    decreases n
  {
    if k == 1 {
      ChooseOne(n);
    } else if n == 1 {
      ChooseAbove(0, k - 1);
      ChooseAbove(0, k);
    } else {
      var a, b := Choose(n - 1, k - 1), Choose(n - 1, k);
      var p, q := Choose(n - 2, k - 2), Choose(n - 2, k - 1);
      assert Choose(n, k) == a + b && a == p + q;
      Absorb(n - 1, k - 1);
      Absorb(n - 1, k);
      calc {
        k * (a + b);
        { Distribute(k, a, b); Distribute(a, k - 1, 1); }
        (k - 1) * a + a + k * b;
        (n - 1) * p + (n - 1) * q + a;
        { Distribute(n - 1, p, q); }
        (n - 1) * a + a;
        { Distribute(a, n - 1, 1); }
        n * a;
      }
    }
  }

  lemma Distribute(x: int, y: int, z: int)
    ensures x * (y + z) == x * y + x * z && (y + z) * x == y * x + z * x
  {
  }

  /** The companion identity: (n - k) C(n, k) == n C(n - 1, k). */
  lemma Complement(n: nat, k: nat)
    requires 1 <= n && k <= n
    ensures (n - k) * Choose(n, k) == n * Choose(n - 1, k)
  {
    if k > 0 {
      Absorb(n, k);
      var a, b := Choose(n - 1, k - 1), Choose(n - 1, k);
      assert (n - k) * (a + b) == n * a + n * b - k * (a + b);
    }
  }

  /** A quotient known to be exact. */
  lemma DivExact(x: nat, k: nat, c: nat)
    requires k > 0 && x == k * c
    ensures x / k == c && x % k == 0
  {
    DivModUnique(k, x, 0, c);
  }

  /**
   * `binomial_coeff<N, K>::result`, the template that sizes the move
   * counters: C(N - 1, K - 1) * N / K, down to K == 0.
   */
  function Binomial(n: nat, k: nat): (r: nat)
    requires k <= n
    ensures r == Choose(n, k)
  {
    if k == 0 then 1
    else
      Absorb(n, k);
      DivExact(Binomial(n - 1, k - 1) * n, k, Choose(n, k));
      Binomial(n - 1, k - 1) * n / k
  }

  /** Every division of the template is exact. */
  lemma BinomialExact(n: nat, k: nat)
    requires 1 <= k <= n
    ensures (Binomial(n - 1, k - 1) * n) % k == 0
  {
    Absorb(n, k);
    DivExact(Binomial(n - 1, k - 1) * n, k, Choose(n, k));
  }

  /** One round of `bin_coeff`'s loop: C(n, d - 1) * (n - d + 1) / d is C(n, d), exactly. */
  lemma BinStep(n: nat, d: nat)
    requires 1 <= d <= n
    ensures Choose(n, d - 1) * (n - d + 1) % d == 0
    ensures Choose(n, d - 1) * (n - d + 1) / d == Choose(n, d)
  {
    Absorb(n, d);
    Complement(n, d - 1);
    DivExact(Choose(n, d - 1) * (n - d + 1), d, Choose(n, d));
  }

  // ---------------------------------------------------- pair indexing ---

  /**
   * Where row a of the pair order begins: the number of pairs i < j < A
   * whose first cell is below a. Row a holds the A - 1 - a pairs (a, j).
   */
  function RowStart(A: nat, a: nat): nat
    requires a <= A
  {
    if a == 0 then 0 else RowStart(A, a - 1) + (A - a)
  }

  /** The rows from a on hold the C(A - a, 2) pairs not yet counted. */
  lemma {:induction false} RowStartTotal(A: nat, a: nat)
    requires a <= A
    ensures RowStart(A, a) + Choose(A - a, 2) == Choose(A, 2)
  {
    if a > 0 {
      RowStartTotal(A, a - 1);
      PairsOfOneMore(A - a);
    }
  }

  lemma {:induction false} RowStartGrows(A: nat, a: nat, b: nat)
    requires a <= b <= A
    ensures RowStart(A, a) <= RowStart(A, b)
    decreases b
  {
    if a < b {
      RowStartGrows(A, a, b - 1);
    }
  }

  /** The position of the pair (i, j), i < j, in the order `get_index` counts in. */
  function PairIndex(A: nat, i: nat, j: nat): nat
    requires i < j < A
  {
    RowStart(A, i) + (j - i - 1)
  }

  /** The pair at position k of the order, looked for from row a on. */
  function PairFrom(A: nat, k: nat, a: nat): (r: (nat, nat))
    requires a < A && RowStart(A, a) <= k < Choose(A, 2)
    ensures r.0 < r.1 < A && PairIndex(A, r.0, r.1) == k
    decreases A - a
  {
    RowStartTotal(A, a + 1);
    if k < RowStart(A, a + 1) then (a, a + 1 + (k - RowStart(A, a)))
    else PairFrom(A, k, a + 1)
  }

  /** The k-th pair i < j < A. */
  function PairOf(A: nat, k: nat): (r: (nat, nat))
    requires k < Choose(A, 2)
    ensures r.0 < r.1 < A && PairIndex(A, r.0, r.1) == k
  {
    ChooseAbove(0, 2);
    PairFrom(A, k, 0)
  }

  /** Every index of a pair is below C(A, 2), the size of the move counters. */
  lemma PairIndexBound(A: nat, i: nat, j: nat)
    requires i < j < A
    ensures PairIndex(A, i, j) < Choose(A, 2)
  {
    RowStartTotal(A, i + 1);
  }

  /** Different pairs have different indices. */
  lemma PairIndexInjective(A: nat, i: nat, j: nat, i': nat, j': nat)
    requires i < j < A && i' < j' < A
    requires PairIndex(A, i, j) == PairIndex(A, i', j')
    ensures i == i' && j == j'
  {
    if i < i' {
      RowStartGrows(A, i + 1, i');
    } else if i' < i {
      RowStartGrows(A, i' + 1, i);
    }
  }

  /** The pair at the index of (i, j) is (i, j): indices and pairs are inverse bijections. */
  lemma PairOfIndex(A: nat, i: nat, j: nat)
    requires i < j < A
    ensures PairIndex(A, i, j) < Choose(A, 2) && PairOf(A, PairIndex(A, i, j)) == (i, j)
  {
    PairIndexBound(A, i, j);
    var r := PairOf(A, PairIndex(A, i, j));
    PairIndexInjective(A, i, j, r.0, r.1);
  }

  // ----------------------------------------------- the empty listings ---

  /** `bitset::count()`: the number of set bits. */
  function Popcount(s: seq<bool>): (r: nat)
    ensures r <= |s|
  {
    if |s| == 0 then 0 else Popcount(s[..|s| - 1]) + (if s[|s| - 1] then 1 else 0)
  }

  /** `black | white`: the occupied cells. */
  function Union(b: seq<bool>, w: seq<bool>): (r: seq<bool>)
    requires |b| == |w|
    ensures |r| == |b| && forall i :: 0 <= i < |r| ==> (r[i] <==> b[i] || w[i])
  {
    seq(|b|, i requires 0 <= i < |b| => b[i] || w[i])
  }

  /** The empty cells below i, in increasing order. */
  function EmptyBelow(occ: seq<bool>, i: nat): seq<nat>
    requires i <= |occ|
  {
    if i == 0 then [] else EmptyBelow(occ, i - 1) + (if occ[i - 1] then [] else [i - 1])
  }

  /** The cells a single-stone turn may take, in the order `fill_move` counts them. */
  function EmptyCells(occ: seq<bool>): seq<nat>
  {
    EmptyBelow(occ, |occ|)
  }

  /** The pairs (a, b), a < b < j, of empty cells. */
  function RowPairs(occ: seq<bool>, a: nat, j: nat): seq<(nat, nat)>
    requires a < |occ| && j <= |occ|
  {
    if j <= a + 1 then [] else RowPairs(occ, a, j - 1) + (if !(occ[a] || occ[j - 1]) then [(a, j - 1)] else [])
  }

  /** The pairs of empty cells whose first cell is below i, row by row. */
  function PairsBelow(occ: seq<bool>, i: nat): seq<(nat, nat)>
    requires i <= |occ|
  {
    if i == 0 then [] else PairsBelow(occ, i - 1) + RowPairs(occ, i - 1, |occ|)
  }

  /** The two-stone moves, in the lexicographic order `fill_move` counts them in. */
  function EmptyPairs(occ: seq<bool>): seq<(nat, nat)>
  {
    PairsBelow(occ, |occ|)
  }

  predicate IsPrefix<T(==)>(s: seq<T>, t: seq<T>)
  {
    |s| <= |t| && t[..|s|] == s
  }

  predicate Increasing(s: seq<nat>)
  {
    forall u, v :: 0 <= u < v < |s| ==> s[u] < s[v]
  }

  /** (a, b) comes before (a', b') in lexicographic order. */
  predicate LexLess(p: (nat, nat), q: (nat, nat))
  {
    p.0 < q.0 || (p.0 == q.0 && p.1 < q.1)
  }

  predicate LexIncreasing(s: seq<(nat, nat)>)
  {
    forall u, v :: 0 <= u < v < |s| ==> LexLess(s[u], s[v])
  }

  /** The cells below i that are empty are listed, in increasing order, and nothing else is. */
  lemma {:induction false} EmptyBelowExact(occ: seq<bool>, i: nat)
    requires i <= |occ|
    ensures forall x: nat :: x in EmptyBelow(occ, i) <==> x < i && !occ[x]
    ensures Increasing(EmptyBelow(occ, i))
    ensures |EmptyBelow(occ, i)| + Popcount(occ[..i]) == i
  {
    if i > 0 {
      EmptyBelowExact(occ, i - 1);
      assert occ[..i][..i - 1] == occ[..i - 1];
      var s := EmptyBelow(occ, i - 1);
      forall u | 0 <= u < |s|
        ensures s[u] < i - 1
      {
        assert s[u] in s;
      }
    }
  }

  /** The empty cells are a prefix-closed listing: scanning further only appends. */
  lemma {:induction false} EmptyBelowPrefix(occ: seq<bool>, i: nat, j: nat)
    requires i <= j <= |occ|
    ensures IsPrefix(EmptyBelow(occ, i), EmptyBelow(occ, j))
    decreases j
  {
    if i < j {
      EmptyBelowPrefix(occ, i, j - 1);
    }
  }

  /** There are as many empty cells as cells less occupied ones. */
  lemma EmptyCellsCount(occ: seq<bool>)
    ensures |EmptyCells(occ)| == |occ| - Popcount(occ)
  {
    EmptyBelowExact(occ, |occ|);
    assert occ[..|occ|] == occ;
  }

  /** Row a lists one pair per empty cell between a and j, when a itself is empty. */
  lemma {:induction false} RowPairsCount(occ: seq<bool>, a: nat, j: nat)
    requires a < j <= |occ|
    ensures |RowPairs(occ, a, j)| == if occ[a] then 0 else |EmptyBelow(occ, j)| - |EmptyBelow(occ, a + 1)|
    ensures |EmptyBelow(occ, a + 1)| <= |EmptyBelow(occ, j)|
    decreases j
  {
    if j > a + 1 {
      RowPairsCount(occ, a, j - 1);
    }
  }

  /** The rows below i, and the C(s, 2) pairs among the s empty cells from i on, make up all C(e, 2) pairs. */
  lemma {:induction false} PairsBelowCount(occ: seq<bool>, i: nat)
    requires i <= |occ|
    ensures |EmptyBelow(occ, i)| <= |EmptyCells(occ)|
    ensures |PairsBelow(occ, i)| + Choose(|EmptyCells(occ)| - |EmptyBelow(occ, i)|, 2) == Choose(|EmptyCells(occ)|, 2)
  {
    if i > 0 {
      PairsBelowCount(occ, i - 1);
      RowPairsCount(occ, i - 1, |occ|);
      assert |PairsBelow(occ, i)| == |PairsBelow(occ, i - 1)| + |RowPairs(occ, i - 1, |occ|)|;
      CountStep(|PairsBelow(occ, i - 1)|, |RowPairs(occ, i - 1, |occ|)|,
                |EmptyCells(occ)|, |EmptyBelow(occ, i - 1)|, |EmptyBelow(occ, i)|);
    }
  }

  /** One row of the count: an empty cell with r empty cells after it brings r pairs. */
  lemma CountStep(p: nat, r: nat, e: nat, b: nat, b': nat)
    requires b <= b' <= e && p + Choose(e - b, 2) == Choose(e, 2)
    requires (b' == b && r == 0) || (b' == b + 1 && r == e - b')
    ensures p + r + Choose(e - b', 2) == Choose(e, 2)
  {
    if b' == b + 1 {
      PairsOfOneMore(e - b');
    }
  }

  /** A two-stone turn has C(e, 2) moves, e the number of empty cells. */
  lemma EmptyPairsCount(occ: seq<bool>)
    ensures |EmptyPairs(occ)| == Choose(|EmptyCells(occ)|, 2)
  {
    PairsBelowCount(occ, |occ|);
  }

  /** Row a lists exactly the pairs (a, b), a < b < j, of empty cells, in increasing b. */
  lemma {:induction false} RowPairsExact(occ: seq<bool>, a: nat, j: nat)
    requires a < |occ| && j <= |occ|
    ensures forall p :: p in RowPairs(occ, a, j) <==> p.0 == a && a < p.1 < j && !occ[a] && !occ[p.1]
    ensures LexIncreasing(RowPairs(occ, a, j))
    decreases j
  {
    if j > a + 1 {
      RowPairsExact(occ, a, j - 1);
    }
  }

  /** `RowPairsExact` for one pair p. */
  lemma RowPairsMember(occ: seq<bool>, a: nat, j: nat, p: (nat, nat))
    requires a < |occ| && j <= |occ|
    ensures p in RowPairs(occ, a, j) <==> p.0 == a && a < p.1 < j && !occ[a] && !occ[p.1]
  {
    RowPairsExact(occ, a, j);
  }

  /** The order part of `RowPairsExact`. */
  lemma RowPairsLex(occ: seq<bool>, a: nat, j: nat)
    requires a < |occ| && j <= |occ|
    ensures LexIncreasing(RowPairs(occ, a, j))
  {
    RowPairsExact(occ, a, j);
  }

  /** The pairs below i are exactly the pairs of empty cells a < b with a < i, in lexicographic order. */
  lemma PairsBelowExact(occ: seq<bool>, i: nat)
    requires i <= |occ|
    ensures forall p :: p in PairsBelow(occ, i) <==> p.0 < i && p.0 < p.1 < |occ| && !occ[p.0] && !occ[p.1]
    ensures LexIncreasing(PairsBelow(occ, i))
  {
    forall p
      ensures p in PairsBelow(occ, i) <==> p.0 < i && p.0 < p.1 < |occ| && !occ[p.0] && !occ[p.1]
    {
      PairsBelowMember(occ, i, p);
    }
    PairsBelowLex(occ, i);
  }

  /** `PairsBelowExact` for one pair p. */
  lemma {:induction false} PairsBelowMember(occ: seq<bool>, i: nat, p: (nat, nat))
    requires i <= |occ|
    ensures p in PairsBelow(occ, i) <==> p.0 < i && p.0 < p.1 < |occ| && !occ[p.0] && !occ[p.1]
  {
    if i > 0 {
      var j := i - 1;
      PairsBelowMember(occ, j, p);
      RowPairsMember(occ, j, |occ|, p);
      PairsBelowStep(occ, i, j);
      var empty := p.0 < p.1 < |occ| && !occ[p.0] && !occ[p.1];
      InConcat(PairsBelow(occ, i), PairsBelow(occ, j), RowPairs(occ, j, |occ|), p, p.0 < j && empty, p.0 == j && empty);
    }
  }

  lemma PairsBelowStep(occ: seq<bool>, i: nat, j: nat)
    requires i <= |occ| && j + 1 == i
    ensures PairsBelow(occ, i) == PairsBelow(occ, j) + RowPairs(occ, j, |occ|)
  {
  }

  /** Membership in a concatenation, where each part's membership is already known. */
  lemma InConcat<T>(x: seq<T>, s: seq<T>, t: seq<T>, p: T, inS: bool, inT: bool)
    requires x == s + t && (p in s <==> inS) && (p in t <==> inT)
    ensures p in x <==> inS || inT
  {
  }

  /** The pairs below i are in lexicographic order. */
  lemma {:induction false} PairsBelowLex(occ: seq<bool>, i: nat)
    requires i <= |occ|
    ensures LexIncreasing(PairsBelow(occ, i))
  {
    if i > 0 {
      var j := i - 1;
      PairsBelowLex(occ, j);
      RowPairsLex(occ, j, |occ|);
      PairsBeforeRow(occ, j);
      PairsBelowStep(occ, i, j);
      ConcatLex(PairsBelow(occ, i), PairsBelow(occ, j), RowPairs(occ, j, |occ|));
    }
  }

  /** Every pair below row a comes before every pair of row a. */
  lemma PairsBeforeRow(occ: seq<bool>, a: nat)
    requires a < |occ|
    ensures forall p, q :: p in PairsBelow(occ, a) && q in RowPairs(occ, a, |occ|) ==> LexLess(p, q)
  {
    forall p, q | p in PairsBelow(occ, a) && q in RowPairs(occ, a, |occ|)
      ensures LexLess(p, q)
    {
      PairsBelowMember(occ, a, p);
      RowPairsMember(occ, a, |occ|, q);
    }
  }

  /** Two increasing runs, each entry of the first below each of the second, make an increasing run. */
  lemma ConcatLex(x: seq<(nat, nat)>, s: seq<(nat, nat)>, t: seq<(nat, nat)>)
    requires x == s + t && LexIncreasing(s) && LexIncreasing(t)
    requires forall p, q :: p in s && q in t ==> LexLess(p, q)
    ensures LexIncreasing(x)
  {
    forall u, v | 0 <= u < v < |s + t|
      ensures LexLess((s + t)[u], (s + t)[v])
    {
      if u < |s| && v >= |s| {
        assert s[u] in s && t[v - |s|] in t;
      }
    }
  }

  /** A move of either kind is listed exactly when its cells are empty. */
  lemma EmptyListingsExact(occ: seq<bool>)
    ensures forall x: nat :: x in EmptyCells(occ) <==> x < |occ| && !occ[x]
    ensures forall p :: p in EmptyPairs(occ) <==> p.0 < p.1 < |occ| && !occ[p.0] && !occ[p.1]
    ensures Increasing(EmptyCells(occ)) && LexIncreasing(EmptyPairs(occ))
  {
    EmptyBelowExact(occ, |occ|);
    PairsBelowExact(occ, |occ|);
  }

  /** Row a's pairs below j come first among its pairs. */
  lemma {:induction false} RowPairsPrefix(occ: seq<bool>, a: nat, j: nat, k: nat)
    requires a < |occ| && j <= k <= |occ|
    ensures IsPrefix(RowPairs(occ, a, j), RowPairs(occ, a, k))
    decreases k
  {
    if j < k {
      RowPairsPrefix(occ, a, j, k - 1);
    }
  }

  /** The rows below i come first among all pairs. */
  lemma {:induction false} PairsBelowPrefix(occ: seq<bool>, i: nat, k: nat)
    requires i <= k <= |occ|
    ensures IsPrefix(PairsBelow(occ, i), PairsBelow(occ, k))
    decreases k
  {
    if i < k {
      PairsBelowPrefix(occ, i, k - 1);
    }
  }

  /** The k-th empty cell is the one the scan meets after k others. */
  lemma CellFound(occ: seq<bool>, i: nat)
    requires i < |occ| && !occ[i]
    ensures |EmptyBelow(occ, i)| < |EmptyCells(occ)| && EmptyCells(occ)[|EmptyBelow(occ, i)|] == i
  {
    EmptyBelowPrefix(occ, i + 1, |occ|);
  }

  /** The pair (i, j) of empty cells comes after the rows below i and the pairs (i, b), b < j. */
  lemma PairFound(occ: seq<bool>, i: nat, j: nat)
    requires i < j < |occ| && !occ[i] && !occ[j]
    ensures var n := |PairsBelow(occ, i)| + |RowPairs(occ, i, j)|;
      n < |EmptyPairs(occ)| && EmptyPairs(occ)[n] == (i, j)
  {
    RowPairsPrefix(occ, i, j + 1, |occ|);
    PairsBelowPrefix(occ, i + 1, |occ|);
    assert RowPairs(occ, i, j + 1) == RowPairs(occ, i, j) + [(i, j)];
    assert PairsBelow(occ, i + 1) == PairsBelow(occ, i) + RowPairs(occ, i, |occ|);
    PrefixAt(PairsBelow(occ, i), RowPairs(occ, i, j), (i, j), RowPairs(occ, i, j + 1), RowPairs(occ, i, |occ|),
             PairsBelow(occ, i + 1), EmptyPairs(occ));
  }

  /** x, after the rows `below` and the entries `before` of its own row, sits at their joint length. */
  lemma PrefixAt<T>(below: seq<T>, before: seq<T>, x: T, upto: seq<T>, row: seq<T>, next: seq<T>, all: seq<T>)
    requires upto == before + [x] && IsPrefix(upto, row) && next == below + row && IsPrefix(next, all)
    ensures |below| + |before| < |all| && all[|below| + |before|] == x
  {
    assert row[|before|] == upto[|before|] == x;
    assert next[|below| + |before|] == x;
  }

  // ------------------------------------------------------ move counts ---

  /** A move: a stone on cell a and, on a two-stone turn, one on cell b > a; b is 0 otherwise. */
  datatype Move = MoveOf(a: nat, b: nat)

  /**
   * `MoveList::set` as written, on a board with e empty cells: C(e, 2)
   * moves on a two-stone turn, e on the opening turn, and a count of 1
   * turns the turn into a single-stone one after asserting e == 1.
   * Nothing stands for a failed assertion: `bin_coeff`'s n >= k when
   * fewer than two cells are empty on a two-stone turn, or `empty == 1`.
   * The result is the count and whether the turn places two stones.
   */
  function SetAsWritten(two: bool, e: nat): Option<(nat, bool)>
  {
    if two && e < 2 then Nothing
    else
      var count := if two then Choose(e, 2) else e;
      if count == 1 && e != 1 then Nothing
      else Some((count, if count == 1 then false else two))
  }

  /**
   * `set` counting the moves `fill_move` can make: pairs while a
   * two-stone turn has two empty cells, single cells otherwise.
   */
  function SetCount(two: bool, e: nat): (nat, bool)
  {
    if two && e >= 2 then (Choose(e, 2), true) else (e, false)
  }

  lemma {:induction false} ChooseTwoGrows(e: nat)
    requires e >= 3
    ensures Choose(e, 2) >= e
  {
    PairsOfOneMore(e - 1);
    if e > 3 {
      ChooseTwoGrows(e - 1);
    } else {
      PairsOfOneMore(1);
      PairsOfOneMore(0);
      ChooseAbove(0, 2);
    }
  }

  /** Away from the last two cells of a two-stone turn, `set` as written and the count agree. */
  lemma SetAsWrittenAgrees(two: bool, e: nat)
    requires !two || e > 2
    ensures SetAsWritten(two, e) == Some(SetCount(two, e))
  {
    if two {
      ChooseTwoGrows(e);
    }
  }

  /**
   * With two empty cells on a two-stone turn there is one move, filling
   * both, and `set` as written stops on `assert(empty == 1)`.
   */
  lemma SetAsWrittenLastPair(occ: seq<bool>)
    requires |EmptyCells(occ)| == 2
    ensures |EmptyPairs(occ)| == 1 && SetCount(true, 2) == (1, true)
    ensures SetAsWritten(true, |EmptyCells(occ)|) == Nothing
  {
    EmptyPairsCount(occ);
    PairsOfOneMore(1);
    PairsOfOneMore(0);
    ChooseAbove(0, 2);
  }

  /** How many moves `fill_move` can make: pairs on a two-stone turn, single cells otherwise. */
  function Listed(occ: seq<bool>, two: bool): nat
  {
    if two then |EmptyPairs(occ)| else |EmptyCells(occ)|
  }

  /** The count `set` leaves is the number of moves `fill_move` can make. */
  lemma SetCountListing(occ: seq<bool>, two: bool)
    ensures var (count, two') := SetCount(two, |EmptyCells(occ)|);
      count == Listed(occ, two')
  {
    EmptyPairsCount(occ);
  }

  /** `MoveList`: the occupied cells, the number of moves and the move last filled in. */
  class MoveList {
    const size: nat
    var occupied: seq<bool>
    var count: nat
    var two: bool
    var m: Move

    ghost predicate Valid()
      reads this
    {
      |occupied| == Area(size)
    }

    /** `MoveList()`, that is `clear()`. */
    constructor (size: nat)
      ensures this.size == size && Valid()
      ensures occupied == seq(Area(size), _ => false) && count == 0 && !two && m == MoveOf(0, 0)
    {
      this.size := size;
      occupied := seq(Area(size), _ => false);
      count, two, m := 0, false, MoveOf(0, 0);
    }

    method Clear()
      modifies this
      ensures Valid()
      ensures occupied == seq(Area(size), _ => false) && count == 0 && !two && m == MoveOf(0, 0)
    {
      occupied := seq(Area(size), _ => false);
      count, two, m := 0, false, MoveOf(0, 0);
    }

    /** `bin_coeff(n, k)`, which asserts n >= k: C(n, k), by exact divisions. */
    method BinCoeff(n: nat, k: nat) returns (r: nat)
      requires n >= k
      ensures r == Choose(n, k)
    {
      r := 1;
      var rest := n;
      var d := 1;
      while d <= k
        invariant 1 <= d <= k + 1 && rest == n - (d - 1)
        invariant r == Choose(n, d - 1)
      {
        BinStep(n, d);
        r := r * rest;
        rest := rest - 1;
        r := r / d;
        d := d + 1;
      }
    }

    /**
     * `set(s)`: the occupied cells of s and the number of moves on them,
     * C(e, 2) pairs while a two-stone turn has two empty cells and the e
     * single cells otherwise.
     */
    method Set(s: State)
      requires s.Valid() && s.size == size
      modifies this
      ensures Valid() && occupied == Union(s.black, s.white) && m == old(m)
      ensures (count, two) == SetCount(s.two, |EmptyCells(occupied)|)
    {
      occupied := Union(s.black, s.white);
      var empty := Area(size) - Popcount(occupied);
      EmptyCellsCount(occupied);
      two := s.two && empty >= 2;
      if two {
        count := BinCoeff(empty, 2);
      } else {
        count := empty;
      }
    }

    /** `fill_move(k)`: the k-th empty cell, or the k-th pair of empty cells in lexicographic order. */
    method FillMove(k: nat)
      requires Valid() && k < Listed(occupied, two)
      modifies this
      ensures occupied == old(occupied) && count == old(count) && two == old(two)
      ensures two ==> m == MoveOf(EmptyPairs(occupied)[k].0, EmptyPairs(occupied)[k].1)
      ensures !two ==> m == MoveOf(EmptyCells(occupied)[k], 0)
    {
      var n := 0;
      if !two {
        var i := 0;
        while i < |occupied|
          invariant unchanged(this)
          invariant i <= |occupied| && n == |EmptyBelow(occupied, i)| && n <= k
        {
          if !occupied[i] {
            if n == k {
              CellFound(occupied, i);
              m := MoveOf(i, 0);
              return;
            }
            n := n + 1;
          }
          i := i + 1;
        }
        assert false;
      }
      var i := 0;
      while i < |occupied|
        invariant unchanged(this)
        invariant i <= |occupied| && n == |PairsBelow(occupied, i)| && n <= k
      {
        var j := i + 1;
        while j < |occupied|
          invariant unchanged(this)
          invariant i < j <= |occupied| && n == |PairsBelow(occupied, i)| + |RowPairs(occupied, i, j)| && n <= k
        {
          if !(occupied[i] || occupied[j]) {
            if n == k {
              PairFound(occupied, i, j);
              m := MoveOf(i, j);
              return;
            }
            n := n + 1;
          }
          j := j + 1;
        }
        i := i + 1;
      }
      assert false;
    }

    /** `operator[](k)`: fills in the k-th move and hands it back. */
    method At(k: nat) returns (r: Move)
      requires Valid() && k < Listed(occupied, two)
      modifies this
      ensures occupied == old(occupied) && count == old(count) && two == old(two) && r == m
      ensures two ==> r == MoveOf(EmptyPairs(occupied)[k].0, EmptyPairs(occupied)[k].1)
      ensures !two ==> r == MoveOf(EmptyCells(occupied)[k], 0)
    {
      FillMove(k);
      r := m;
    }
  }

  // ------------------------------------------------------------ lines ---

  /** `color(i)`: Black where the black bit is set, else White where the white bit is, else None. */
  function CellColor(black: seq<bool>, white: seq<bool>, i: nat): Color
  {
    if i < |black| && black[i] then Black else if i < |white| && white[i] then White else None
  }

  /** The board as a column-major grid of colours: column x of row y is cell x + y*SIZE. */
  function Grid(n: nat, black: seq<bool>, white: seq<bool>): (g: seq<seq<Color>>)
    ensures C4.Shaped(g, n, n)
    ensures forall x, y :: 0 <= x < n && 0 <= y < n ==> g[x][y] == CellColor(black, white, IndexOf(n, x, y))
  {
    seq(n, x requires 0 <= x < n => seq(n, y requires 0 <= y < n => CellColor(black, white, IndexOf(n, x, y))))
  }

  /**
   * `valid(d, i)`: false for a cell off the board; otherwise the test
   * `connect4` makes, on the column and row of cell i.
   */
  predicate ValidDir(n: nat, d: C4.Direction, i: nat)
  {
    n > 0 && i < Area(n) && C4.CanStep(n, n, d, X(n, i), Y(n, i))
  }

  /** `move_dir(d, i)`: the neighbour of cell i in direction d is the neighbour on the grid. */
  function MoveDir(n: nat, d: C4.Direction, i: nat): (j: nat)
    requires ValidDir(n, d, i)
    ensures X(n, i) < n && Y(n, i) < n && j < Area(n)
    ensures (X(n, j), Y(n, j)) == C4.Step(n, n, d, X(n, i), Y(n, i))
  {
    CellOfIndex(n, i);
    var p := C4.Step(n, n, d, X(n, i), Y(n, i));
    CellInBoard(n, p.0, p.1);
    XYOfIndex(n, p.0, p.1);
    IndexOf(n, p.0, p.1)
  }

  /** How far direction d can still go from cell i: the termination measure of `scan`. */
  function RoomAt(n: nat, d: C4.Direction, i: nat): nat
    requires i < Area(n)
  {
    CellOfIndex(n, i);
    C4.Room(n, n, d, X(n, i), Y(n, i))
  }

  /** `scan(c, d, i)`: the run of c from cell i in direction d. */
  function Scan(n: nat, black: seq<bool>, white: seq<bool>, c: Color, d: C4.Direction, i: nat): nat
    requires i < Area(n)
    decreases RoomAt(n, d, i)
  {
    if CellColor(black, white, i) != c then 0
    else if ValidDir(n, d, i) then 1 + Scan(n, black, white, c, d, MoveDir(n, d, i))
    else 1
  }

  /** Scanning the cell numbers is scanning the grid from the cell's column and row. */
  lemma {:induction false} ScanIsGridScan(n: nat, black: seq<bool>, white: seq<bool>, c: Color, d: C4.Direction, i: nat)
    requires i < Area(n)
    ensures X(n, i) < n && Y(n, i) < n
    ensures Scan(n, black, white, c, d, i) == C4.Scan(Grid(n, black, white), n, n, c, d, X(n, i), Y(n, i))
    decreases RoomAt(n, d, i)
  {
    CellOfIndex(n, i);
    IndexOfXY(n, i);
    var g, x, y := Grid(n, black, white), X(n, i), Y(n, i);
    assert g[x][y] == CellColor(black, white, i);
    if CellColor(black, white, i) == c && ValidDir(n, d, i) {
      var j := MoveDir(n, d, i);
      ScanIsGridScan(n, black, white, c, d, j);
      GridScanStep(g, n, c, d, x, y);
      assert Scan(n, black, white, c, d, i) == 1 + Scan(n, black, white, c, d, j);
    } else {
      GridScanStop(g, n, c, d, x, y);
    }
  }

  /** A scan over a cell of another colour, or with no room to go on, is 0 or 1. */
  lemma GridScanStop(g: seq<seq<Color>>, n: nat, c: Color, d: C4.Direction, x: nat, y: nat)
    requires C4.Shaped(g, n, n) && x < n && y < n && !(g[x][y] == c && C4.CanStep(n, n, d, x, y))
    ensures C4.Scan(g, n, n, c, d, x, y) == if g[x][y] == c then 1 else 0
  {
  }

  /** A scan over a cell of its colour with room to go on is one more than the scan from the next cell. */
  lemma GridScanStep(g: seq<seq<Color>>, n: nat, c: Color, d: C4.Direction, x: nat, y: nat)
    requires C4.Shaped(g, n, n) && x < n && y < n && g[x][y] == c && C4.CanStep(n, n, d, x, y)
    ensures var p := C4.Step(n, n, d, x, y); C4.Scan(g, n, n, c, d, x, y) == 1 + C4.Scan(g, n, n, c, d, p.0, p.1)
  {
  }

  /** `line_length(c, d, i)`: both scans through cell i, the cell itself counted once. */
  function LineLength(n: nat, black: seq<bool>, white: seq<bool>, c: Color, d: C4.Direction, i: nat): nat
    requires i < Area(n)
  {
    var count := Scan(n, black, white, c, d, i) + Scan(n, black, white, c, C4.Reverse(d), i);
    if count > 0 then count - 1 else 0
  }

  /** `found6(i)`: a line of six or more of the colour of cell i, along one of the four axes. */
  predicate Found6(n: nat, black: seq<bool>, white: seq<bool>, i: nat)
    requires i < Area(n)
  {
    var c := CellColor(black, white, i);
    LineLength(n, black, white, c, C4.N, i) >= 6 || LineLength(n, black, white, c, C4.E, i) >= 6 ||
    LineLength(n, black, white, c, C4.NW, i) >= 6 || LineLength(n, black, white, c, C4.NE, i) >= 6
  }

  /** The line through cell i is the line through its column and row. */
  lemma LineLengthIsGrid(n: nat, black: seq<bool>, white: seq<bool>, c: Color, d: C4.Direction, i: nat)
    requires i < Area(n)
    ensures X(n, i) < n && Y(n, i) < n
    ensures LineLength(n, black, white, c, d, i) == C4.LineLength(Grid(n, black, white), n, n, c, d, X(n, i), Y(n, i))
  {
    ScanIsGridScan(n, black, white, c, d, i);
    ScanIsGridScan(n, black, white, c, C4.Reverse(d), i);
  }

  /** `found6(i)` holds exactly when six in a row of the colour of cell i pass through it. */
  lemma Found6IsSixInARow(n: nat, black: seq<bool>, white: seq<bool>, i: nat)
    requires i < Area(n)
    ensures X(n, i) < n && Y(n, i) < n
    ensures Found6(n, black, white, i) <==> C4.RunThrough(Grid(n, black, white), n, n, X(n, i), Y(n, i), 6)
  {
    var g, c := Grid(n, black, white), CellColor(black, white, i);
    CellOfIndex(n, i);
    IndexOfXY(n, i);
    assert g[X(n, i)][Y(n, i)] == c;
    LineLengthIsGrid(n, black, white, c, C4.N, i);
    LineLengthIsGrid(n, black, white, c, C4.E, i);
    LineLengthIsGrid(n, black, white, c, C4.NW, i);
    LineLengthIsGrid(n, black, white, c, C4.NE, i);
    C4.ConnectsIff(g, n, n, X(n, i), Y(n, i), 6);
  }

  // ------------------------------------------------------------ state ---

  /** s with the stones of move m set: cell a, and cell b on a two-stone turn. */
  function Stones(s: seq<bool>, m: Move, two: bool): (r: seq<bool>)
    requires m.a < |s| && (two ==> m.b < |s|)
    ensures |r| == |s| && r[m.a] && (two ==> r[m.b])
    ensures forall i :: 0 <= i < |s| && i != m.a && (!two || i != m.b) ==> r[i] == s[i]
  {
    if two then s[m.a := true][m.b := true] else s[m.a := true]
  }

  /** The cells a sweep from `wrap` has passed before reaching i, once round the end of the board or not. */
  predicate Swept(wrap: nat, i: nat, wrapped: bool, c: nat)
  {
    if wrapped then wrap <= c || c < i else wrap <= c < i
  }

  /** `(i + 1) % AREA`: the next cell, round to 0 after the last. */
  lemma NextCell(i: nat, area: nat)
    requires i < area
    ensures (i + 1) % area == if i + 1 == area then 0 else i + 1
  {
  }

  /** Cell c is one `random_walk` may stop on: empty, and not s when `skip` is set. */
  predicate Takes(black: seq<bool>, white: seq<bool>, skip: bool, s: nat, c: nat)
  {
    CellColor(black, white, c) == None && ((skip && c != s) || !skip)
  }

  /** `State<SIZE, MAX_MOVES>`: the two bitsets, the turn kind and the turn bookkeeping. */
  class State {
    const size: nat
    var two: bool
    var black: seq<bool>
    var white: seq<bool>
    var winner: Color
    var justPlayed: Color
    var gameOver: bool

    /** A SIZE by SIZE board whose cell numbers fit the 9-bit fields of a move. */
    ghost predicate Valid()
      reads this
    {
      1 <= size && Area(size) <= 512 && |black| == Area(size) && |white| == Area(size) && IsPlayer(justPlayed)
    }

    /** `State()`, that is `clear()`: an empty board, Black to open with one stone. */
    constructor (size: nat)
      requires 1 <= size && Area(size) <= 512
      ensures this.size == size && Valid()
      ensures black == seq(Area(size), _ => false) && white == seq(Area(size), _ => false) && !two
      ensures winner == None && justPlayed == White && !gameOver
    {
      this.size := size;
      black, white := seq(Area(size), _ => false), seq(Area(size), _ => false);
      two := false;
      winner, justPlayed, gameOver := None, White, false;
    }

    function Current(): Color
      reads this
    {
      Other(justPlayed)
    }

    /** `result(c)`. */
    function Result(c: Color): (r: real)
      reads this
      ensures r == Turns.Outcome(winner, c)
    {
      Turns.Outcome(winner, c)
    }

    /** `occupied(i)`: either bit of cell i is set. */
    predicate Occupied(i: nat)
      reads this
      requires Valid() && i < Area(size)
    {
      black[i] || white[i]
    }

    /** `operator[](i)`, the network input of cell i: 1 for Black, -1 for White, 0 for an empty cell. */
    function Feature(i: nat): (r: real)
      reads this
      requires Valid() && i < Area(size)
      ensures r == 1.0 <==> CellColor(black, white, i) == Black
      ensures r == -1.0 <==> CellColor(black, white, i) == White
      ensures r == 0.0 <==> CellColor(black, white, i) == None
    {
      if black[i] then 1.0 else if white[i] then -1.0 else 0.0
    }

    /** `place(c, i)`: sets cell i in c's bitset; other colours are fatal. */
    method Place(c: Color, i: nat)
      requires Valid() && IsPlayer(c) && i < Area(size)
      modifies this
      ensures Valid() && two == old(two)
      ensures black == (if c == Black then old(black)[i := true] else old(black))
      ensures white == (if c == White then old(white)[i := true] else old(white))
      ensures winner == old(winner) && justPlayed == old(justPlayed) && gameOver == old(gameOver)
    {
      if c == Black {
        black := black[i := true];
      } else {
        white := white[i := true];
      }
    }

    /**
     * `move(m)`: the side to move places a stone on a and, on a two-stone
     * turn, on b; only a two-stone turn can win, when either stone lies on
     * a line of six. Every later turn places two stones.
     */
    method Move(m: Move)
      requires Valid() && m.a < Area(size) && (two ==> m.b < Area(size))
      modifies this
      ensures Valid() && two && justPlayed == old(Current())
      ensures black == (if old(Current()) == Black then Stones(old(black), m, old(two)) else old(black))
      ensures white == (if old(Current()) == White then Stones(old(white), m, old(two)) else old(white))
      ensures if old(two) && (Found6(size, black, white, m.a) || Found6(size, black, white, m.b))
              then winner == old(Current()) && gameOver
              else winner == old(winner) && gameOver == old(gameOver)
    {
      var player := Current();
      Place(player, m.a);
      if two {
        Place(player, m.b);
        if Found6(size, black, white, m.a) || Found6(size, black, white, m.b) {
          winner := player;
          gameOver := true;
        }
      }
      two := true;
      justPlayed := player;
    }

    /**
     * `random_walk(i, skip, s)`: up to SIZE random probes for an empty
     * cell (other than s when `skip` is set), then a walk around the board
     * from the last probe; false only when there is no such cell.
     */
    method RandomWalk(skip: bool, s: nat) returns (found: bool, i: nat)
      requires Valid()
      ensures found ==> i < Area(size) && Takes(black, white, skip, s, i)
      ensures !found ==> forall c: nat :: c < Area(size) ==> !Takes(black, white, skip, s, c)
    {
      var area := Area(size);
      CellInBoard(size, 0, 0);
      i :| 0 <= i < area;
      var j := 0;
      while j < size
        invariant i < area
      {
        if Takes(black, white, skip, s, i) {
          return true, i;
        }
        i :| 0 <= i < area;
        j := j + 1;
      }
      found, i := Sweep(skip, s, i);
    }

    /** The second half of `random_walk`: every cell once, from `wrap` round to the cell before it. */
    method Sweep(skip: bool, s: nat, wrap: nat) returns (found: bool, i: nat)
      requires Valid() && wrap < Area(size)
      ensures found ==> i < Area(size) && Takes(black, white, skip, s, i)
      ensures !found ==> forall c: nat :: c < Area(size) ==> !Takes(black, white, skip, s, c)
    {
      var area := Area(size);
      i := wrap;
      ghost var wrapped := false;
      while true
        invariant i < area && (wrapped ==> i < wrap) && (!wrapped ==> wrap <= i)
        invariant forall c: nat :: c < area && Swept(wrap, i, wrapped, c) ==> !Takes(black, white, skip, s, c)
        decreases if wrapped then wrap - i else area - i + wrap
      {
        if Takes(black, white, skip, s, i) {
          return true, i;
        }
        var next := (i + 1) % area;
        NextCell(i, area);
        ghost var wrapped' := wrapped || i + 1 == area;
        assert forall c: nat :: c < area && Swept(wrap, next, wrapped', c) ==> Swept(wrap, i, wrapped, c) || c == i;
        if next == wrap {
          assert forall c: nat :: c < area ==> Swept(wrap, next, wrapped', c);
          return false, next;
        }
        i, wrapped := next, wrapped';
      }
    }

    /**
     * `random_move`: two distinct empty cells a < b, found by random
     * walks; false only when the board has fewer than two empty cells.
     */
    method RandomMove() returns (found: bool, m: Move)
      requires Valid()
      ensures found ==> m.a < m.b < Area(size)
      ensures found ==> CellColor(black, white, m.a) == None && CellColor(black, white, m.b) == None
      ensures !found ==> forall a: nat, b: nat :: a < b < Area(size) ==>
                !(CellColor(black, white, a) == None && CellColor(black, white, b) == None)
    {
      var ok, i := RandomWalk(false, 0);
      if !ok {
        forall a: nat, b: nat | a < b < Area(size)
          ensures !(CellColor(black, white, a) == None && CellColor(black, white, b) == None)
        {
          assert !Takes(black, white, false, 0, a);
        }
        return false, MoveOf(0, 0);
      }
      var a := i;
      ok, i := RandomWalk(true, a);
      if !ok {
        forall a': nat, b': nat | a' < b' < Area(size)
          ensures !(CellColor(black, white, a') == None && CellColor(black, white, b') == None)
        {
          if a' != a {
            assert !Takes(black, white, true, a, a');
          } else {
            assert !Takes(black, white, true, a, b');
          }
        }
        return false, MoveOf(a, 0);
      }
      var b := i;
      if a > b {
        a, b := b, a;
      }
      return true, MoveOf(a, b);
    }

    /**
     * `moves(ml)`: nothing once the game is over; otherwise the move list
     * is set from the board, and an empty one ends the game.
     */
    method Moves(ml: MoveList)
      requires Valid() && ml.size == size
      modifies this, ml
      ensures Valid() && black == old(black) && white == old(white) && two == old(two)
      ensures winner == old(winner) && justPlayed == old(justPlayed)
      ensures old(gameOver) ==> gameOver && unchanged(ml)
      ensures !old(gameOver) ==> ml.Valid() && ml.occupied == Union(black, white)
      ensures !old(gameOver) ==> (ml.count, ml.two) == SetCount(two, |EmptyCells(ml.occupied)|)
      ensures !old(gameOver) ==> gameOver == (ml.count == 0)
    {
      if gameOver {
        return;
      }
      ml.Set(this);
      if ml.count == 0 {
        gameOver := true;
      }
    }

    /** `index_to_moves(k)`: the k-th pair i < j of cells; indices past the last pair are fatal. */
    method IndexToMoves(k: nat) returns (i: nat, j: nat)
      requires k < Choose(Area(size), 2)
      ensures i < j < Area(size) && PairIndex(Area(size), i, j) == k && (i, j) == PairOf(Area(size), k)
    {
      var area := Area(size);
      var n := 0;
      i := 0;
      while i < area
        invariant i <= area && n == RowStart(area, i) && n <= k
      {
        j := i + 1;
        while j < area
          invariant i < j <= area && n == RowStart(area, i) + (j - i - 1) && n <= k
        {
          if n == k {
            PairOfIndex(area, i, j);
            return;
          }
          n := n + 1;
          j := j + 1;
        }
        i := i + 1;
      }
      RowStartTotal(area, area);
      assert false;
    }

    /** `get_index(m)`: the position of the pair m.a < m.b in the pair order; other moves are fatal. */
    method GetIndex(m: Move) returns (n: nat)
      requires m.a < m.b < Area(size)
      ensures n == PairIndex(Area(size), m.a, m.b) && n < Choose(Area(size), 2)
    {
      var area := Area(size);
      PairIndexBound(area, m.a, m.b);
      n := 0;
      var i := 0;
      while i < area
        invariant i <= m.a && n == RowStart(area, i)
      {
        var j := i + 1;
        while j < area
          invariant i < j <= area && n == RowStart(area, i) + (j - i - 1)
          invariant i == m.a ==> j <= m.b
        {
          if i == m.a && j == m.b {
            return;
          }
          n := n + 1;
          j := j + 1;
        }
        i := i + 1;
      }
    }

    /** `valid_index(k)`: both cells of the k-th pair are empty, so the pair is a listed move. */
    method ValidIndex(k: nat) returns (ok: bool)
      requires Valid() && k < Choose(Area(size), 2)
      ensures var p := PairOf(Area(size), k); ok <==> !Occupied(p.0) && !Occupied(p.1)
      ensures ok <==> PairOf(Area(size), k) in EmptyPairs(Union(black, white))
    {
      var i, j := IndexToMoves(k);
      ok := !Occupied(i) && !Occupied(j);
      EmptyListingsExact(Union(black, white));
    }

    /** `set_index(m, k)`: the k-th pair as a move. */
    method SetIndex(k: nat) returns (m: Move)
      requires k < Choose(Area(size), 2)
      ensures m.a < m.b < Area(size) && (m.a, m.b) == PairOf(Area(size), k)
    {
      var i, j := IndexToMoves(k);
      m := MoveOf(i, j);
    }
  }
}
