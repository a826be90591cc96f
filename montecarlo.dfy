// Flat Monte-Carlo play (engine/montecarlo.h): per-move counters, random
// playouts from the position to decide, and the final pick of the move whose
// first-move counter is highest.
module MonteCarlo {
  import opened Common
  import opened State
  import opened GameContract
  import Uct

  /** The sum of a sequence of counts. */
  function Total(c: seq<nat>): nat
  {
    if |c| == 0 then 0 else Total(c[..|c| - 1]) + c[|c| - 1]
  }

  /** `n` zero counts. */
  function Zeros(n: nat): (r: seq<nat>)
    ensures |r| == n && forall i :: 0 <= i < n ==> r[i] == 0
  {
    seq(n, _ => 0)
  }

  /** Counts `c` with one more at `i`. */
  function Bump(c: seq<nat>, i: nat): (r: seq<nat>)
    requires i < |c|
    ensures |r| == |c| && r[i] == c[i] + 1
    ensures forall j :: 0 <= j < |c| && j != i ==> r[j] == c[j]
  {
    c[i := c[i] + 1]
  }

  /** The elementwise sum of two count vectors of the same length. */
  function Plus(a: seq<nat>, b: seq<nat>): (r: seq<nat>)
    requires |a| == |b|
    ensures |r| == |a| && forall i :: 0 <= i < |a| ==> r[i] == a[i] + b[i]
  {
    seq(|a|, i requires 0 <= i < |a| => a[i] + b[i])
  }

  lemma {:induction false} TotalZeros(n: nat)
    ensures Total(Zeros(n)) == 0
  {
    if n > 0 {
      assert Zeros(n)[..n - 1] == Zeros(n - 1);
      TotalZeros(n - 1);
    }
  }

  /** One more at any index adds one to the total. */
  lemma {:induction false} TotalBump(c: seq<nat>, i: nat)
    requires i < |c|
    ensures Total(Bump(c, i)) == Total(c) + 1
  {
    var n := |c| - 1;
    if i == n {
      assert Bump(c, i)[..n] == c[..n];
    } else {
      assert Bump(c, i)[..n] == Bump(c[..n], i);
      TotalBump(c[..n], i);
    }
  }

  /** Adding counts elementwise adds their totals. */
  lemma {:induction false} TotalPlus(a: seq<nat>, b: seq<nat>)
    requires |a| == |b|
    ensures Total(Plus(a, b)) == Total(a) + Total(b)
  {
    if |a| > 0 {
      var n := |a| - 1;
      assert Plus(a, b)[..n] == Plus(a[..n], b[..n]);
      TotalPlus(a[..n], b[..n]);
    }
  }

  /**
   * The count vector a playout's moves leave in a fresh counter: one per
   * move, at the move's index.
   */
  function Tally<M(!new)>(index: M -> nat, size: nat, moved: seq<M>): (r: seq<nat>)
    requires forall m :: index(m) < size
    ensures |r| == size
  {
    if |moved| == 0 then Zeros(size)
    else Bump(Tally(index, size, moved[..|moved| - 1]), index(moved[|moved| - 1]))
  }

  /** A tally counts every move once. */
  lemma {:induction false} TallyTotal<M(!new)>(index: M -> nat, size: nat, moved: seq<M>)
    requires forall m :: index(m) < size
    ensures Total(Tally(index, size, moved)) == |moved|
  {
    if |moved| == 0 {
      TotalZeros(size);
    } else {
      var n := |moved| - 1;
      TallyTotal(index, size, moved[..n]);
      TotalBump(Tally(index, size, moved[..n]), index(moved[n]));
    }
  }

  /**
   * The largest count at an index the position accepts, or 0 when there is
   * none: the first scan of `best`, which only moves on a strictly larger
   * count.
   */
  function MaxValid(vals: seq<nat>, valid: nat -> bool): (r: nat)
    ensures forall i :: 0 <= i < |vals| && valid(i) ==> vals[i] <= r
    ensures r > 0 ==> exists i :: 0 <= i < |vals| && valid(i) && vals[i] == r
  {
    if |vals| == 0 then 0
    else
      var n := |vals| - 1;
      var front := MaxValid(vals[..n], valid);
      assert forall i :: 0 <= i < n ==> vals[..n][i] == vals[i];
      if vals[n] > front && valid(n) then vals[n] else front
  }

  /** The indices, in order, whose count equals `best`: the `top` list of `best`. */
  function Tops(vals: seq<nat>, best: nat): (r: seq<nat>)
    ensures forall t :: 0 <= t < |r| ==> r[t] < |vals| && vals[r[t]] == best
    ensures forall i :: 0 <= i < |vals| && vals[i] == best ==> i in r
  {
    if |vals| == 0 then []
    else
      var n := |vals| - 1;
      assert forall i :: 0 <= i < n ==> vals[..n][i] == vals[i];
      Tops(vals[..n], best) + (if vals[n] == best then [n] else [])
  }

  /**
   * The draw among the top counts is not restricted to valid indices: with
   * counts [2, 2] and only index 0 valid, index 1 is among the candidates.
   */
  lemma TopsMayBeInvalid()
    ensures var valid := (i: nat) => i == 0;
            MaxValid([2, 2], valid) == 2 && 1 in Tops([2, 2], 2) && !valid(1)
  {
    var v: seq<nat> := [2, 2];
    assert v[..1] == [2];
    assert [2][..0] == [];
  }

  /** `k` copies of `x` added up. */
  function Repeat(k: nat, x: real): real
  {
    if k == 0 then 0.0 else Repeat(k - 1, x) + x
  }

  lemma {:induction false} RepeatIsTimes(k: nat, x: real)
    ensures Repeat(k, x) == k as real * x
  {
    if k > 0 {
      RepeatIsTimes(k - 1, x);
    }
  }

  /**
   * The moves `moved` were played one after another through the positions
   * `trace`, each a legal move of a position not yet over.
   */
  ghost predicate Path<S, M>(g: Game<S, M>, moved: seq<M>, trace: seq<S>)
  {
    |trace| == |moved| + 1 &&
    forall t :: 0 <= t < |moved| ==>
      !g.over(trace[t]) && moved[t] in g.moves(trace[t]) && trace[t + 1] == g.play(trace[t], moved[t])
  }

  lemma {:induction false} PathExtend<S, M>(g: Game<S, M>, moved: seq<M>, trace: seq<S>, r: M)
    requires Path(g, moved, trace)
    requires !g.over(trace[|moved|]) && r in g.moves(trace[|moved|])
    ensures Path(g, moved + [r], trace + [g.play(trace[|moved|], r)])
  {
    var moved', trace' := moved + [r], trace + [g.play(trace[|moved|], r)];
    forall t | 0 <= t < |moved'|
      ensures !g.over(trace'[t]) && moved'[t] in g.moves(trace'[t]) && trace'[t + 1] == g.play(trace'[t], moved'[t])
    {
      if t < |moved| {
        assert moved'[t] == moved[t] && trace'[t] == trace[t] && trace'[t + 1] == trace[t + 1];
      }
    }
  }

  /**
   * `MCMoveCounter`: one count per move index and their sum. Every method
   * keeps `sum` equal to the total of the counts.
   */
  class Counter {
    const size: nat          // MAX_MOVES
    const count: array<nat>
    var sum: nat

    ghost predicate Valid()
      reads this, count
    {
      count.Length == size && sum == Total(count[..])
    }

    constructor (size: nat)
      ensures Valid() && fresh(count)
      ensures this.size == size && count[..] == Zeros(size) && sum == 0
    {
      this.size := size;
      count := new nat[size](_ => 0);
      sum := 0;
      new;
      assert count[..] == Zeros(size);
      TotalZeros(size);
    }

    /** `reset`: every count and the sum become 0. */
    method Reset()
      requires count.Length == size
      modifies this, count
      ensures Valid() && count[..] == Zeros(size) && sum == 0
    {
      for i := 0 to size
        invariant forall j :: 0 <= j < i ==> count[j] == 0
      {
        count[i] := 0;
      }
      sum := 0;
      assert count[..] == Zeros(size);
      TotalZeros(size);
    }

    /** `add`: one more at the move's index, and one more in the sum. */
    method Add(i: nat)
      requires Valid() && i < size
      modifies this, count
      ensures Valid() && count[..] == Bump(old(count[..]), i) && sum == old(sum) + 1
    {
      TotalBump(count[..], i);
      count[i] := count[i] + 1;
      sum := sum + 1;
    }

    /** `push`: the other counter's counts added elementwise, and its sum. */
    method Push(other: Counter)
      requires Valid() && other.Valid() && other.size == size && other.count != count
      modifies this, count
      ensures Valid() && count[..] == Plus(old(count[..]), other.count[..])
      ensures sum == old(sum) + other.sum
    {
      ghost var theirs := other.count[..];
      assert other != this;
      for i := 0 to size
        invariant forall j :: 0 <= j < i ==> count[j] == old(count[j]) + other.count[j]
        invariant forall j :: i <= j < size ==> count[j] == old(count[j])
        invariant sum == old(sum)
      {
        count[i] := count[i] + other.count[i];
      }
      sum := sum + other.sum;
      assert other.count[..] == theirs;
      assert count[..] == Plus(old(count[..]), other.count[..]);
      TotalPlus(old(count[..]), other.count[..]);
    }

    /**
     * `best`: found exactly when some index the position accepts has a
     * positive count; then the result is drawn among all indices whose count
     * equals the largest accepted count, accepted or not.
     */
    method Best(valid: nat -> bool) returns (found: bool, result: nat)
      requires count.Length == size
      ensures found <==> exists i :: 0 <= i < size && valid(i) && count[i] > 0
      ensures found ==> result in Tops(count[..], MaxValid(count[..], valid))
      ensures found ==> result < size && count[result] == MaxValid(count[..], valid)
    {
      var best := 0;
      result := 0;
      found := false;
      for i := 0 to size
        invariant best == MaxValid(count[..i], valid)
        invariant found <==> best > 0
      {
        assert count[..i + 1][..i] == count[..i];
        if count[i] > best && valid(i) {
          best := count[i];
          result := i;
          found := true;
        }
      }
      assert count[..size] == count[..];
      if found {
        var top: seq<nat> := [];
        for i := 0 to size
          invariant top == Tops(count[..i], best)
        {
          assert count[..i + 1][..i] == count[..i];
          if count[i] == best {
            top := top + [i];
          }
        }
        assert top == Tops(count[..], best);
        var w :| 0 <= w < size && valid(w) && count[w] == best;
        assert w in top;
        var r :| 0 <= r < |top|;
        result := top[r];
      }
    }
  }

  /**
   * `MonteCarlo<S, MAX_MOVES, N>` over a game `g`. A move's counter index is
   * `index` (`get_index`), an index turns back into a move by `fromIndex`
   * (`set_index`), and `validIndex` is the position's `valid_index`.
   */
  class Player<S, M(!new)> {
    const g: Game<S, M>
    const index: M -> nat
    const fromIndex: nat -> M
    const validIndex: (S, nat) -> bool
    const size: nat          // MAX_MOVES
    const playouts: nat      // N
    const wins: Counter
    const winFirst: Counter
    const result: array<real>

    ghost predicate Valid()
      reads wins, winFirst, wins.count, winFirst.count
    {
      0 < size && (forall m :: index(m) < size) &&
      wins.Valid() && winFirst.Valid() && wins.size == size && winFirst.size == size &&
      result.Length == size && wins != winFirst && wins.count != winFirst.count
    }

    constructor (game: Game<S, M>, index: M -> nat, fromIndex: nat -> M, validIndex: (S, nat) -> bool,
                 size: nat, playouts: nat)
      requires 0 < size && forall m :: index(m) < size
      ensures Valid() && fresh(wins) && fresh(winFirst) && fresh(wins.count) && fresh(winFirst.count)
      ensures fresh(result)
      ensures g == game && this.size == size && this.playouts == playouts
      ensures this.index == index && this.fromIndex == fromIndex && this.validIndex == validIndex
    {
      g := game;
      this.index := index;
      this.fromIndex := fromIndex;
      this.validIndex := validIndex;
      this.size := size;
      this.playouts := playouts;
      wins := new Counter(size);
      winFirst := new Counter(size);
      result := new real[size];
    }

    /** The `result[]` slot a playout credits: its first move's, or 0 when it made none. */
    function Slot(moved: seq<M>): (r: nat)
      requires forall m :: index(m) < size
      ensures |moved| == 0 ==> r == 0
      ensures |moved| > 0 ==> r == index(moved[0])
    {
      if |moved| == 0 then 0 else index(moved[0])
    }

    /**
     * The random walk of a playout: from `s`, the moves `moved` were played
     * through the positions `trace`, each legal and from a position not yet
     * over; it stopped at the last position, or at its `set_game_over` when
     * that had no move, and before the fuel ran out only for one of those
     * reasons.
     */
    ghost predicate Playout(s: S, fuel: nat, s': S, moved: seq<M>, trace: seq<S>)
    {
      Path(g, moved, trace) && trace[0] == s && |moved| <= fuel &&
      (s' == trace[|moved|] || (|g.moves(trace[|moved|])| == 0 && s' == g.setOver(trace[|moved|]))) &&
      (|moved| < fuel ==> g.over(s') || |g.moves(trace[|moved|])| == 0) &&
      (g.over(s) ==> s' == s && moved == [])
    }

    /**
     * The loop of `play`: the first move is counted in `winFirst` and its
     * index kept, and every move is counted in `tmp`.
     */
    method Walk(s: S, fuel: nat, tmp: Counter) returns (s': S, slot: nat, ghost moved: seq<M>, ghost trace: seq<S>)
      requires forall m :: index(m) < size
      requires winFirst.Valid() && winFirst.size == size && tmp.Valid() && tmp.size == size
      requires tmp.count[..] == Zeros(size) && tmp.count != winFirst.count
      modifies winFirst, winFirst.count, tmp, tmp.count
      ensures winFirst.Valid() && tmp.Valid()
      ensures Playout(s, fuel, s', moved, trace) && slot == Slot(moved)
      ensures winFirst.count[..] == if moved == [] then old(winFirst.count[..])
                                    else Bump(old(winFirst.count[..]), index(moved[0]))
      ensures tmp.count[..] == Tally(index, size, moved)
    {
      var first := true;
      slot := 0;
      s' := s;
      moved := [];
      trace := [s];
      var steps := 0;
      while !g.over(s') && steps < fuel
        invariant steps == |moved| && winFirst.Valid() && tmp.Valid()
        invariant Path(g, moved, trace) && trace[0] == s && trace[|moved|] == s' && |moved| <= fuel
        invariant first <==> moved == []
        invariant slot == Slot(moved)
        invariant winFirst.count[..] == if moved == [] then old(winFirst.count[..])
                                        else Bump(old(winFirst.count[..]), index(moved[0]))
        invariant tmp.count[..] == Tally(index, size, moved)
      {
        var (a, ml) := Generate(g, s');
        if |ml| == 0 {
          s' := a;
          break;
        }
        var i :| 0 <= i < |ml|;
        var r := ml[i];
        if first {
          winFirst.Add(index(r));
          slot := index(r);
          first := false;
        }
        tmp.Add(index(r));
        assert (moved + [r])[..|moved|] == moved;
        PathExtend(g, moved, trace, r);
        s' := g.play(s', r);
        moved := moved + [r];
        trace := trace + [s'];
        steps := steps + 1;
      }
    }

    /**
     * `play`: random moves from `s` until the game is over or no move is
     * found (at most `fuel` here, where the source has no bound). The first
     * move is counted in `winFirst`; every move is counted in a fresh tally
     * that joins `wins` when `c` won; `result` at the first move's index (0
     * when none was made) gains `c`'s result.
     */
    method Play(c: Color, s: S, fuel: nat) returns (s': S, ghost moved: seq<M>, ghost trace: seq<S>)
      requires Valid()
      modifies wins, wins.count, winFirst, winFirst.count, result
      ensures Valid() && Playout(s, fuel, s', moved, trace)
      ensures winFirst.count[..] == if moved == [] then old(winFirst.count[..])
                                    else Bump(old(winFirst.count[..]), index(moved[0]))
      ensures wins.count[..] == if g.winner(s') == c then Plus(old(wins.count[..]), Tally(index, size, moved))
                                else old(wins.count[..])
      ensures result[..] == old(result[..])[Slot(moved) := old(result[Slot(moved)]) + Outcome(g.winner(s'), c)]
    {
      var tmp := new Counter(size);
      var slot;
      s', slot, moved, trace := Walk(s, fuel, tmp);
      if g.winner(s') == c {
        wins.Push(tmp);
      }
      result[slot] := result[slot] + Outcome(g.winner(s'), c);
    }

    /**
     * A task: one copy of `orig`, played out `iter` times in turn. The copy
     * is not restored between playouts, so once the first playout has ended
     * the game, every later one makes no move and only adds the same result
     * to `result[0]`.
     */
    method Task(c: Color, orig: S, iter: nat, fuel: nat)
      returns (ghost firstEnd: S, ghost firstFirst: seq<nat>, ghost firstResult: seq<real>)
      requires Valid()
      modifies wins, wins.count, winFirst, winFirst.count, result
      ensures Valid()
      ensures forall j :: 0 <= j < size ==> result[j] >= old(result[j])
      ensures iter > 0 && g.over(firstEnd) ==>
                winFirst.count[..] == firstFirst && |firstResult| == size &&
                (forall j :: 1 <= j < size ==> result[j] == firstResult[j]) &&
                result[0] == firstResult[0] + (iter - 1) as real * Outcome(g.winner(firstEnd), c)
    {
      var s := orig;
      firstEnd := orig;
      firstFirst := winFirst.count[..];
      firstResult := result[..];
      for i := 0 to iter
        invariant Valid()
        invariant forall j :: 0 <= j < size ==> result[j] >= old(result[j])
        invariant i > 0 ==> |firstResult| == size
        invariant i > 0 && g.over(firstEnd) ==>
                    s == firstEnd && winFirst.count[..] == firstFirst &&
                    (forall j :: 1 <= j < size ==> result[j] == firstResult[j]) &&
                    result[0] == firstResult[0] + Repeat(i - 1, Outcome(g.winner(firstEnd), c))
      {
        ghost var moved, trace;
        ghost var before := result[..];
        s, moved, trace := Play(c, s, fuel);
        if i > 0 && g.over(firstEnd) {
          assert moved == [] && Slot(moved) == 0;
          assert result[..] == before[0 := before[0] + Outcome(g.winner(firstEnd), c)];
        }
        if i == 0 {
          firstEnd := s;
          firstFirst := winFirst.count[..];
          firstResult := result[..];
        }
      }
      if iter > 0 {
        RepeatIsTimes(iter - 1, Outcome(g.winner(firstEnd), c));
      }
    }

    /**
     * `next`: both counters are reset and the moves generated; with none the
     * state is only marked over. Otherwise `NUM_THREADS` tasks of `N /
     * NUM_THREADS` playouts run (in turn here), and the move of the index
     * `best` picks from `winFirst` is played when there is one.
     */
    method Next(c: Color, state: S, fuel: nat) returns (state': S, ghost found: bool, ghost best: nat)
      requires Valid()
      modifies wins, wins.count, winFirst, winFirst.count, result
      ensures Valid()
      ensures |g.moves(state)| == 0 ==> state' == g.setOver(state) && !found
      ensures found <==> |g.moves(state)| > 0 &&
                         exists i :: 0 <= i < size && validIndex(state, i) && winFirst.count[i] > 0
      ensures found ==> best < size && best in Tops(winFirst.count[..], MaxValid(winFirst.count[..], (i: nat) => validIndex(state, i)))
      ensures found ==> state' == g.play(state, fromIndex(best))
      ensures |g.moves(state)| > 0 && !found ==> state' == state
      ensures forall j :: 0 <= j < size ==> result[j] >= old(result[j])
    {
      wins.Reset();
      winFirst.Reset();
      var (a, ml) := Generate(g, state);
      state' := a;
      found, best := false, 0;
      if |ml| == 0 {
        return;
      }
      var iter := playouts / Uct.NumThreads;
      for t := 0 to Uct.NumThreads
        invariant Valid()
        invariant forall j :: 0 <= j < size ==> result[j] >= old(result[j])
      {
        ghost var e, f, r;
        e, f, r := Task(c, state', iter, fuel);
      }
      var found', best' := winFirst.Best((i: nat) => validIndex(state', i));
      found, best := found', best';
      if found' {
        state' := g.play(state', fromIndex(best'));
      }
    }
  }
}
