// Tic-tac-toe on a SIZE by SIZE board (games/ttt.h): cell i is column
// i mod SIZE of row i div SIZE, Black and White each hold a bit set of
// cells, and a colour wins with a full column, row or diagonal.
module TicTacToe {
  import opened Common
  import opened Text
  import opened SquareGrid

  // ----------------------------------------------------------- moves ---

  /** `MoveList<SIZE, MAX_MOVES>`: the cells added so far, at most `capacity`. */
  class MoveList {
    const capacity: nat
    var items: seq<nat>

    constructor (capacity: nat)
      ensures this.capacity == capacity && items == []
    {
      this.capacity := capacity;
      items := [];
    }

    method Clear()
      modifies this
      ensures items == []
    {
      items := [];
    }

    /** `add(i)`, which asserts that the list has room. */
    method Add(i: nat)
      requires |items| < capacity
      modifies this
      ensures items == old(items) + [i]
    {
      items := items + [i];
    }
  }

  // ----------------------------------------------------------- cells ---

  /** `color(i)`: Black when Black's bit is set, else White when White's is. */
  function CellOf(black: seq<bool>, white: seq<bool>, i: nat): Color
    requires i < |black| && i < |white|
  {
    if black[i] then Black else if white[i] then White else None
  }

  /** The board as one colour per cell. */
  function CellsOf(black: seq<bool>, white: seq<bool>): (r: seq<Color>)
    requires |black| == |white|
    ensures |r| == |black| && forall i :: 0 <= i < |r| ==> r[i] == CellOf(black, white, i)
  {
    seq(|black|, i requires 0 <= i < |black| => CellOf(black, white, i))
  }

  /** The cells of column x, top to bottom. */
  function Column(n: nat, x: nat): (r: seq<nat>)
    requires x < n
    ensures |r| == n && forall k :: 0 <= k < n ==> r[k] == IndexOf(n, x, k) < Area(n)
  {
    assert forall k :: 0 <= k < n ==> IndexOf(n, x, k) < Area(n) by {
      forall k | 0 <= k < n { CellInBoard(n, x, k); }
    }
    seq(n, k requires 0 <= k < n => IndexOf(n, x, k))
  }

  /** The cells of row y, left to right. */
  function Row(n: nat, y: nat): (r: seq<nat>)
    requires y < n
    ensures |r| == n && forall k :: 0 <= k < n ==> r[k] == IndexOf(n, k, y) < Area(n)
  {
    assert forall k :: 0 <= k < n ==> IndexOf(n, k, y) < Area(n) by {
      forall k | 0 <= k < n { CellInBoard(n, k, y); }
    }
    seq(n, k requires 0 <= k < n => IndexOf(n, k, y))
  }

  /** The main diagonal, from the top-left corner. */
  function Diagonal(n: nat): (r: seq<nat>)
    ensures |r| == n && forall k :: 0 <= k < n ==> r[k] == IndexOf(n, k, k) < Area(n)
  {
    assert forall k :: 0 <= k < n ==> IndexOf(n, k, k) < Area(n) by {
      forall k | 0 <= k < n { CellInBoard(n, k, k); }
    }
    seq(n, k requires 0 <= k < n => IndexOf(n, k, k))
  }

  /** The k-th cell of the anti-diagonal: column n - 1 - k of row k. */
  function AntiCell(n: nat, k: nat): (i: nat)
    requires k < n
    ensures i < Area(n)
  {
    CellInBoard(n, n - 1 - k, k);
    IndexOf(n, n - 1 - k, k)
  }

  /** The anti-diagonal, from the top-right corner. */
  function AntiDiagonal(n: nat): (r: seq<nat>)
    ensures |r| == n && forall k :: 0 <= k < n ==> r[k] == AntiCell(n, k)
  {
    seq(n, k requires 0 <= k < n => AntiCell(n, k))
  }

  /** Every cell of the line is on the board and holds c. */
  predicate Full(cells: seq<Color>, line: seq<nat>, c: Color)
  {
    forall k :: 0 <= k < |line| ==> line[k] < |cells| && cells[line[k]] == c
  }

  /** Player c holds a whole column, row or diagonal. */
  predicate Won(cells: seq<Color>, n: nat, c: Color)
  {
    IsPlayer(c) &&
    ((exists x :: 0 <= x < n && Full(cells, Column(n, x), c)) ||
     (exists y :: 0 <= y < n && Full(cells, Row(n, y), c)) ||
     Full(cells, Diagonal(n), c) || Full(cells, AntiDiagonal(n), c))
  }

  /** The first column from x on that one player fills, or None. */
  function FirstColumn(cells: seq<Color>, n: nat, x: nat): (r: Color)
    requires |cells| == Area(n) && x <= n
    ensures r != None ==> exists x' :: x <= x' < n && Full(cells, Column(n, x'), r)
    ensures r == None ==> forall x' :: x <= x' < n && IsPlayer(cells[Column(n, x')[0]]) ==>
                            !Full(cells, Column(n, x'), cells[Column(n, x')[0]])
    decreases n - x
  {
    if x == n then None
    else
      var c := cells[Column(n, x)[0]];
      if c != None && Full(cells, Column(n, x), c) then c
      else FirstColumn(cells, n, x + 1)
  }

  /** The first row from y on that one player fills, or None. */
  function FirstRow(cells: seq<Color>, n: nat, y: nat): (r: Color)
    requires |cells| == Area(n) && y <= n
    ensures r != None ==> exists y' :: y <= y' < n && Full(cells, Row(n, y'), r)
    ensures r == None ==> forall y' :: y <= y' < n && IsPlayer(cells[Row(n, y')[0]]) ==>
                            !Full(cells, Row(n, y'), cells[Row(n, y')[0]])
    decreases n - y
  {
    if y == n then None
    else
      var c := cells[Row(n, y)[0]];
      if c != None && Full(cells, Row(n, y), c) then c
      else FirstRow(cells, n, y + 1)
  }

  /**
   * `complete()` as written: the columns, then the rows, each skipped when
   * its first cell is empty; then the main diagonal, returned as soon as it
   * is uniform, even uniformly empty; then the anti-diagonal.
   */
  function CompletionAsWritten(cells: seq<Color>, n: nat): Color
    requires n >= 1 && |cells| == Area(n)
  {
    var col := FirstColumn(cells, n, 0);
    var row := FirstRow(cells, n, 0);
    if col != None then col
    else if row != None then row
    else if Full(cells, Diagonal(n), cells[Diagonal(n)[0]]) then cells[Diagonal(n)[0]]
    else if Full(cells, AntiDiagonal(n), cells[AntiDiagonal(n)[0]]) then cells[AntiDiagonal(n)[0]]
    else None
  }

  /** `complete()` with the main diagonal skipped, like the others, when its first cell is empty. */
  function Completion(cells: seq<Color>, n: nat): Color
    requires n >= 1 && |cells| == Area(n)
  {
    var col := FirstColumn(cells, n, 0);
    var row := FirstRow(cells, n, 0);
    if col != None then col
    else if row != None then row
    else if cells[Diagonal(n)[0]] != None && Full(cells, Diagonal(n), cells[Diagonal(n)[0]]) then cells[Diagonal(n)[0]]
    else if Full(cells, AntiDiagonal(n), cells[AntiDiagonal(n)[0]]) then cells[AntiDiagonal(n)[0]]
    else None
  }

  /** A full line's colour is its first cell's colour. */
  lemma FullFirst(cells: seq<Color>, line: seq<nat>, c: Color)
    requires |line| >= 1 && Full(cells, line, c)
    ensures cells[line[0]] == c
  {
  }

  /**
   * The corrected `complete()` names a winner exactly when some player holds
   * a whole line, and the winner it names holds one.
   */
  lemma CompletionIsWin(cells: seq<Color>, n: nat)
    requires n >= 1 && |cells| == Area(n)
    ensures Completion(cells, n) != None ==> Won(cells, n, Completion(cells, n))
    ensures Won(cells, n, Black) || Won(cells, n, White) ==> Completion(cells, n) != None
  {
    var r := Completion(cells, n);
    if r == None {
      forall c | IsPlayer(c)
        ensures !Won(cells, n, c)
      {
        forall x | 0 <= x < n
          ensures !Full(cells, Column(n, x), c)
        {
          if Full(cells, Column(n, x), c) {
            FullFirst(cells, Column(n, x), c);
          }
        }
        forall y | 0 <= y < n
          ensures !Full(cells, Row(n, y), c)
        {
          if Full(cells, Row(n, y), c) {
            FullFirst(cells, Row(n, y), c);
          }
        }
        if Full(cells, Diagonal(n), c) {
          FullFirst(cells, Diagonal(n), c);
        }
        if Full(cells, AntiDiagonal(n), c) {
          FullFirst(cells, AntiDiagonal(n), c);
        }
      }
    }
  }

  /**
   * On an odd board the two diagonals share the centre, so a uniformly empty
   * main diagonal rules out a full anti-diagonal and the two versions agree.
   */
  lemma CompletionAgreesOnOddBoards(cells: seq<Color>, n: nat)
    requires n >= 1 && |cells| == Area(n) && n % 2 == 1
    ensures CompletionAsWritten(cells, n) == Completion(cells, n)
  {
    var m := n / 2;
    assert Diagonal(n)[m] == AntiDiagonal(n)[m];
  }

  /** A 4 by 4 board whose only stones are Black's anti-diagonal. */
  function AntiDiagonalBoard(): (r: seq<Color>)
    ensures |r| == 16
  {
    [None, None, None, Black,
     None, None, Black, None,
     None, Black, None, None,
     Black, None, None, None]
  }

  /** The board's anti-diagonal is Black's and its main diagonal empty. */
  lemma AntiDiagonalBoardDiagonals()
    ensures Full(AntiDiagonalBoard(), AntiDiagonal(4), Black)
    ensures Full(AntiDiagonalBoard(), Diagonal(4), None)
  {
    var b := AntiDiagonalBoard();
    forall k | 0 <= k < 4
      ensures b[AntiDiagonal(4)[k]] == Black && b[Diagonal(4)[k]] == None
    {
      if k == 0 {} else if k == 1 {} else if k == 2 {} else {}
    }
  }

  /** No column of the board is one player's. */
  lemma AntiDiagonalBoardColumns()
    ensures FirstColumn(AntiDiagonalBoard(), 4, 0) == None
  {
    var b := AntiDiagonalBoard();
    assert Column(4, 3)[1] == IndexOf(4, 3, 1) == 7;
    assert FirstColumn(b, 4, 3) == None;
  }

  /** No row of the board is one player's. */
  lemma AntiDiagonalBoardRows()
    ensures FirstRow(AntiDiagonalBoard(), 4, 0) == None
  {
    var b := AntiDiagonalBoard();
    assert Row(4, 3)[1] == IndexOf(4, 1, 3) == 13;
    assert FirstRow(b, 4, 3) == None;
  }

  /**
   * On an even board the empty main diagonal is returned before the
   * anti-diagonal is looked at: Black has won, and `complete()` says nobody has.
   */
  lemma AntiDiagonalMissed()
    ensures Won(AntiDiagonalBoard(), 4, Black)
    ensures CompletionAsWritten(AntiDiagonalBoard(), 4) == None
    ensures Completion(AntiDiagonalBoard(), 4) == Black
  {
    AntiDiagonalBoardDiagonals();
    AntiDiagonalBoardColumns();
    AntiDiagonalBoardRows();
  }

  // ----------------------------------------------------------- score ---

  function Pow(x: int, e: nat): int
  {
    if e == 0 then 1 else x * Pow(x, e - 1)
  }

  /** The stones of colour c among the first k cells of a line. */
  function Tally(cells: seq<Color>, line: seq<nat>, c: Color, k: nat): (r: nat)
    requires k <= |line|
    ensures r <= k
  {
    if k == 0 then 0
    else Tally(cells, line, c, k - 1) + (if line[k - 1] < |cells| && cells[line[k - 1]] == c then 1 else 0)
  }

  /** One more cell of the line, the k-th, counted: the first k' = k + 1. */
  lemma TallyNext(cells: seq<Color>, line: seq<nat>, c: Color, k: nat, k': nat)
    requires k < |line| && k' == k + 1 && line[k] < |cells|
    ensures Tally(cells, line, c, k') == Tally(cells, line, c, k) + (if cells[line[k]] == c then 1 else 0)
  {
  }

  /** A line's weight for Black less its weight for White; k stones weigh 10^k - 1. */
  function Balance(cells: seq<Color>, line: seq<nat>): int
  {
    (Pow(10, Tally(cells, line, Black, |line|)) - 1) - (Pow(10, Tally(cells, line, White, |line|)) - 1)
  }

  lemma BalanceOf(cells: seq<Color>, line: seq<nat>, b: nat, w: nat)
    requires b == Tally(cells, line, Black, |line|) && w == Tally(cells, line, White, |line|)
    ensures Balance(cells, line) == (Pow(10, b) - 1) - (Pow(10, w) - 1)
  {
  }

  lemma AxisBalanceNext(cells: seq<Color>, n: nat, x: nat)
    requires x < n
    ensures AxisBalance(cells, n, x + 1) == AxisBalance(cells, n, x) + Balance(cells, Column(n, x)) + Balance(cells, Row(n, x))
  {
  }

  /** What the outer loop of `score` has summed after x columns and rows. */
  ghost predicate Weighed(cells: seq<Color>, n: nat, x: nat, balance: int, diagB: nat, diagW: nat)
    requires x <= n
  {
    balance == AxisBalance(cells, n, x) &&
    diagB == Tally(cells, Diagonal(n), Black, x) && diagW == Tally(cells, Diagonal(n), White, x)
  }

  /** Column, row and diagonal cell x added to what the first x gave: the first x' = x + 1. */
  lemma WeighedNext(cells: seq<Color>, n: nat, x: nat, x': nat, balance: int, diagB: nat, diagW: nat,
                    balance': int, diagB': nat, diagW': nat)
    requires x < n && x' == x + 1 && |cells| == Area(n) && Weighed(cells, n, x, balance, diagB, diagW)
    requires balance' == balance + Balance(cells, Column(n, x)) + Balance(cells, Row(n, x))
    requires IndexOf(n, x, x) < |cells|
    requires diagB' == diagB + (if cells[IndexOf(n, x, x)] == Black then 1 else 0)
    requires diagW' == diagW + (if cells[IndexOf(n, x, x)] == White then 1 else 0)
    ensures Weighed(cells, n, x', balance', diagB', diagW')
  {
    CellInBoard(n, x, x);
    TallyNext(cells, Diagonal(n), Black, x, x');
    TallyNext(cells, Diagonal(n), White, x, x');
  }

  /** The balance of the first x columns and rows. */
  function AxisBalance(cells: seq<Color>, n: nat, x: nat): int
    requires x <= n
  {
    if x == 0 then 0
    else AxisBalance(cells, n, x - 1) + Balance(cells, Column(n, x - 1)) + Balance(cells, Row(n, x - 1))
  }

  /**
   * `score`: the balance of every line, with 300 more for Black. The side
   * to move makes no difference, since both branches of the `maximise`
   * test add the same 300 in Black's favour.
   */
  function ScoreOf(cells: seq<Color>, n: nat): int
  {
    AxisBalance(cells, n, n) + Balance(cells, Diagonal(n)) + Balance(cells, AntiDiagonal(n)) + 300
  }

  /** The board with the two colours exchanged. */
  function Swapped(cells: seq<Color>): (r: seq<Color>)
    ensures |r| == |cells| && forall i :: 0 <= i < |r| ==> r[i] == Other(cells[i])
  {
    seq(|cells|, i requires 0 <= i < |cells| => Other(cells[i]))
  }

  lemma {:induction false} TallySwapped(cells: seq<Color>, line: seq<nat>, c: Color, k: nat)
    requires k <= |line|
    ensures Tally(Swapped(cells), line, Other(c), k) == Tally(cells, line, c, k)
  {
    if k > 0 {
      TallySwapped(cells, line, c, k - 1);
      if line[k - 1] < |cells| {
        OtherInvolution(c);
        OtherInvolution(cells[line[k - 1]]);
      }
    }
  }

  lemma BalanceSwapped(cells: seq<Color>, line: seq<nat>)
    ensures Balance(Swapped(cells), line) == -Balance(cells, line)
  {
    TallySwapped(cells, line, Black, |line|);
    TallySwapped(cells, line, White, |line|);
  }

  lemma {:induction false} AxisBalanceSwapped(cells: seq<Color>, n: nat, x: nat)
    requires x <= n
    ensures AxisBalance(Swapped(cells), n, x) == -AxisBalance(cells, n, x)
  {
    if x > 0 {
      AxisBalanceSwapped(cells, n, x - 1);
      BalanceSwapped(cells, Column(n, x - 1));
      BalanceSwapped(cells, Row(n, x - 1));
    }
  }

  /**
   * The evaluation is not zero-sum: a position and its colour-swapped
   * mirror score 600 together, Black's 300 counted twice.
   */
  lemma ScoreFavoursBlack(cells: seq<Color>, n: nat)
    ensures ScoreOf(cells, n) + ScoreOf(Swapped(cells), n) == 600
  {
    AxisBalanceSwapped(cells, n, n);
    BalanceSwapped(cells, Diagonal(n));
    BalanceSwapped(cells, AntiDiagonal(n));
  }

  // ------------------------------------------------------------ moves ---

  /** The empty cells among the first k, in increasing order. */
  function OpenCells(cells: seq<Color>, k: nat): (r: seq<nat>)
    requires k <= |cells|
    ensures |r| <= k && forall j :: 0 <= j < |r| ==> r[j] < k
  {
    if k == 0 then []
    else OpenCells(cells, k - 1) + (if cells[k - 1] == None then [k - 1] else [])
  }

  /** `moves` lists each empty cell, and only those, once, in increasing order. */
  lemma {:induction false} OpenCellsExact(cells: seq<Color>, k: nat)
    requires k <= |cells|
    ensures forall i :: i in OpenCells(cells, k) <==> 0 <= i < k && cells[i] == None
    ensures forall a, b :: 0 <= a < b < |OpenCells(cells, k)| ==> OpenCells(cells, k)[a] < OpenCells(cells, k)[b]
  {
    if k > 0 {
      OpenCellsExact(cells, k - 1);
    }
  }

  // ------------------------------------------------------------ state ---

  /** `State<SIZE>`: the two colours' bit sets and the turn bookkeeping. */
  class State {
    const size: nat
    var black: seq<bool>
    var white: seq<bool>
    var winner: Color
    var justPlayed: Color
    var gameOver: bool

    ghost predicate Valid()
      reads this
    {
      size >= 1 && |black| == Area(size) && |white| == Area(size) && IsPlayer(justPlayed)
    }

    /** The board, one colour per cell. */
    function Cells(): (r: seq<Color>)
      reads this
      requires Valid()
      ensures |r| == Area(size)
    {
      CellsOf(black, white)
    }

    function Current(): Color
      reads this
    {
      Other(justPlayed)
    }

    /** `State()`: an empty board, Black to move. */
    constructor (size: nat)
      requires size >= 1
      ensures this.size == size && Valid()
      ensures forall i :: 0 <= i < Area(size) ==> Cells()[i] == None
      ensures winner == None && justPlayed == White && !gameOver
    {
      this.size := size;
      black := seq(Area(size), _ => false);
      white := seq(Area(size), _ => false);
      winner := None;
      justPlayed := White;
      gameOver := false;
    }

    /** `color(i)`. */
    function ColorAt(i: nat): (c: Color)
      reads this
      requires Valid() && i < Area(size)
      ensures c == Cells()[i]
    {
      if black[i] then Black else if white[i] then White else None
    }

    /** `operator[](i)`: even i shows whether Black holds cell i/2, odd i whether White does. */
    function Feature(i: nat): (r: real)
      reads this
      requires Valid() && i / 2 < Area(size)
      ensures r == 1.0 || r == 0.0
      ensures i % 2 == 0 ==> (r == 1.0 <==> Cells()[i / 2] == Black)
      ensures i % 2 == 1 ==> (r == 1.0 <==> Cells()[i / 2] == White)
    {
      var c := ColorAt(i / 2);
      if i % 2 == 0 then (if c == Black then 1.0 else 0.0)
      else (if c == White then 1.0 else 0.0)
    }

    /** `place(c, i)`: an empty cell gets a player's stone and nothing else changes. */
    method Place(c: Color, i: nat)
      requires Valid() && i < Area(size) && Cells()[i] == None && IsPlayer(c)
      modifies this
      ensures Valid() && Cells() == old(Cells())[i := c]
      ensures winner == old(winner) && justPlayed == old(justPlayed) && gameOver == old(gameOver)
    {
      if c == Black {
        black := black[i := true];
      } else {
        white := white[i := true];
      }
      assert Cells() == old(Cells())[i := c] by {
        forall j | 0 <= j < Area(size)
          ensures Cells()[j] == old(Cells())[i := c][j]
        {
        }
      }
    }

    /** `ipow(x, p)`: x multiplied by itself p - 1 times, 1 when p < 2. */
    static method Ipow(x: int, p: int) returns (r: int)
      ensures r == Pow(x, if p >= 1 then p - 1 else 0)
    {
      r := 1;
      var j := 1;
      while j < p
        invariant j >= 1 && (j <= p || j == 1)
        invariant r == Pow(x, j - 1)
        decreases p - j
      {
        r := r * x;
        j := j + 1;
      }
    }

    /** One column and one row of `score`: the stones of each colour in column x and in row x. */
    method CountLines(x: nat) returns (colB: nat, colW: nat, rowB: nat, rowW: nat)
      requires Valid() && x < size
      ensures colB == Tally(Cells(), Column(size, x), Black, size)
      ensures colW == Tally(Cells(), Column(size, x), White, size)
      ensures rowB == Tally(Cells(), Row(size, x), Black, size)
      ensures rowW == Tally(Cells(), Row(size, x), White, size)
    {
      colB, colW, rowB, rowW := 0, 0, 0, 0;
      var y := 0;
      while y < size
        invariant 0 <= y <= size
        invariant colB == Tally(Cells(), Column(size, x), Black, y)
        invariant colW == Tally(Cells(), Column(size, x), White, y)
        invariant rowB == Tally(Cells(), Row(size, x), Black, y)
        invariant rowW == Tally(Cells(), Row(size, x), White, y)
      {
        CellInBoard(size, x, y);
        CellInBoard(size, y, x);
        var next := y + 1;
        var i := IndexOf(size, x, y);
        var c := ColorAt(i);
        TallyNext(Cells(), Column(size, x), Black, y, next);
        TallyNext(Cells(), Column(size, x), White, y, next);
        colB := colB + (if c == Black then 1 else 0);
        colW := colW + (if c == White then 1 else 0);
        i := IndexOf(size, y, x);
        c := ColorAt(i);
        TallyNext(Cells(), Row(size, x), Black, y, next);
        TallyNext(Cells(), Row(size, x), White, y, next);
        rowB := rowB + (if c == Black then 1 else 0);
        rowW := rowW + (if c == White then 1 else 0);
        y := next;
      }
    }

    /**
     * One step of the outer loop of `score`: column x's and row x's weights,
     * `ipow(10, stones + 1) - 1` per line, summed for Black and for White.
     */
    method LineWeights(x: nat) returns (b: int, w: int)
      requires Valid() && x < size
      ensures b - w == Balance(Cells(), Column(size, x)) + Balance(Cells(), Row(size, x))
    {
      var colB, colW, rowB, rowW := CountLines(x);
      BalanceOf(Cells(), Column(size, x), colB, colW);
      BalanceOf(Cells(), Row(size, x), rowB, rowW);
      var p := Ipow(10, colB + 1);
      b := p - 1;
      p := Ipow(10, colW + 1);
      w := p - 1;
      p := Ipow(10, rowB + 1);
      b := b + p - 1;
      p := Ipow(10, rowW + 1);
      w := w + p - 1;
    }

    /**
     * The outer loop of `score`: Black's and White's weights over every
     * column and row, and the stones of each colour on the main diagonal.
     */
    method AxisWeights() returns (cb: int, cw: int, diagB: nat, diagW: nat)
      requires Valid()
      ensures cb - cw == AxisBalance(Cells(), size, size)
      ensures diagB == Tally(Cells(), Diagonal(size), Black, size)
      ensures diagW == Tally(Cells(), Diagonal(size), White, size)
    {
      cb, cw, diagB, diagW := 0, 0, 0, 0;
      ghost var cells := Cells();
      var x := 0;
      while x < size
        invariant 0 <= x <= size
        invariant Weighed(cells, size, x, cb - cw, diagB, diagW)
      {
        ghost var balance0, diagB0, diagW0 := cb - cw, diagB, diagW;
        var b, w := LineWeights(x);
        cb, cw := cb + b, cw + w;
        CellInBoard(size, x, x);
        var c := ColorAt(IndexOf(size, x, x));
        diagB := diagB + (if c == Black then 1 else 0);
        diagW := diagW + (if c == White then 1 else 0);
        var next := x + 1;
        WeighedNext(cells, size, x, next, balance0, diagB0, diagW0, cb - cw, diagB, diagW);
        x := next;
      }
    }

    /** The last loop of `score`: the stones of each colour on the anti-diagonal. */
    method AntiCounts() returns (diagB: nat, diagW: nat)
      requires Valid()
      ensures diagB == Tally(Cells(), AntiDiagonal(size), Black, size)
      ensures diagW == Tally(Cells(), AntiDiagonal(size), White, size)
    {
      diagB, diagW := 0, 0;
      var y := 0;
      while y < size
        invariant 0 <= y <= size
        invariant diagB == Tally(Cells(), AntiDiagonal(size), Black, y)
        invariant diagW == Tally(Cells(), AntiDiagonal(size), White, y)
      {
        var next := y + 1;
        var c := ColorAt(AntiCell(size, y));
        TallyNext(Cells(), AntiDiagonal(size), Black, y, next);
        TallyNext(Cells(), AntiDiagonal(size), White, y, next);
        diagB := diagB + (if c == Black then 1 else 0);
        diagW := diagW + (if c == White then 1 else 0);
        y := next;
      }
    }

    /** `score(maximise)`: every line's balance plus Black's 300, whichever side maximises. */
    method Score(maximise: bool) returns (r: int)
      requires Valid()
      ensures r == ScoreOf(Cells(), size)
    {
      var cb, cw, diagB, diagW := AxisWeights();
      var p := Ipow(10, diagB + 1);
      cb := cb + p - 1;
      p := Ipow(10, diagW + 1);
      cw := cw + p - 1;
      diagB, diagW := AntiCounts();
      p := Ipow(10, diagB + 1);
      cb := cb + p - 1;
      p := Ipow(10, diagW + 1);
      cw := cw + p - 1;
      cb := cb + (if maximise then 300 else 0);
      cw := cw - (if maximise then 0 else 300);
      r := cb - cw;
    }

    /** The inner loop of `complete()`: whether the line holds its first cell's colour throughout. */
    method Uniform(line: seq<nat>) returns (full: bool)
      requires Valid() && |line| >= 1 && forall k :: 0 <= k < |line| ==> line[k] < Area(size)
      ensures full <==> Full(Cells(), line, Cells()[line[0]])
    {
      var c := ColorAt(line[0]);
      var k := 1;
      while k < |line|
        invariant 1 <= k <= |line|
        invariant forall j :: 0 <= j < k ==> Cells()[line[j]] == c
      {
        if ColorAt(line[k]) != c {
          return false;
        }
        k := k + 1;
      }
      return true;
    }

    /** The first loop of `complete()`: the first column one player fills. */
    method FirstFullColumn() returns (r: Color)
      requires Valid()
      ensures r == FirstColumn(Cells(), size, 0)
    {
      var x := 0;
      while x < size
        invariant 0 <= x <= size
        invariant FirstColumn(Cells(), size, 0) == FirstColumn(Cells(), size, x)
      {
        var c := ColorAt(x);
        if c != None {
          var full := Uniform(Column(size, x));
          if full {
            return c;
          }
        }
        x := x + 1;
      }
      return None;
    }

    /** The second loop of `complete()`: the first row one player fills. */
    method FirstFullRow() returns (r: Color)
      requires Valid()
      ensures r == FirstRow(Cells(), size, 0)
    {
      var y := 0;
      while y < size
        invariant 0 <= y <= size
        invariant FirstRow(Cells(), size, 0) == FirstRow(Cells(), size, y)
      {
        var c := ColorAt(Row(size, y)[0]);
        if c != None {
          var full := Uniform(Row(size, y));
          if full {
            return c;
          }
        }
        y := y + 1;
      }
      return None;
    }

    /**
     * `complete()`, with the main diagonal skipped when its corner is empty:
     * the winner if some player holds a whole line, else None.
     */
    method Complete() returns (r: Color)
      requires Valid()
      ensures r == Completion(Cells(), size)
    {
      r := FirstFullColumn();
      if r != None {
        return;
      }
      r := FirstFullRow();
      if r != None {
        return;
      }
      var c := ColorAt(0);
      var full := Uniform(Diagonal(size));
      if c != None && full {
        return c;
      }
      c := ColorAt(size - 1);
      full := Uniform(AntiDiagonal(size));
      if full {
        return c;
      }
      return None;
    }

    /**
     * `move(m)`: the side to move takes an empty cell, the winner is
     * recomputed, the game ends once there is one, and the turn passes.
     */
    method Move(m: nat)
      requires Valid() && m < Area(size) && Cells()[m] == None
      modifies this
      ensures Valid() && Cells() == old(Cells())[m := old(Current())]
      ensures winner == Completion(Cells(), size)
      ensures gameOver == (old(gameOver) || winner != None)
      ensures justPlayed == old(Current())
    {
      var player := Current();
      Place(player, m);
      winner := Complete();
      if winner != None {
        gameOver := true;
      }
      justPlayed := player;
    }

    /** `moves(c, ml)`: every empty cell, in index order, appended to the list. */
    method MovesFor(c: Color, ml: MoveList)
      requires Valid() && |ml.items| + |OpenCells(Cells(), Area(size))| <= ml.capacity
      modifies ml
      ensures ml.items == old(ml.items) + OpenCells(Cells(), Area(size))
    {
      var i := 0;
      while i < Area(size)
        invariant 0 <= i <= Area(size)
        invariant ml.items == old(ml.items) + OpenCells(Cells(), i)
      {
        OpenCellsGrow(Cells(), i, Area(size));
        if ColorAt(i) == None {
          ml.Add(i);
        }
        i := i + 1;
      }
    }

    /** `moves(ml)`: nothing once the game is over; otherwise the empty cells, and game over when there are none. */
    method Moves(ml: MoveList)
      requires Valid() && |ml.items| + |OpenCells(Cells(), Area(size))| <= ml.capacity
      modifies this, ml
      ensures Valid() && Cells() == old(Cells()) && winner == old(winner) && justPlayed == old(justPlayed)
      ensures old(gameOver) ==> ml.items == old(ml.items) && gameOver
      ensures !old(gameOver) ==> ml.items == old(ml.items) + OpenCells(Cells(), Area(size))
      ensures !old(gameOver) ==> gameOver == (|ml.items| == 0)
    {
      if gameOver {
        return;
      }
      var player := Current();
      MovesFor(player, ml);
      if |ml.items| == 0 {
        gameOver := true;
      }
    }

    /** `random_move`: some empty cell, when the game goes on and there is one. */
    method RandomMove(ml: MoveList) returns (found: bool, m: nat)
      requires Valid() && Area(size) <= ml.capacity
      modifies this, ml
      ensures Valid() && Cells() == old(Cells())
      ensures found <==> !old(gameOver) && |OpenCells(Cells(), Area(size))| > 0
      ensures found ==> m < Area(size) && Cells()[m] == None
    {
      ml.Clear();
      Moves(ml);
      if |ml.items| == 0 {
        return false, 0;
      }
      var k :| 0 <= k < |ml.items|;
      m := ml.items[k];
      OpenCellsExact(Cells(), Area(size));
      found := true;
    }
  }

  /** The list of open cells only grows as more cells are scanned. */
  lemma OpenCellsGrow(cells: seq<Color>, i: nat, k: nat)
    requires i < k <= |cells|
    ensures OpenCells(cells, i + 1) == OpenCells(cells, i) + (if cells[i] == None then [i] else [])
    ensures |OpenCells(cells, i + 1)| <= |OpenCells(cells, k)|
    decreases k - i
  {
    if i + 1 < k {
      OpenCellsGrow(cells, i + 1, k);
    }
  }

  // ---------------------------------------------------------- parsing ---

  /**
   * `parse_move` as written: two tokens, each read by `atoi`, less one,
   * narrowed to `uint8_t` and compared with SIZE.
   */
  function ParseMoveAsWritten(n: nat, tokens: seq<string>): Option<nat>
  {
    if |tokens| != 2 then Nothing
    else
      var x := Byte(Atoi(tokens[0]) - 1);
      var y := Byte(Atoi(tokens[1]) - 1);
      if x >= n || y >= n then Nothing else Some(IndexOf(n, x, y))
  }

  /** `parse_move` with the range test made before the narrowing. */
  function ParseMove(n: nat, tokens: seq<string>): Option<nat>
  {
    if |tokens| != 2 then Nothing
    else
      var x := Atoi(tokens[0]) - 1;
      var y := Atoi(tokens[1]) - 1;
      if x < 0 || y < 0 || x >= n || y >= n then Nothing else Some(IndexOf(n, x, y))
  }

  /**
   * The corrected parser accepts exactly two tokens naming a column and a
   * row from 1 to SIZE, and gives back that cell.
   */
  lemma ParseMoveExact(n: nat, tokens: seq<string>)
    requires n >= 1
    ensures ParseMove(n, tokens).Some? <==>
              |tokens| == 2 && 1 <= Atoi(tokens[0]) <= n && 1 <= Atoi(tokens[1]) <= n
    ensures ParseMove(n, tokens).Some? ==>
              X(n, ParseMove(n, tokens).value) == Atoi(tokens[0]) - 1 &&
              Y(n, ParseMove(n, tokens).value) == Atoi(tokens[1]) - 1
  {
    if ParseMove(n, tokens).Some? {
      XYOfIndex(n, Atoi(tokens[0]) - 1, Atoi(tokens[1]) - 1);
    }
  }

  /** Printing a cell's 1-based column and row and parsing them gives the cell back. */
  lemma ParseMoveRoundTrip(n: nat, x: nat, y: nat)
    requires x < n && y < n
    ensures ParseMove(n, [Decimal(x + 1), Decimal(y + 1)]) == Some(IndexOf(n, x, y))
    ensures n <= 256 ==> ParseMoveAsWritten(n, [Decimal(x + 1), Decimal(y + 1)]) == Some(IndexOf(n, x, y))
  {
    var tokens := [Decimal(x + 1), Decimal(y + 1)];
    AtoiDecimal(x + 1);
    AtoiDecimal(y + 1);
    assert Atoi(tokens[0]) - 1 == x && Atoi(tokens[1]) - 1 == y;
    if n <= 256 {
      ByteOfSmall(x);
      ByteOfSmall(y);
    }
  }

  /** "0" wraps to 255 and is refused by both, for boards below 256. */
  lemma ParseMoveRefusesZero(n: nat, t: string)
    requires 1 <= n < 256
    ensures ParseMoveAsWritten(n, [Decimal(0), t]) == Nothing
    ensures ParseMove(n, [Decimal(0), t]) == Nothing
  {
    AtoiDecimal(0);
  }

  /** As written, "257" wraps to column 0 and is taken for "1". */
  lemma ParseMoveWraps()
    ensures ParseMoveAsWritten(3, [Decimal(257), Decimal(1)]) == Some(0)
    ensures ParseMove(3, [Decimal(257), Decimal(1)]) == Nothing
  {
    AtoiDecimal(257);
    AtoiDecimal(1);
  }
}
