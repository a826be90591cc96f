// The numbering of a SIZE by SIZE board shared by the square games: cell
// i is column i mod SIZE of row i div SIZE, so column x of row y is x + y*SIZE.
module SquareGrid {

  /** The column of cell i, `i % SIZE`. */
  function X(n: nat, i: nat): nat
    requires n > 0
  {
    i % n
  }

  /** The row of cell i, `i / SIZE`. */
  function Y(n: nat, i: nat): nat
    requires n > 0
  {
    i / n
  }

  /**
   * The cell at column x of row y, `x + y*SIZE`: row y starts n cells
   * after row y - 1.
   */
  function IndexOf(n: nat, x: nat, y: nat): nat
    decreases y
  {
    if y == 0 then x else IndexOf(n, x, y - 1) + n
  }

  lemma {:induction false} IndexOfIsLinear(n: nat, x: nat, y: nat)
    ensures IndexOf(n, x, y) == x + y * n
  {
    if y > 0 {
      IndexOfIsLinear(n, x, y - 1);
    }
  }

  /** A cell's column and row give the cell back. */
  lemma IndexOfXY(n: nat, i: nat)
    requires n > 0
    ensures IndexOf(n, X(n, i), Y(n, i)) == i
  {
    IndexOfIsLinear(n, i % n, i / n);
  }

  /** Division by n has one answer: a quotient y and a remainder x < n. */
  lemma DivModUnique(n: nat, i: nat, x: nat, y: nat)
    requires x < n && i == x + y * n
    ensures i % n == x && i / n == y
  {
    var q, r := i / n, i % n;
    assert q * n + r == y * n + x;
    assert (y + 1) * n == y * n + n;
    assert (q + 1) * n == q * n + n;
    MulLeq(y + 1, q, n);
    MulLeq(q + 1, y, n);
  }

  /** A column inside the board and any row are read back from their cell. */
  lemma XYOfIndex(n: nat, x: nat, y: nat)
    requires x < n
    ensures X(n, IndexOf(n, x, y)) == x && Y(n, IndexOf(n, x, y)) == y
  {
    IndexOfIsLinear(n, x, y);
    DivModUnique(n, IndexOf(n, x, y), x, y);
  }

  /** Multiplying by a natural number keeps the order. */
  lemma MulLeq(a: nat, b: nat, c: nat)
    ensures a <= b ==> a * c <= b * c
  {
  }

  /** The number of cells of an n by n board, `SIZE*SIZE`: n rows of n. */
  function Area(n: nat): nat
  {
    IndexOf(n, 0, n)
  }

  lemma AreaIsSquare(n: nat)
    ensures Area(n) == n * n
  {
    IndexOfIsLinear(n, 0, n);
  }

  /** Column x of row y lies on an n by n board. */
  lemma CellInBoard(n: nat, x: nat, y: nat)
    requires x < n && y < n
    ensures IndexOf(n, x, y) < Area(n)
  {
    IndexOfIsLinear(n, x, y);
    IndexOfIsLinear(n, 0, n);
    MulLeq(y, n - 1, n);
    assert (n - 1) * n + n == n * n;
  }

  /** Every cell of an n by n board has its column and its row on the board. */
  lemma CellOfIndex(n: nat, i: nat)
    requires i < Area(n)
    ensures n > 0 && X(n, i) < n && Y(n, i) < n
  {
    AreaIsSquare(n);
    IndexOfIsLinear(n, i % n, i / n);
    MulLeq(n, i / n, n);
  }
}
