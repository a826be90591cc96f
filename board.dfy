// Board geometry (engine/board.h): a triangular index table, rectangular
// grids, and centred hexagonal boards stored in a square array whose rows
// are left-aligned.
module Board {

  /** The triangular number 0 + 1 + ... + y: the cells in the first `y` rows of a triangle. */
  function Tri(y: nat): nat
  {
    if y == 0 then 0 else Tri(y - 1) + y
  }

  /**
   * The index table after `index_list[y][x] = j`, preceded by the two
   * `resize` calls that grow it to y + 1 rows and row y to x + 1 entries,
   * new entries being empty rows and zeros.
   */
  function Put(table: seq<seq<nat>>, x: nat, y: nat, j: nat): (r: seq<seq<nat>>)
    ensures |r| == if |table| < y + 1 then y + 1 else |table|
    ensures |r[y]| == if y < |table| && x + 1 <= |table[y]| then |table[y]| else x + 1
    ensures r[y][x] == j
  {
    var rows := if |table| < y + 1 then table + seq(y + 1 - |table|, _ => []) else table;
    var row: seq<nat> := if |rows[y]| < x + 1 then rows[y] + seq(x + 1 - |rows[y]|, _ => 0) else rows[y];
    rows[y := row[x := j]]
  }

  /** `Put` changes no other entry: earlier ones keep their value, new ones are empty or zero. */
  lemma PutOthers(table: seq<seq<nat>>, x: nat, y: nat, j: nat)
    ensures var r := Put(table, x, y, j);
            (forall t :: 0 <= t < |r[y]| && t != x ==> r[y][t] == if y < |table| && t < |table[y]| then table[y][t] else 0) &&
            (forall u :: 0 <= u < |r| && u != y ==> r[u] == if u < |table| then table[u] else [])
  {
  }

  /**
   * Number k sits at `coords[k] = (x, y)` with `x <= y` and `Tri(y) + x ==
   * k`, and the table maps (x, y) back to k.
   */
  ghost predicate Laid(coords: seq<(nat, nat)>, table: seq<seq<nat>>)
  {
    forall k :: 0 <= k < |coords| ==>
      coords[k].0 <= coords[k].1 && Tri(coords[k].1) + coords[k].0 == k &&
      coords[k].1 < |table| && coords[k].0 < |table[coords[k].1]| && table[coords[k].1][coords[k].0] == k
  }

  /** Recording the next number at its cell keeps the earlier ones. */
  lemma {:induction false} LaidExtend(coords: seq<(nat, nat)>, table: seq<seq<nat>>, x: nat, y: nat)
    requires Laid(coords, table) && x <= y && Tri(y) + x == |coords|
    ensures Laid(coords + [(x, y)], Put(table, x, y, |coords|))
  {
    var coords', table' := coords + [(x, y)], Put(table, x, y, |coords|);
    PutOthers(table, x, y, |coords|);
    forall k | 0 <= k < |coords'|
      ensures coords'[k].0 <= coords'[k].1 && Tri(coords'[k].1) + coords'[k].0 == k &&
              coords'[k].1 < |table'| && coords'[k].0 < |table'[coords'[k].1]| && table'[coords'[k].1][coords'[k].0] == k
    {
      if k < |coords| {
        assert coords'[k] == coords[k] && coords[k] != (x, y);
      }
    }
  }

  /**
   * The table has rows 0 .. y-1, every row r but the last holding r + 1
   * entries and the last holding x.
   */
  ghost predicate Shaped(table: seq<seq<nat>>, x: nat, y: nat)
  {
    |table| == y && (y > 0 ==> |table[y - 1]| == x) &&
    forall r :: 0 <= r < y - 1 ==> |table[r]| == r + 1
  }

  /** The state of `init`'s loop when numbers 0 .. j-1 are recorded and the next goes at (x, y - 1). */
  ghost predicate Progress(coords: seq<(nat, nat)>, table: seq<seq<nat>>, x: nat, y: nat, j: nat)
  {
    x <= y && j == |coords| && j == (if y == 0 then 0 else Tri(y - 1) + x) &&
    Shaped(table, x, y) && Laid(coords, table)
  }

  /** One round of `init`'s loop: move to the next row when this one is full, then record j. */
  lemma {:induction false} Record(coords: seq<(nat, nat)>, table: seq<seq<nat>>, x: nat, y: nat, j: nat, x': nat, y': nat)
    requires Progress(coords, table, x, y, j)
    requires (x', y') == if x >= y then (0, y + 1) else (x, y)
    ensures y' >= 1 && Progress(coords + [(x', y' - 1)], Put(table, x', y' - 1, j), x' + 1, y', j + 1)
  {
    assert x' <= y' - 1 && j == Tri(y' - 1) + x';
    LaidExtend(coords, table, x', y' - 1);
    PutOthers(table, x', y' - 1, j);
  }

  /**
   * `TriHexLookup`: the cells of a triangle numbered row by row, row `y`
   * holding `y + 1` cells, with the coordinate of every number and the
   * number of every coordinate.
   */
  class TriHexLookup {
    var coordList: seq<(nat, nat)>    // number -> (x, y)
    var indexList: seq<seq<nat>>      // [y][x] -> number

    constructor ()
      ensures coordList == [] && indexList == []
    {
      coordList := [];
      indexList := [];
    }

    /** `index(x, y)`. */
    function Index(x: nat, y: nat): nat
      reads this
      requires y < |indexList| && x < |indexList[y]|
    {
      indexList[y][x]
    }

    /** `coord(i)`. */
    function Coord(i: nat): (nat, nat)
      reads this
      requires i < |coordList|
    {
      coordList[i]
    }

    /**
     * `init(i)` on a fresh table: numbers 0 .. i are laid out row by row,
     * number j at the (x, y) with `x <= y` and `Tri(y) + x == j`, and the
     * index table maps every one of those cells back to its number. The
     * stop test is the intended `j >= i`: the source's `j > i - 1` agrees
     * with it for i >= 1, but with i = 0 it compares against the
     * wrapped-around `i - 1` and never stops (`InitZeroNeverStops`).
     */
    method Init(i: nat)
      requires coordList == [] && indexList == []
      modifies this
      ensures |coordList| == i + 1 && Laid(coordList, indexList)
      ensures forall r :: 0 <= r < |indexList| - 1 ==> |indexList[r]| == r + 1
    {
      var y: nat, x: nat, j: nat := 0, 0, 0;
      while true
        invariant j <= i && Progress(coordList, indexList, x, y, j)
        decreases i - j
      {
        ghost var x0, y0 := x, y;
        if x >= y {
          x := 0;
          y := y + 1;
        }
        Record(coordList, indexList, x0, y0, j, x, y);
        coordList := coordList + [(x, y - 1)];
        indexList := Put(indexList, x, y - 1, j);
        if j >= i {
          return;
        }
        j, x := j + 1, x + 1;
      }
    }
  }

  /** The stop test of `init` as written: `j > i - 1` on 64-bit unsigned values. */
  predicate InitStops(i: nat, j: nat)
    requires i < 0x1_0000_0000_0000_0000
  {
    j > (i - 1) % 0x1_0000_0000_0000_0000
  }

  /** With i = 0 no 64-bit counter ever passes the test, so `init(0)` never returns. */
  lemma InitZeroNeverStops(j: nat)
    requires j < 0x1_0000_0000_0000_0000
    ensures !InitStops(0, j)
  {
  }

  /** For i >= 1 the test as written is the intended `j >= i`. */
  lemma InitStopsAtI(i: nat, j: nat)
    requires 1 <= i < 0x1_0000_0000_0000_0000
    ensures InitStops(i, j) <==> j >= i
  {
  }

  /**
   * `Rectangle<T, MAX_X, MAX_Y>`: a grid of `maxY` rows of `maxX` cells.
   * The source leaves the cells uninitialised; here they start as `fill`.
   */
  class Rectangle<T> {
    const maxX: nat
    const maxY: nat
    const data: array2<T>

    constructor (maxX: nat, maxY: nat, fill: T)
      ensures this.maxX == maxX && this.maxY == maxY && fresh(data)
      ensures data.Length0 == maxY && data.Length1 == maxX
    {
      this.maxX := maxX;
      this.maxY := maxY;
      data := new T[maxY, maxX]((_, _) => fill);
    }

    /** `AREA`. */
    function Area(): (r: nat)
      ensures r == maxX * maxY
    {
      maxX * maxY
    }

    /** `valid(x, y)`. */
    predicate Valid(x: nat, y: nat)
    {
      x < maxX && y < maxY
    }

    /** `get(x, y)`, only for a valid cell. */
    function Get(x: nat, y: nat): T
      reads data
      requires Valid(x, y) && data.Length0 == maxY && data.Length1 == maxX
    {
      data[y, x]
    }

    /** `set(x, y, value)`: the cell reads back `value` and no other cell changes. */
    method Set(x: nat, y: nat, value: T)
      requires Valid(x, y) && data.Length0 == maxY && data.Length1 == maxX
      modifies data
      ensures Get(x, y) == value
      ensures forall i: nat, j: nat :: Valid(i, j) && (i, j) != (x, y) ==> Get(i, j) == old(Get(i, j))
    {
      data[y, x] := value;
    }
  }

  const RowLetters := "abcdefghijlkmnopq"
  const ColumnDigits := "123456789ABCDEFGH"

  /** `Rectangle::label(x, y)`: the column digit, then the row letter. */
  function Label(x: nat, y: nat): (r: string)
    requires x < |ColumnDigits| && y < |RowLetters|
    ensures |r| == 2 && r[0] == ColumnDigits[x] && r[1] == RowLetters[y]
  {
    [ColumnDigits[x], RowLetters[y]]
  }

  /** Rows 10 and 11 are labelled 'l' and 'k', out of alphabetical order. */
  lemma LabelRowsSwapped()
    ensures Label(0, 10)[1] == 'l' && Label(0, 11)[1] == 'k'
    ensures Label(0, 10)[1] > Label(0, 11)[1]
  {
  }

  /** The evidently intended row letters, in alphabetical order. */
  const SortedRowLetters := "abcdefghijklmnopq"

  function SortedLabel(x: nat, y: nat): (r: string)
    requires x < |ColumnDigits| && y < |SortedRowLetters|
    ensures |r| == 2 && r[0] == ColumnDigits[x] && r[1] == SortedRowLetters[y]
  {
    [ColumnDigits[x], SortedRowLetters[y]]
  }

  /** With the intended letters, row `y` is labelled with the y-th letter of the alphabet. */
  lemma SortedLabelIsAlphabetical(x: nat, y: nat)
    requires x < |ColumnDigits| && y < |SortedRowLetters|
    ensures SortedLabel(x, y)[1] as int == 'a' as int + y
  {
  }

  // ---------------------------------------------------------------- Hex ---

  /**
   * A centred hexagonal board of side `n` (`Hex<T, SIZE>`) has `2n - 1`
   * rows; row y holds `Width(n, y)` cells numbered from x = 0.
   */
  function DSize(n: nat): nat
    requires n >= 1
  {
    2 * n - 1
  }

  /** `AREA`: the number of cells of a centred hexagon of side `n`. */
  function Area(n: nat): nat
    requires n >= 1
  {
    1 + 3 * n * (n - 1)
  }

  /** `width(y) = DSIZE - |SIZE - (y + 1)|`, for the rows of the board. */
  function Width(n: nat, y: nat): (r: nat)
    requires n >= 1 && y < DSize(n)
    ensures n <= r <= DSize(n)
    ensures y < n ==> r == n + y
    ensures y >= n - 1 ==> r == 3 * n - 2 - y
  {
    var d := n - (y + 1);
    DSize(n) - (if d < 0 then -d else d)
  }

  /** The top row has SIZE cells and the middle row DSIZE. */
  lemma WidthEnds(n: nat)
    requires n >= 1
    ensures Width(n, 0) == n && Width(n, n - 1) == DSize(n)
  {
  }

  /** `valid(x, y)`. */
  predicate Valid(n: nat, x: nat, y: nat)
    requires n >= 1
  {
    y < DSize(n) && x < Width(n, y)
  }

  /** The cells of rows 0 .. k-1, row by row, each row left to right. */
  function RowCells(n: nat, k: nat): (r: seq<(nat, nat)>)
    requires n >= 1 && k <= DSize(n)
  {
    if k == 0 then []
    else RowCells(n, k - 1) + seq(Width(n, k - 1), x requires 0 <= x < Width(n, k - 1) => (x, k - 1))
  }

  /** The first k rows hold only valid cells of those rows... */
  lemma {:induction false} RowCellsValid(n: nat, k: nat)
    requires n >= 1 && k <= DSize(n)
    ensures forall t :: 0 <= t < |RowCells(n, k)| ==> RowCells(n, k)[t].1 < k && Valid(n, RowCells(n, k)[t].0, RowCells(n, k)[t].1)
  {
    if k > 0 {
      RowCellsValid(n, k - 1);
    }
  }

  /** ... and every valid cell of those rows. */
  lemma {:induction false} RowCellsComplete(n: nat, k: nat)
    requires n >= 1 && k <= DSize(n)
    ensures forall x: nat, y: nat :: y < k && Valid(n, x, y) ==> (x, y) in RowCells(n, k)
  {
    if k > 0 {
      RowCellsComplete(n, k - 1);
      var front := RowCells(n, k - 1);
      forall x: nat, y: nat | y == k - 1 && Valid(n, x, y) ensures (x, y) in RowCells(n, k) {
        assert RowCells(n, k)[|front| + x] == (x, y);
      }
    }
  }

  /** The valid cells in row-major order. */
  function Cells(n: nat): (r: seq<(nat, nat)>)
    requires n >= 1
    ensures forall t :: 0 <= t < |r| ==> Valid(n, r[t].0, r[t].1)
    ensures forall x: nat, y: nat :: Valid(n, x, y) ==> (x, y) in r
  {
    RowCellsValid(n, DSize(n));
    RowCellsComplete(n, DSize(n));
    RowCells(n, DSize(n))
  }

  /** Twice the number of cells in the first k rows, while the rows widen. */
  lemma {:induction false} UpperRows(n: nat, k: nat)
    requires 1 <= n && k <= n
    ensures 2 * |RowCells(n, k)| == k * (2 * n + k - 1)
  {
    if k > 0 {
      UpperRows(n, k - 1);
      assert k * (2 * n + k - 1) == (k - 1) * (2 * n + k - 2) + 2 * (n + k - 1);
    }
  }

  /** Twice the number of cells in the first n + t rows, once they narrow again. */
  lemma {:induction false} LowerRows(n: nat, t: nat)
    requires 1 <= n && t <= n - 1
    ensures 2 * |RowCells(n, n + t)| == n * (3 * n - 1) + 2 * t * (2 * n - 2) - t * (t - 1)
  {
    if t == 0 {
      UpperRows(n, n);
    } else {
      LowerRows(n, t - 1);
      assert 2 * t * (2 * n - 2) - t * (t - 1) == 2 * (t - 1) * (2 * n - 2) - (t - 1) * (t - 2) + 2 * (2 * n - 2 - (t - 1));
    }
  }

  /** `AREA` is exactly the number of valid cells. */
  lemma {:induction false} AreaIsCellCount(n: nat)
    requires n >= 1
    ensures |Cells(n)| == Area(n)
  {
    LowerRows(n, n - 1);
    assert n + (n - 1) == DSize(n);
    assert n * (3 * n - 1) + 2 * (n - 1) * (2 * n - 2) - (n - 1) * (n - 2) == 2 * Area(n);
  }

  datatype Direction = East | West | NE | SE | NW | SW

  /** `reverse(d)`. */
  function Reverse(d: Direction): (r: Direction)
    ensures r != d
  {
    match d
    case East => West
    case West => East
    case NE => SW
    case SE => NW
    case NW => SE
    case SW => NE
  }

  lemma ReverseInvolution(d: Direction)
    ensures Reverse(Reverse(d)) == d
  {
  }

  /**
   * `has_move(d, x, y)`. Above the middle row the rows widen downwards, so
   * north-east keeps x and north-west decreases it; below, the other way
   * round. `has_w` only asks for x > 0.
   */
  predicate HasMove(n: nat, d: Direction, x: nat, y: nat)
    requires n >= 1
  {
    match d
    case East => Valid(n, x + 1, y)
    case West => x > 0
    case NE => y != 0 && (if y >= n then Valid(n, x + 1, y - 1) else Valid(n, x, y - 1))
    case SE => if y >= n - 1 then Valid(n, x, y + 1) else Valid(n, x + 1, y + 1)
    case NW => y != 0 && (if y >= n then Valid(n, x, y - 1) else x != 0 && Valid(n, x - 1, y - 1))
    case SW => if y >= n - 1 then x != 0 && Valid(n, x - 1, y + 1) else Valid(n, x, y + 1)
  }

  /** The neighbour in direction d: `northeast`, `southeast`, ... with the row step. */
  function Step(n: nat, d: Direction, x: nat, y: nat): (r: (nat, nat))
    requires n >= 1 && HasMove(n, d, x, y)
  {
    match d
    case East => (x + 1, y)
    case West => (x - 1, y)
    case NE => (if y >= n then x + 1 else x, y - 1)
    case NW => (if y >= n then x else x - 1, y - 1)
    case SW => (if y >= n - 1 then x - 1 else x, y + 1)
    case SE => (if y >= n - 1 then x else x + 1, y + 1)
  }

  /** A step from a valid cell lands on a valid cell. */
  lemma StepStaysValid(n: nat, d: Direction, x: nat, y: nat)
    requires n >= 1 && Valid(n, x, y) && HasMove(n, d, x, y)
    ensures Valid(n, Step(n, d, x, y).0, Step(n, d, x, y).1)
  {
  }

  /** From a valid cell, stepping in d and then in `Reverse(d)` comes back. */
  lemma StepBack(n: nat, d: Direction, x: nat, y: nat)
    requires n >= 1 && Valid(n, x, y) && HasMove(n, d, x, y)
    ensures var (x', y') := Step(n, d, x, y);
            HasMove(n, Reverse(d), x', y') && Step(n, Reverse(d), x', y') == (x, y)
  {
  }

  /**
   * `Hex<T, SIZE>`: the cells of a hexagon of side `size`, kept in a square
   * array of side DSIZE. The source leaves the cells uninitialised; here
   * they start as `fill`.
   */
  class Hex<T> {
    const size: nat
    const data: array2<T>

    constructor (size: nat, fill: T)
      requires size >= 1
      ensures this.size == size && fresh(data)
      ensures data.Length0 == DSize(size) && data.Length1 == DSize(size)
    {
      this.size := size;
      data := new T[DSize(size), DSize(size)]((_, _) => fill);
    }

    /** `get(x, y)`. */
    function Get(x: nat, y: nat): T
      reads data
      requires size >= 1 && data.Length0 == DSize(size) && data.Length1 == DSize(size)
      requires x < DSize(size) && y < DSize(size)
    {
      data[y, x]
    }

    /** `set(x, y, value)` on a valid cell: it reads back `value` and no other cell changes. */
    method Set(x: nat, y: nat, value: T)
      requires size >= 1 && data.Length0 == DSize(size) && data.Length1 == DSize(size)
      requires Valid(size, x, y)
      modifies data
      ensures Get(x, y) == value
      ensures forall i: nat, j: nat :: i < DSize(size) && j < DSize(size) && (i, j) != (x, y) ==> Get(i, j) == old(Get(i, j))
    {
      data[y, x] := value;
    }

    /**
     * `move(d, x, y)`: without a neighbour in d it answers true and leaves
     * (x, y) alone; otherwise (x, y) becomes the neighbour and it answers
     * false.
     */
    method Move(d: Direction, x: nat, y: nat) returns (blocked: bool, x': nat, y': nat)
      requires size >= 1
      ensures blocked <==> !HasMove(size, d, x, y)
      ensures blocked ==> x' == x && y' == y
      ensures !blocked ==> (x', y') == Step(size, d, x, y)
    {
      if !HasMove(size, d, x, y) {
        return true, x, y;
      }
      blocked := false;
      match d {
        case East => x', y' := x + 1, y;
        case West => x', y' := x - 1, y;
        case NE => x', y' := if y >= size then x + 1 else x, y - 1;
        case NW => x', y' := if y >= size then x else x - 1, y - 1;
        case SW => x', y' := if y >= size - 1 then x - 1 else x, y + 1;
        case SE => x', y' := if y >= size - 1 then x else x + 1, y + 1;
      }
    }
  }
}
