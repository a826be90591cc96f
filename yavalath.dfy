// Yavalath (games/yavalath.h): stones on a hexagon of side SIZE; N in a row
// wins, but exactly N - 1 in a row loses.
module Yavalath {
  import opened Common
  import opened Board
  import opened Text
  import Turns = State
  import SquareGrid

  // ------------------------------------------------------------ moves ---

  /** A move: the column and row of a cell, each kept in four bits. */
  datatype Move = MoveOf(x: nat, y: nat)

  /** `Move::set(x, y)`: both coordinates cut to their four bits. */
  function SetMove(x: nat, y: nat): (m: Move)
    ensures m.x < 16 && m.y < 16
  {
    MoveOf(x % 16, y % 16)
  }

  /** Coordinates that fit in four bits read back unchanged. */
  lemma SetMoveRoundTrip(x: nat, y: nat)
    requires x < 16 && y < 16
    ensures SetMove(x, y) == MoveOf(x, y)
  {
  }

  /** `m.set(x, y)` on a cell of the board, which reads back unchanged. */
  function CellMove(x: nat, y: nat): (m: Move)
    requires x < 16 && y < 16
    ensures m.x == x && m.y == y
  {
    SetMoveRoundTrip(x, y);
    SetMove(x, y)
  }

  /** `MoveList<MAX_MOVES>`: the moves added so far, at most `capacity`. */
  class MoveList {
    const capacity: nat
    var items: seq<Move>

    constructor (capacity: nat)
      ensures this.capacity == capacity && items == []
    {
      this.capacity := capacity;
      items := [];
    }

    method Clear()
      modifies this
      ensures items == []
    {
      items := [];
    }

    /** `add(x, y)`, which asserts that the list has room. */
    method Add(x: nat, y: nat)
      requires |items| < capacity
      modifies this
      ensures items == old(items) + [SetMove(x, y)]
    {
      items := items + [SetMove(x, y)];
    }
  }

  // ------------------------------------------------------------ lines ---

  /** The board's square array, row y first: `data[y][x]`. */
  predicate HexShaped(g: seq<seq<Color>>, n: nat)
    requires n >= 1
  {
    |g| == DSize(n) && forall y :: 0 <= y < DSize(n) ==> |g[y]| == DSize(n)
  }

  /** How far direction d can still go from (x, y): the termination measure of `scan`. */
  function Ahead(n: nat, d: Direction, x: nat, y: nat): nat
    requires n >= 1 && Valid(n, x, y)
  {
    match d
    case East => DSize(n) - x
    case West => x
    case NE => y
    case NW => y
    case SE => DSize(n) - y
    case SW => DSize(n) - y
  }

  /** `scan(c, d, x, y)`: the run of c from (x, y) in direction d. */
  function Scan(g: seq<seq<Color>>, n: nat, c: Color, d: Direction, x: nat, y: nat): nat
    requires n >= 1 && HexShaped(g, n) && Valid(n, x, y)
    decreases Ahead(n, d, x, y)
  {
    if g[y][x] != c then 0
    else if HasMove(n, d, x, y) then
      StepStaysValid(n, d, x, y);
      var p := Step(n, d, x, y);
      1 + Scan(g, n, c, d, p.0, p.1)
    else 1
  }

  /** The cell k steps from (x, y) in direction d, or Nothing once the board ends. */
  function Walk(n: nat, d: Direction, x: nat, y: nat, k: nat): (r: Option<(nat, nat)>)
    requires n >= 1 && Valid(n, x, y)
    ensures r.Some? ==> Valid(n, r.value.0, r.value.1)
    decreases k
  {
    if k == 0 then Some((x, y))
    else if HasMove(n, d, x, y) then
      StepStaysValid(n, d, x, y);
      var p := Step(n, d, x, y);
      Walk(n, d, p.0, p.1, k - 1)
    else Nothing
  }

  /** The walk reaches a cell of the board holding c. */
  predicate Holds(g: seq<seq<Color>>, n: nat, p: Option<(nat, nat)>, c: Color)
    requires n >= 1 && HexShaped(g, n)
  {
    p.Some? && p.value.1 < DSize(n) && p.value.0 < DSize(n) && g[p.value.1][p.value.0] == c
  }

  /**
   * A scan measures a run: the first r cells from (x, y) in direction d
   * hold c, and the next one does not or is off the board.
   */
  lemma {:induction false} ScanIsRun(g: seq<seq<Color>>, n: nat, c: Color, d: Direction, x: nat, y: nat)
    requires n >= 1 && HexShaped(g, n) && Valid(n, x, y)
    ensures var r := Scan(g, n, c, d, x, y);
      (forall k :: 0 <= k < r ==> Holds(g, n, Walk(n, d, x, y, k), c)) && !Holds(g, n, Walk(n, d, x, y, r), c)
    decreases Ahead(n, d, x, y)
  {
    if g[y][x] == c && HasMove(n, d, x, y) {
      StepStaysValid(n, d, x, y);
      var p := Step(n, d, x, y);
      ScanIsRun(g, n, c, d, p.0, p.1);
      var s := Scan(g, n, c, d, p.0, p.1);
      assert Scan(g, n, c, d, x, y) == 1 + s;
      RunAhead(g, n, c, d, x, y, s);
      WalkNext(n, d, x, y, s);
    } else {
      RunStops(g, n, c, d, x, y);
    }
  }

  /** A scan that stops at once measures a run of none or one. */
  lemma RunStops(g: seq<seq<Color>>, n: nat, c: Color, d: Direction, x: nat, y: nat)
    requires n >= 1 && HexShaped(g, n) && Valid(n, x, y) && !(g[y][x] == c && HasMove(n, d, x, y))
    ensures var r := Scan(g, n, c, d, x, y);
      r <= 1 && (forall k :: 0 <= k < r ==> Holds(g, n, Walk(n, d, x, y, k), c)) && !Holds(g, n, Walk(n, d, x, y, r), c)
  {
    assert Walk(n, d, x, y, 0) == Some((x, y));
  }

  /** A run of s cells of c from the next cell, after a cell of c, is a run of s + 1 cells. */
  lemma RunAhead(g: seq<seq<Color>>, n: nat, c: Color, d: Direction, x: nat, y: nat, s: nat)
    requires n >= 1 && HexShaped(g, n) && Valid(n, x, y) && g[y][x] == c && HasMove(n, d, x, y)
    requires Valid(n, Step(n, d, x, y).0, Step(n, d, x, y).1)
    requires forall k :: 0 <= k < s ==> Holds(g, n, Walk(n, d, Step(n, d, x, y).0, Step(n, d, x, y).1, k), c)
    ensures forall k :: 0 <= k < s + 1 ==> Holds(g, n, Walk(n, d, x, y, k), c)
  {
    forall k | 0 <= k < s + 1
      ensures Holds(g, n, Walk(n, d, x, y, k), c)
    {
      if k > 0 {
        var j := k - 1;
        WalkNext(n, d, x, y, j);
      }
    }
  }

  /** A walk of j + 1 steps is one step, then a walk of j. */
  lemma WalkNext(n: nat, d: Direction, x: nat, y: nat, j: nat)
    requires n >= 1 && Valid(n, x, y) && HasMove(n, d, x, y)
    ensures Valid(n, Step(n, d, x, y).0, Step(n, d, x, y).1)
    ensures Walk(n, d, x, y, j + 1) == Walk(n, d, Step(n, d, x, y).0, Step(n, d, x, y).1, j)
  {
    StepStaysValid(n, d, x, y);
  }

  /** `line_length(c, d, x, y)`: both scans through (x, y), the cell itself counted once. */
  function LineLength(g: seq<seq<Color>>, n: nat, c: Color, d: Direction, x: nat, y: nat): nat
    requires n >= 1 && HexShaped(g, n) && Valid(n, x, y)
  {
    var count := Scan(g, n, c, d, x, y) + Scan(g, n, c, Reverse(d), x, y);
    if count > 0 then count - 1 else 0
  }

  /**
   * The line through (x, y) along d's axis: with a cells of c ahead and b
   * behind, all of them hold c, the cells just past both ends do not, and
   * the length is a + b + 1.
   */
  lemma LineLengthIsSegment(g: seq<seq<Color>>, n: nat, c: Color, d: Direction, x: nat, y: nat)
    requires n >= 1 && HexShaped(g, n) && Valid(n, x, y) && g[y][x] == c
    ensures var a, b := Scan(g, n, c, d, x, y) - 1, Scan(g, n, c, Reverse(d), x, y) - 1;
      LineLength(g, n, c, d, x, y) == a + b + 1 &&
      (forall k :: 0 <= k <= a ==> Holds(g, n, Walk(n, d, x, y, k), c)) &&
      (forall k :: 0 <= k <= b ==> Holds(g, n, Walk(n, Reverse(d), x, y, k), c)) &&
      !Holds(g, n, Walk(n, d, x, y, a + 1), c) && !Holds(g, n, Walk(n, Reverse(d), x, y, b + 1), c)
  {
    ScanIsRun(g, n, c, d, x, y);
    ScanIsRun(g, n, c, Reverse(d), x, y);
  }

  /** `n_in_row(k, x, y)`: a line of exactly k of the colour at (x, y), along one of the three axes. */
  predicate InRow(g: seq<seq<Color>>, n: nat, k: nat, x: nat, y: nat)
    requires n >= 1 && HexShaped(g, n) && Valid(n, x, y)
  {
    var c := g[y][x];
    LineLength(g, n, c, East, x, y) == k || LineLength(g, n, c, NE, x, y) == k || LineLength(g, n, c, NW, x, y) == k
  }

  /** `at_least_n_in_row(k, x, y)`: a line of k or more. */
  predicate AtLeastInRow(g: seq<seq<Color>>, n: nat, k: nat, x: nat, y: nat)
    requires n >= 1 && HexShaped(g, n) && Valid(n, x, y)
  {
    var c := g[y][x];
    LineLength(g, n, c, East, x, y) >= k || LineLength(g, n, c, NE, x, y) >= k || LineLength(g, n, c, NW, x, y) >= k
  }

  /**
   * `complete(x, y)` for a target of `need` in a row: exactly need - 1
   * loses, checked first; otherwise need or more wins; otherwise nobody.
   */
  function Complete(g: seq<seq<Color>>, n: nat, need: nat, x: nat, y: nat): (r: Color)
    requires n >= 1 && need >= 1 && HexShaped(g, n) && Valid(n, x, y)
    ensures InRow(g, n, need - 1, x, y) ==> r == Other(g[y][x])
    ensures !InRow(g, n, need - 1, x, y) && AtLeastInRow(g, n, need, x, y) ==> r == g[y][x]
    ensures !InRow(g, n, need - 1, x, y) && !AtLeastInRow(g, n, need, x, y) ==> r == None
  {
    var c := g[y][x];
    if InRow(g, n, need - 1, x, y) then Other(c)
    else if AtLeastInRow(g, n, need, x, y) then c
    else None
  }

  /** A line of exactly need - 1 loses even when another axis has need or more. */
  lemma LosingLineFirst(g: seq<seq<Color>>, n: nat, need: nat, x: nat, y: nat)
    requires n >= 1 && need >= 1 && HexShaped(g, n) && Valid(n, x, y) && IsPlayer(g[y][x])
    requires InRow(g, n, need - 1, x, y) && AtLeastInRow(g, n, need, x, y)
    ensures Complete(g, n, need, x, y) == Other(g[y][x]) && Complete(g, n, need, x, y) != g[y][x]
  {
  }

  // ------------------------------------------------------ empty cells ---

  /** The empty cells (x', y), x' < x, of row y. */
  function RowEmpties(g: seq<seq<Color>>, n: nat, y: nat, x: nat): seq<Move>
    requires n >= 1 && HexShaped(g, n) && y < DSize(n) && x <= DSize(n)
  {
    if x == 0 then [] else RowEmpties(g, n, y, x - 1) + (if g[y][x - 1] == None then [MoveOf(x - 1, y)] else [])
  }

  /** The empty cells of the first k rows, row by row. */
  function EmptyRows(g: seq<seq<Color>>, n: nat, k: nat): seq<Move>
    requires n >= 1 && HexShaped(g, n) && k <= DSize(n)
  {
    if k == 0 then [] else EmptyRows(g, n, k - 1) + RowEmpties(g, n, k - 1, Width(n, k - 1))
  }

  /** The moves `moves` lists: every empty cell, in row-major order. */
  function EmptyMoves(g: seq<seq<Color>>, n: nat): seq<Move>
    requires n >= 1 && HexShaped(g, n)
  {
    EmptyRows(g, n, DSize(n))
  }

  lemma {:induction false} RowEmptiesExact(g: seq<seq<Color>>, n: nat, y: nat, x: nat)
    requires n >= 1 && HexShaped(g, n) && y < DSize(n) && x <= DSize(n)
    ensures forall m :: m in RowEmpties(g, n, y, x) <==> m.y == y && m.x < x && g[y][m.x] == None
    ensures |RowEmpties(g, n, y, x)| <= x
    ensures (forall x' :: 0 <= x' < x ==> g[y][x'] == None) ==> |RowEmpties(g, n, y, x)| == x
  {
    if x > 0 {
      RowEmptiesExact(g, n, y, x - 1);
    }
  }

  lemma {:induction false} EmptyRowsExact(g: seq<seq<Color>>, n: nat, k: nat)
    requires n >= 1 && HexShaped(g, n) && k <= DSize(n)
    ensures forall m :: m in EmptyRows(g, n, k) <==> m.y < k && Valid(n, m.x, m.y) && g[m.y][m.x] == None
    ensures |EmptyRows(g, n, k)| <= |RowCells(n, k)|
    ensures (forall y, x :: 0 <= y < DSize(n) && 0 <= x < DSize(n) ==> g[y][x] == None) ==> |EmptyRows(g, n, k)| == |RowCells(n, k)|
  {
    if k > 0 {
      EmptyRowsExact(g, n, k - 1);
      RowEmptiesExact(g, n, k - 1, Width(n, k - 1));
    }
  }

  /**
   * `moves` lists exactly the empty cells of the board, at most `AREA` of
   * them, and exactly `AREA` on an empty board: a list of capacity `AREA`
   * always has room.
   */
  lemma EmptyMovesFit(g: seq<seq<Color>>, n: nat)
    requires n >= 1 && HexShaped(g, n)
    ensures forall m :: m in EmptyMoves(g, n) <==> Valid(n, m.x, m.y) && g[m.y][m.x] == None
    ensures |EmptyMoves(g, n)| <= Area(n)
    ensures (forall y, x :: 0 <= y < DSize(n) && 0 <= x < DSize(n) ==> g[y][x] == None) ==> |EmptyMoves(g, n)| == Area(n)
  {
    EmptyRowsExact(g, n, DSize(n));
    AreaIsCellCount(n);
  }

  /** Cell x of row y comes after the rows above it, in the listing of the first k rows for any k past y. */
  lemma {:induction false} RowCellsAt(n: nat, k: nat, y: nat, x: nat)
    requires n >= 1 && y < k <= DSize(n) && x < Width(n, y)
    ensures |RowCells(n, y)| + x < |RowCells(n, k)| && RowCells(n, k)[|RowCells(n, y)| + x] == (x, y)
    decreases k
  {
    var front, row := RowCells(n, k - 1), seq(Width(n, k - 1), c requires 0 <= c < Width(n, k - 1) => (c, k - 1));
    assert RowCells(n, k) == front + row;
    if k - 1 == y {
      assert row[x] == (x, y);
    } else {
      RowCellsAt(n, k - 1, y, x);
    }
  }

  // --------------------------------------------------------- features ---

  /** The network input of a cell: 1 for Black, -1 for White, 0 otherwise. */
  function CellValue(c: Color): (r: real)
    ensures r == 1.0 <==> c == Black
    ensures r == -1.0 <==> c == White
    ensures r == 0.0 <==> !IsPlayer(c)
  {
    if c == Black then 1.0 else if c == White then -1.0 else 0.0
  }

  // --------------------------------------------------------- probing ---

  /**
   * The quick probe of `random_move` as written, `random() % DSIZE*DSIZE`,
   * which C reads as `(random() % DSIZE) * DSIZE`.
   */
  function ProbeAsWritten(r: nat, dsize: nat): nat
    requires dsize >= 1
  {
    r % dsize * dsize
  }

  /** Every probe as written lands in column 0. */
  lemma ProbeAsWrittenColumnZero(r: nat, dsize: nat)
    requires dsize >= 1
    ensures ProbeAsWritten(r, dsize) % dsize == 0
  {
    SquareGrid.DivModUnique(dsize, ProbeAsWritten(r, dsize), 0, r % dsize);
  }

  /** The probe meant: `random() % (DSIZE*DSIZE)`, any square of the array. */
  function Probe(r: nat, dsize: nat): nat
    requires dsize >= 1
  {
    r % (dsize * dsize)
  }

  /** The column of square k of an array dsize wide. */
  function Column(k: nat, dsize: nat): nat
    requires dsize >= 1
  {
    k % dsize
  }

  /** The row of square k of an array dsize wide. */
  function Row(k: nat, dsize: nat): nat
    requires dsize >= 1
  {
    k / dsize
  }

  /** Every square (x, y) of the array is the probe of some random number. */
  lemma ProbeReachesEverySquare(x: nat, y: nat, dsize: nat)
    requires x < dsize && y < dsize
    ensures var r := x + y * dsize; Probe(r, dsize) % dsize == x && Probe(r, dsize) / dsize == y
  {
    var r := x + y * dsize;
    SquareGrid.IndexOfIsLinear(dsize, x, y);
    SquareGrid.CellInBoard(dsize, x, y);
    SquareGrid.AreaIsSquare(dsize);
    SquareGrid.DivModUnique(dsize * dsize, r, r, 0);
    SquareGrid.DivModUnique(dsize, r, x, y);
  }

  // ------------------------------------------------------------ state ---

  /** `State<N, SIZE>`: the hexagon's cells, the target `need` (N) and the turn bookkeeping. */
  class State {
    const size: nat
    const need: nat
    var cells: seq<seq<Color>>
    var winner: Color
    var justPlayed: Color
    var gameOver: bool

    /** A board whose coordinates fit the four-bit fields of a move. */
    ghost predicate Valid()
      reads this
    {
      1 <= size <= 8 && 1 <= need < 256 && HexShaped(cells, size) && IsPlayer(justPlayed)
    }

    /** `State()`, that is `clear()`: every cell empty, Black to move, nobody winning. */
    constructor (size: nat, need: nat)
      requires 1 <= size <= 8 && 1 <= need < 256
      ensures this.size == size && this.need == need && Valid()
      ensures cells == seq(DSize(size), _ => seq(DSize(size), _ => None))
      ensures winner == None && justPlayed == White && !gameOver
    {
      this.size, this.need := size, need;
      cells := seq(DSize(size), _ => seq(DSize(size), _ => None));
      winner, justPlayed, gameOver := None, White, false;
    }

    function Current(): Color
      reads this
    {
      Other(justPlayed)
    }

    /** `result(c)`. */
    function Result(c: Color): (r: real)
      reads this
      ensures r == Turns.Outcome(winner, c)
    {
      Turns.Outcome(winner, c)
    }

    /** `place(c, x, y)`, which asserts that the cell is on the board and empty. */
    method Place(c: Color, x: nat, y: nat)
      requires Valid() && Board.Valid(size, x, y) && cells[y][x] == None
      modifies this
      ensures Valid() && cells == old(cells[y := cells[y][x := c]])
      ensures winner == old(winner) && justPlayed == old(justPlayed) && gameOver == old(gameOver)
    {
      cells := cells[y := cells[y][x := c]];
    }

    /**
     * `move(m)`: the side to move takes the cell; the winner becomes what
     * `complete` says, and the game ends when that is a player.
     */
    method Move(m: Move)
      requires Valid() && Board.Valid(size, m.x, m.y) && cells[m.y][m.x] == None
      modifies this
      ensures Valid() && cells == old(cells[m.y := cells[m.y][m.x := Current()]])
      ensures winner == Complete(cells, size, need, m.x, m.y)
      ensures gameOver == (old(gameOver) || winner != None)
      ensures justPlayed == old(Current())
    {
      var player := Current();
      Place(player, m.x, m.y);
      winner := Complete(cells, size, need, m.x, m.y);
      if winner != None {
        gameOver := true;
      }
      justPlayed := player;
    }

    /** `moves(c, ml)`: every empty cell, row by row, each row up to its first invalid column. */
    method MovesFor(c: Color, ml: MoveList)
      requires Valid() && |ml.items| + |EmptyMoves(cells, size)| <= ml.capacity
      modifies ml
      ensures ml.items == old(ml.items) + EmptyMoves(cells, size)
    {
      var dsize := DSize(size);
      var y := 0;
      while y < dsize
        invariant y <= dsize && ml.items == old(ml.items) + EmptyRows(cells, size, y)
      {
        EmptiesFit(cells, size, y, Width(size, y));
        RowMoves(y, ml);
        y := y + 1;
      }
    }

    /** One row of `moves(c, ml)`: its empty cells left to right, up to the first invalid column. */
    method RowMoves(y: nat, ml: MoveList)
      requires Valid() && y < DSize(size) && |ml.items| + |RowEmpties(cells, size, y, Width(size, y))| <= ml.capacity
      modifies ml
      ensures ml.items == old(ml.items) + RowEmpties(cells, size, y, Width(size, y))
    {
      var dsize := DSize(size);
      var x := 0;
      while x < dsize
        invariant x <= Width(size, y) && ml.items == old(ml.items) + RowEmpties(cells, size, y, x)
      {
        if !Board.Valid(size, x, y) {
          break;
        }
        var next := x + 1;
        RowEmptiesGrow(cells, size, y, next, Width(size, y));
        RowEmptiesNext(cells, size, y, x, next);
        if cells[y][x] == None {
          SetMoveRoundTrip(x, y);
          ml.Add(x, y);
        }
        x := next;
      }
    }

    /** `moves(ml)`: nothing once the game is over; otherwise every empty cell, and game over when there is none. */
    method Moves(ml: MoveList)
      requires Valid() && |ml.items| + |EmptyMoves(cells, size)| <= ml.capacity
      modifies this, ml
      ensures Valid() && cells == old(cells) && winner == old(winner) && justPlayed == old(justPlayed)
      ensures old(gameOver) ==> ml.items == old(ml.items) && gameOver
      ensures !old(gameOver) ==> ml.items == old(ml.items) + EmptyMoves(cells, size)
      ensures !old(gameOver) ==> gameOver == (|ml.items| == 0)
    {
      if gameOver {
        return;
      }
      MovesFor(Current(), ml);
      if |ml.items| == 0 {
        gameOver := true;
      }
    }

    /**
     * `random_move(ml, m)`: up to DSIZE random probes for an empty cell,
     * then a random pick from `moves`; false when that lists nothing.
     */
    method RandomMove(ml: MoveList) returns (found: bool, m: Move)
      requires Valid() && Area(size) <= ml.capacity
      modifies this, ml
      ensures Valid() && cells == old(cells) && winner == old(winner) && justPlayed == old(justPlayed)
      ensures found ==> Board.Valid(size, m.x, m.y) && cells[m.y][m.x] == None
      ensures !found ==> old(gameOver) || forall x: nat, y: nat :: Board.Valid(size, x, y) ==> cells[y][x] != None
    {
      found, m := ProbeEmpty();
      if !found {
        found, m := PickListed(ml);
      }
    }

    /** The first half of `random_move`: up to DSIZE random probes, the first that hits an empty cell. */
    method ProbeEmpty() returns (found: bool, m: Move)
      requires Valid()
      ensures found ==> Board.Valid(size, m.x, m.y) && cells[m.y][m.x] == None
    {
      var i := 0;
      while i < DSize(size)
      {
        found, m := ProbeOnce();
        if found {
          return;
        }
        i := i + 1;
      }
      return false, MoveOf(0, 0);
    }

    /** One probe of `random_move`: a random square of the DSIZE by DSIZE array, a hit when it is an empty cell. */
    method ProbeOnce() returns (hit: bool, m: Move)
      requires Valid()
      ensures hit ==> Board.Valid(size, m.x, m.y) && cells[m.y][m.x] == None
    {
      var dsize := DSize(size);
      var r: nat :| true;
      var k := Probe(r, dsize);
      var x, y := Column(k, dsize), Row(k, dsize);
      hit := Board.Valid(size, x, y) && cells[y][x] == None;
      m := if hit then CellMove(x, y) else MoveOf(0, 0);
    }

    /** The second half of `random_move`: a random pick from what `moves` lists, false when it lists nothing. */
    method PickListed(ml: MoveList) returns (found: bool, m: Move)
      requires Valid() && Area(size) <= ml.capacity
      modifies this, ml
      ensures Valid() && cells == old(cells) && winner == old(winner) && justPlayed == old(justPlayed)
      ensures found ==> Board.Valid(size, m.x, m.y) && cells[m.y][m.x] == None
      ensures !found ==> old(gameOver) || forall x: nat, y: nat :: Board.Valid(size, x, y) ==> cells[y][x] != None
    {
      ml.Clear();
      EmptyMovesFit(cells, size);
      var over := gameOver;
      Moves(ml);
      if |ml.items| == 0 {
        if !over {
          assert EmptyMoves(cells, size) == [];
        }
        forall x: nat, y: nat | !over && Board.Valid(size, x, y)
          ensures cells[y][x] != None
        {
          assert MoveOf(x, y) !in EmptyMoves(cells, size);
        }
        return false, MoveOf(0, 0);
      }
      var r: nat :| true;
      m := ml.items[r % |ml.items|];
      found := true;
    }

    /**
     * `operator[](i)` as written: the loop's own counter hides the
     * argument, so the only round that can answer is the first, for cell
     * (0, 0), whatever i is. Nothing stands for the `DIE` after the loop.
     */
    method FeatureAsWritten(i: nat) returns (r: Option<real>)
      requires Valid()
      ensures r.Some? ==> r.value == CellValue(cells[0][0])
    {
      var n: nat := 0;
      var k: nat := 0;
      while k < DSize(size)
        invariant (k == 0 ==> n == 0) && (k > 0 ==> n < k)
      {
        var next := k + 1;
        r, n := RoundAsWritten(k, next, n);
        if r.Some? {
          return;
        }
        k := next;
      }
      return Nothing;
    }

    /** Round k of `operator[]` as written: square k answers when it is a valid cell and the count of valid cells before it is k. */
    method RoundAsWritten(k: nat, next: nat, n: nat) returns (r: Option<real>, n': nat)
      requires Valid() && k < DSize(size) && next == k + 1 && (k == 0 ==> n == 0) && (k > 0 ==> n < k)
      ensures r.Some? ==> r.value == CellValue(cells[0][0])
      ensures n' < next
    {
      var dsize := DSize(size);
      var x, y := Column(k, dsize), Row(k, dsize);
      n' := n;
      r := Nothing;
      if Board.Valid(size, x, y) {
        if n == k {
          return Some(CellValue(cells[y][x])), n';
        }
        n' := n + 1;
      }
    }

    /** `operator[](i)` as meant: the input of the i-th valid cell in row-major order. */
    method Feature(i: nat) returns (r: real)
      requires Valid() && i < Area(size)
      ensures i < |Cells(size)| && r == CellValue(cells[Cells(size)[i].1][Cells(size)[i].0])
    {
      AreaIsCellCount(size);
      var n: nat := 0;
      var y: nat := 0;
      while y < DSize(size)
        invariant y <= DSize(size) && n == |RowCells(size, y)| && n <= i
      {
        var found, next := false, y + 1;
        found, r, n := FeatureRow(i, y, next, n);
        if found {
          return;
        }
        y := next;
      }
      assert false;
    }

    /** Row y of `operator[](i)` as meant: its valid cells, the one with count i answering. */
    method FeatureRow(i: nat, y: nat, next: nat, n: nat) returns (found: bool, r: real, n': nat)
      requires Valid() && i < |Cells(size)| && y < DSize(size) && next == y + 1 && n == |RowCells(size, y)| && n <= i
      ensures found ==> r == CellValue(cells[Cells(size)[i].1][Cells(size)[i].0])
      ensures !found ==> n' == |RowCells(size, next)| && n' <= i
    {
      var dsize := DSize(size);
      var x: nat := 0;
      n' := n;
      while x < dsize
        invariant x <= Width(size, y) && n' == |RowCells(size, y)| + x && n' <= i
      {
        if !Board.Valid(size, x, y) {
          break;
        }
        if n' == i {
          CellsAt(size, y, x, i);
          return true, CellValue(cells[y][x]), n';
        }
        n' := n' + 1;
        x := x + 1;
      }
      RowCellsNext(size, y, next);
      found, r := false, 0.0;
    }
  }

  /** The cell x of row y is the one counted after all cells of the rows above it and the x before it. */
  lemma CellsAt(n: nat, y: nat, x: nat, i: nat)
    requires n >= 1 && y < DSize(n) && x < Width(n, y) && i == |RowCells(n, y)| + x
    ensures i < |Cells(n)| && Cells(n)[i] == (x, y)
  {
    RowCellsAt(n, DSize(n), y, x);
  }

  /** One row more adds that row's cells to the count. */
  lemma RowCellsNext(n: nat, y: nat, next: nat)
    requires n >= 1 && next == y + 1 <= DSize(n)
    ensures |RowCells(n, next)| == |RowCells(n, y)| + Width(n, y)
  {
  }

  /** The empty cells met so far, up to cell x of row y, are no more than all of them. */
  lemma EmptiesFit(g: seq<seq<Color>>, n: nat, y: nat, x: nat)
    requires n >= 1 && HexShaped(g, n) && y < DSize(n) && x <= Width(n, y)
    ensures |EmptyRows(g, n, y)| + |RowEmpties(g, n, y, x)| <= |EmptyMoves(g, n)|
  {
    RowEmptiesGrow(g, n, y, x, Width(n, y));
    EmptyRowsGrowTo(g, n, y + 1, DSize(n));
  }

  /** One more square of row y adds that square when it is empty. */
  lemma RowEmptiesNext(g: seq<seq<Color>>, n: nat, y: nat, x: nat, x': nat)
    requires n >= 1 && HexShaped(g, n) && y < DSize(n) && x' <= DSize(n) && x' == x + 1
    ensures RowEmpties(g, n, y, x') == RowEmpties(g, n, y, x) + (if g[y][x] == None then [MoveOf(x, y)] else [])
  {
  }

  lemma {:induction false} RowEmptiesGrow(g: seq<seq<Color>>, n: nat, y: nat, x: nat, x': nat)
    requires n >= 1 && HexShaped(g, n) && y < DSize(n) && x <= x' <= DSize(n)
    ensures |RowEmpties(g, n, y, x)| <= |RowEmpties(g, n, y, x')|
    decreases x'
  {
    if x < x' {
      RowEmptiesGrow(g, n, y, x, x' - 1);
    }
  }

  lemma {:induction false} EmptyRowsGrowTo(g: seq<seq<Color>>, n: nat, k: nat, k': nat)
    requires n >= 1 && HexShaped(g, n) && k <= k' <= DSize(n)
    ensures |EmptyRows(g, n, k)| <= |EmptyRows(g, n, k')|
    decreases k'
  {
    if k < k' {
      EmptyRowsGrowTo(g, n, k, k' - 1);
    }
  }

  /** The rows so far are a prefix of the rows to come, and the next row is appended. */
  lemma EmptyRowsGrow(g: seq<seq<Color>>, n: nat, k: nat)
    requires n >= 1 && HexShaped(g, n) && 1 <= k <= DSize(n)
    ensures EmptyRows(g, n, k) == EmptyRows(g, n, k - 1) + RowEmpties(g, n, k - 1, Width(n, k - 1))
  {
  }
}
