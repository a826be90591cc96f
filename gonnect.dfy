// Gonnect on a MAX_X by MAX_Y board (games/gonnect.h): a move packs its
// column and row into one 16-bit word, the state keeps one colour per
// cell, and the legal moves are the empty cells in column-major order.
module Gonnect {
  import opened Common
  import Turns = State
  import Grid = SquareGrid

  // ----------------------------------------------------------- moves ---

  /** `Move::set(x, y)`: the column in the high byte, the row in the low byte. */
  function Pack(x: nat, y: nat): (m: nat)
    requires x < 256 && y < 256
    ensures m < 0x1_0000
  {
    x * 256 + y
  }

  /** `Move::x()`: bits 8 to 15 of the word. */
  function X(m: nat): (x: nat)
    ensures x < 256
  {
    (m / 256) % 256
  }

  /** `Move::y()`: bits 0 to 7 of the word. */
  function Y(m: nat): (y: nat)
    ensures y < 256
  {
    m % 256
  }

  /** Reading a packed move gives back the column and the row it was set from. */
  lemma PackRoundTrip(x: nat, y: nat)
    requires x < 256 && y < 256
    ensures X(Pack(x, y)) == x && Y(Pack(x, y)) == y
  {
    assert Pack(x, y) / 256 == x;
  }

  /** Every 16-bit word is the packing of its own column and row. */
  lemma UnpackRoundTrip(m: nat)
    requires m < 0x1_0000
    ensures Pack(X(m), Y(m)) == m
  {
    assert m / 256 < 256;
  }

  /** `Move::operator==`: the columns agree and the rows agree. */
  predicate SameMove(a: nat, b: nat)
  {
    X(a) == X(b) && Y(a) == Y(b)
  }

  /** Comparing column and row is the same as comparing the whole 16-bit word. */
  lemma SameMoveIsEquality(a: nat, b: nat)
    requires a < 0x1_0000 && b < 0x1_0000
    ensures SameMove(a, b) <==> a == b
  {
    if SameMove(a, b) {
      UnpackRoundTrip(a);
      UnpackRoundTrip(b);
    }
  }

  /** `MoveList<MAX_MOVES>`: the moves added since the last clear, in order. */
  class MoveList {
    const capacity: nat
    var items: seq<nat>

    /** `MoveList()`, which clears the list. */
    constructor (capacity: nat)
      ensures this.capacity == capacity && items == []
    {
      this.capacity := capacity;
      items := [];
    }

    /** `clear()`: the count back to zero. */
    method Clear()
      modifies this
      ensures items == []
    {
      items := [];
    }

    /**
     * `add(x, y)`, which asserts that two slots stay free after the new
     * move; so a list never holds more than MAX_MOVES - 2 moves.
     */
    method Add(x: nat, y: nat)
      requires x < 256 && y < 256 && |items| + 2 < capacity
      modifies this
      ensures items == old(items) + [Pack(x, y)]
      ensures |items| + 2 <= capacity
    {
      items := items + [Pack(x, y)];
    }
  }

  // --------------------------------------------------------- counting ---

  /** `++count` on the `uint8_t` counter of the list as written. */
  function CountAfterAdd(count: nat): (r: nat)
    requires count < 256
    ensures r < 256
  {
    (count + 1) % 256
  }

  /** The `uint8_t` counter after k adds to a cleared list. */
  function CountAfterAdds(k: nat): (r: nat)
    ensures r < 256
  {
    if k == 0 then 0 else CountAfterAdd(CountAfterAdds(k - 1))
  }

  /** The counter as written keeps the number of adds modulo 256 only. */
  lemma {:induction false} CountAfterAddsWraps(k: nat)
    ensures CountAfterAdds(k) == k % 256
  {
    if k > 0 {
      CountAfterAddsWraps(k - 1);
      var q, r := (k - 1) / 256, (k - 1) % 256;
      if r < 255 {
        Grid.DivModUnique(256, k, r + 1, q);
      } else {
        Grid.DivModUnique(256, k, 0, q + 1);
      }
    }
  }

  /**
   * On a 16 by 16 board with MAX_MOVES = 258 the empty board has 256 legal
   * moves, each add passes its assertion, and the counter ends at 0: the
   * list looks empty, so `moves` would end a game that has not begun.
   */
  lemma EmptySixteenBoardLooksFinished()
    ensures |Open(EmptyBoard(16, 16), 16, 16)| == 256
    ensures forall k :: 0 <= k < 256 ==> CountAfterAdds(k) + 2 < 258
    ensures CountAfterAdds(256) == 0
  {
    EmptyBoardOpen(16, 16, 16);
    forall k | 0 <= k < 256
      ensures CountAfterAdds(k) + 2 < 258
    {
      CountAfterAddsWraps(k);
    }
    CountAfterAddsWraps(256);
  }

  // ----------------------------------------------------------- board ---

  /** A board of `w` columns of `h` cells. */
  predicate Shaped(color: seq<seq<Color>>, w: nat, h: nat)
  {
    |color| == w && forall x :: 0 <= x < w ==> |color[x]| == h
  }

  /** The board `clear()` leaves behind: every cell `NONE`. */
  function EmptyBoard(w: nat, h: nat): (r: seq<seq<Color>>)
    ensures Shaped(r, w, h)
    ensures forall x, y :: 0 <= x < w && 0 <= y < h ==> r[x][y] == None
  {
    seq(w, _ => seq(h, _ => None))
  }

  /** The empty cells among the first y cells of column x, as packed moves in row order. */
  function ColumnOpen(col: seq<Color>, x: nat, y: nat): (r: seq<nat>)
    requires x < 256 && y <= |col| && y <= 256
    ensures |r| <= y
  {
    if y == 0 then []
    else ColumnOpen(col, x, y - 1) + (if col[y - 1] == None then [Pack(x, y - 1)] else [])
  }

  /** Column x lists exactly the empty cells among its first y rows. */
  lemma {:induction false} ColumnOpenExact(col: seq<Color>, x: nat, y: nat, m: nat)
    requires x < 256 && y <= |col| && y <= 256
    ensures m in ColumnOpen(col, x, y) <==> x * 256 <= m < x * 256 + y && col[m - x * 256] == None
  {
    if y > 0 {
      ColumnOpenExact(col, x, y - 1, m);
    }
  }

  /** Strictly increasing, so no entry appears twice. */
  predicate Increasing(r: seq<nat>)
  {
    forall i, j :: 0 <= i < j < |r| ==> r[i] < r[j]
  }

  /** A column's list lies between its first and its last cell, in row order. */
  lemma {:induction false} ColumnOpenSorted(col: seq<Color>, x: nat, y: nat)
    requires x < 256 && y <= |col| && y <= 256
    ensures forall m :: m in ColumnOpen(col, x, y) ==> x * 256 <= m < x * 256 + y
    ensures Increasing(ColumnOpen(col, x, y))
  {
    if y > 0 {
      ColumnOpenSorted(col, x, y - 1);
      var p := ColumnOpen(col, x, y - 1);
      assert forall i :: 0 <= i < |p| ==> p[i] in p;
    }
  }

  /** `moves(c, ml)` over the first x columns: their empty cells, column by column. */
  function Open(color: seq<seq<Color>>, h: nat, x: nat): (r: seq<nat>)
    requires x <= |color| <= 256 && h <= 256 && Shaped(color, |color|, h)
  {
    if x == 0 then [] else Open(color, h, x - 1) + ColumnOpen(color[x - 1], x - 1, h)
  }

  /** The first x columns list moves below column x, in column-major order. */
  lemma {:induction false} OpenSorted(color: seq<seq<Color>>, h: nat, x: nat)
    requires x <= |color| <= 256 && h <= 256 && Shaped(color, |color|, h)
    ensures forall m :: m in Open(color, h, x) ==> m < x * 256
    ensures Increasing(Open(color, h, x))
  {
    if x > 0 {
      OpenSorted(color, h, x - 1);
      ColumnOpenSorted(color[x - 1], x - 1, h);
      var p := Open(color, h, x - 1);
      var q := ColumnOpen(color[x - 1], x - 1, h);
      assert forall i :: 0 <= i < |p| ==> p[i] in p;
      assert forall j :: 0 <= j < |q| ==> q[j] in q;
    }
  }

  /**
   * A move is listed exactly when it names an empty cell of the board,
   * and the list is strictly increasing in the packed word, so it is in
   * column-major order and lists no cell twice.
   */
  lemma {:induction false} OpenExact(color: seq<seq<Color>>, h: nat, x: nat, m: nat)
    requires x <= |color| <= 256 && h <= 256 && Shaped(color, |color|, h)
    ensures m in Open(color, h, x) <==> m < 0x1_0000 && X(m) < x && Y(m) < h && color[X(m)][Y(m)] == None
  {
    if x > 0 {
      OpenExact(color, h, x - 1, m);
      ColumnOpenExact(color[x - 1], x - 1, h, m);
      var col := ColumnOpen(color[x - 1], x - 1, h);
      assert Open(color, h, x) == Open(color, h, x - 1) + col;
      if m < 0x1_0000 {
        UnpackRoundTrip(m);
        assert m == X(m) * 256 + Y(m);
      }
    }
  }

  /** The whole board's list has one entry per empty cell. */
  lemma {:induction false} OpenLength(color: seq<seq<Color>>, h: nat, x: nat)
    requires x <= |color| <= 256 && h <= 256 && Shaped(color, |color|, h)
    ensures |Open(color, h, x)| <= x * h
  {
    if x > 0 {
      OpenLength(color, h, x - 1);
      assert x * h == (x - 1) * h + h;
    }
  }

  /** On the empty board every cell of the first x columns is listed: x times h moves. */
  lemma {:induction false} EmptyBoardOpen(w: nat, h: nat, x: nat)
    requires x <= w <= 256 && h <= 256
    ensures |Open(EmptyBoard(w, h), h, x)| == x * h
  {
    if x > 0 {
      var b := EmptyBoard(w, h);
      EmptyBoardOpen(w, h, x - 1);
      var col := b[x - 1];
      assert forall y :: 0 <= y < h ==> col[y] == None;
      ColumnOpenFull(col, x - 1, h);
      assert Open(b, h, x) == Open(b, h, x - 1) + ColumnOpen(col, x - 1, h);
      assert x * h == (x - 1) * h + h;
    }
  }

  /** A column of empty cells lists all of them. */
  lemma {:induction false} ColumnOpenFull(col: seq<Color>, x: nat, y: nat)
    requires x < 256 && y <= |col| && y <= 256
    requires forall k :: 0 <= k < |col| ==> col[k] == None
    ensures |ColumnOpen(col, x, y)| == y
  {
    if y > 0 {
      ColumnOpenFull(col, x, y - 1);
    }
  }

  /** Listing more rows of a column only extends its list. */
  lemma {:induction false} ColumnOpenGrows(col: seq<Color>, x: nat, y: nat, y': nat)
    requires x < 256 && y <= y' <= |col| && y' <= 256
    ensures |ColumnOpen(col, x, y)| <= |ColumnOpen(col, x, y')|
    decreases y' - y
  {
    if y < y' {
      ColumnOpenGrows(col, x, y + 1, y');
    }
  }

  /** Listing more columns only extends the list. */
  lemma {:induction false} OpenGrows(color: seq<seq<Color>>, h: nat, x: nat, x': nat)
    requires x <= x' <= |color| <= 256 && h <= 256 && Shaped(color, |color|, h)
    ensures |Open(color, h, x)| <= |Open(color, h, x')|
    decreases x' - x
  {
    if x < x' {
      OpenGrows(color, h, x + 1, x');
    }
  }

  // ------------------------------------------------------------ state ---

  /** `State<MAX_X, MAX_Y, MAX_MOVES>`: one colour per cell and the turn bookkeeping. */
  class State {
    const width: nat
    const height: nat
    var color: seq<seq<Color>>
    var winner: Color
    var justPlayed: Color
    var gameOver: bool

    /** The `uint8_t` loops over columns and rows stop only below 256. */
    ghost predicate Valid()
      reads this
    {
      width < 256 && height < 256 && Shaped(color, width, height)
    }

    /** The empty cells of the whole board, as `moves(c, ml)` lists them. */
    function Legal(): (r: seq<nat>)
      reads this
      requires Valid()
    {
      Open(color, height, width)
    }

    function Current(): (r: Color)
      reads this
      ensures r == Other(justPlayed)
    {
      Other(justPlayed)
    }

    function Result(c: Color): (r: real)
      reads this
      ensures r == Turns.Outcome(winner, c)
    {
      Turns.Outcome(winner, c)
    }

    /** `State()`: a cleared board. */
    constructor (width: nat, height: nat)
      requires width < 256 && height < 256
      ensures this.width == width && this.height == height && Valid()
      ensures color == EmptyBoard(width, height)
      ensures winner == None && justPlayed == White && !gameOver
    {
      this.width := width;
      this.height := height;
      color := EmptyBoard(width, height);
      winner := None;
      justPlayed := White;
      gameOver := false;
    }

    /** `clear()`: every cell `NONE`, no winner, the game on and Black to move. */
    method Clear()
      requires Valid()
      modifies this
      ensures Valid() && color == EmptyBoard(width, height)
      ensures winner == None && justPlayed == White && Current() == Black && !gameOver
    {
      color := EmptyBoard(width, height);
      winner := None;
      justPlayed := White;
      gameOver := false;
    }

    /** `copy_from(rhs)`: the whole state is copied. */
    method CopyFrom(rhs: State)
      requires rhs.width == width && rhs.height == height
      modifies this
      ensures color == old(rhs.color) && winner == old(rhs.winner)
      ensures justPlayed == old(rhs.justPlayed) && gameOver == old(rhs.gameOver)
    {
      color := rhs.color;
      winner := rhs.winner;
      justPlayed := rhs.justPlayed;
      gameOver := rhs.gameOver;
    }

    method SetGameOver()
      modifies this
      ensures gameOver && color == old(color)
      ensures winner == old(winner) && justPlayed == old(justPlayed)
    {
      gameOver := true;
    }

    /**
     * `moves(c, ml)`: every empty cell, column by column and row by row
     * within a column, appended to the list; the colour is not consulted.
     */
    method MovesFor(c: Color, ml: MoveList)
      requires Valid()
      requires |Legal()| == 0 || |ml.items| + |Legal()| + 1 < ml.capacity
      modifies ml
      ensures ml.items == old(ml.items) + Legal()
    {
      var x := 0;
      while x < width
        invariant x <= width
        invariant ml.items == old(ml.items) + Open(color, height, x)
      {
        OpenGrows(color, height, x + 1, width);
        NextColumn(ml, x, old(ml.items));
        x := x + 1;
      }
    }

    /** One round of the outer loop of `moves(c, ml)`: column x joins the list. */
    method NextColumn(ml: MoveList, x: nat, ghost start: seq<nat>)
      requires Valid() && x < width
      requires ml.items == start + Open(color, height, x)
      requires |Open(color, height, x + 1)| == 0 || |start| + |Open(color, height, x + 1)| + 1 < ml.capacity
      modifies ml
      ensures ml.items == start + Open(color, height, x + 1)
    {
      ghost var done := Open(color, height, x);
      ghost var col := ColumnOpen(color[x], x, height);
      assert Open(color, height, x + 1) == done + col;
      MovesInColumn(ml, x);
      assert (start + done) + col == start + (done + col);
    }

    /** The inner loop of `moves(c, ml)`: the empty cells of column x in row order. */
    method MovesInColumn(ml: MoveList, x: nat)
      requires Valid() && x < width
      requires |ColumnOpen(color[x], x, height)| == 0 || |ml.items| + |ColumnOpen(color[x], x, height)| + 1 < ml.capacity
      modifies ml
      ensures ml.items == old(ml.items) + ColumnOpen(color[x], x, height)
    {
      var y := 0;
      while y < height
        invariant y <= height
        invariant ml.items == old(ml.items) + ColumnOpen(color[x], x, y)
      {
        ColumnOpenGrows(color[x], x, y + 1, height);
        if color[x][y] == None {
          ml.Add(x, y);
        }
        y := y + 1;
      }
    }

    /**
     * `moves(ml)`: nothing once the game is over; otherwise the side to
     * move's moves, and the game is over when the list is still empty.
     */
    method Moves(ml: MoveList)
      requires Valid()
      requires |Legal()| == 0 || |ml.items| + |Legal()| + 1 < ml.capacity
      modifies this, ml
      ensures Valid() && color == old(color) && winner == old(winner) && justPlayed == old(justPlayed)
      ensures old(gameOver) ==> gameOver && ml.items == old(ml.items)
      ensures !old(gameOver) ==> ml.items == old(ml.items) + Legal()
      ensures !old(gameOver) ==> (gameOver <==> |ml.items| == 0)
    {
      if gameOver {
        return;
      }
      var player := Other(justPlayed);
      MovesFor(player, ml);
      if |ml.items| == 0 {
        gameOver := true;
      }
    }
  }

  /**
   * From a cleared list, the game ends exactly when no cell is empty, and
   * every listed move names an empty cell.
   */
  method MovesFromCleared(s: State, ml: MoveList)
    requires s.Valid() && !s.gameOver
    requires s.width * s.height + 1 < ml.capacity
    modifies s, ml
    ensures s.Valid() && ml.items == s.Legal()
    ensures s.gameOver <==> forall m :: m < 0x1_0000 && X(m) < s.width && Y(m) < s.height ==> s.color[X(m)][Y(m)] != None
  {
    OpenLength(s.color, s.height, s.width);
    ml.Clear();
    s.Moves(ml);
    if s.gameOver {
      forall m | m < 0x1_0000 && X(m) < s.width && Y(m) < s.height
        ensures s.color[X(m)][Y(m)] != None
      {
        OpenExact(s.color, s.height, s.width, m);
      }
    } else {
      var m := ml.items[0];
      OpenExact(s.color, s.height, s.width, m);
    }
  }
}
