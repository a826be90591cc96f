// Druid on a SIZE by SIZE board (games/druid.h): each cell has a height
// and the colour of the stone on top; a move either raises one cell with a
// sarsen or lays a three-cell lintel across two equal supports, and a
// player wins by joining their two edges.
module Druid {
  import opened Common
  import opened Text
  import Turns = State
  import Search

  // ----------------------------------------------------------- moves ---

  datatype Kind = Empty | Sarsen | Lintel
  datatype Direction = XDir | YDir

  /**
   * `Move`: a 4-bit column, a 4-bit row, a type bit (1 for a sarsen) and a
   * direction bit (1 for `XDIR`).
   */
  datatype Move = Move(x: nat, y: nat, sarsenBit: bool, xBit: bool)

  /** `type()`: a set type bit is a sarsen, anything else a lintel. */
  function TypeOf(m: Move): Kind
  {
    if m.sarsenBit then Sarsen else Lintel
  }

  /** `dir()`. */
  function DirOf(m: Move): Direction
  {
    if m.xBit then XDir else YDir
  }

  /**
   * `set(x, y, t, d)`: the coordinates keep their low four bits, and the
   * type and direction read back as set, except that `EMPTY` reads back as
   * a lintel.
   */
  function SetMove(x: nat, y: nat, t: Kind, d: Direction): (m: Move)
    requires x < 256 && y < 256
    ensures m.x == x % 16 && m.y == y % 16
    ensures TypeOf(m) == (if t == Sarsen then Sarsen else Lintel)
    ensures DirOf(m) == d
  {
    Move(x % 16, y % 16, t == Sarsen, d == XDir)
  }

  /** `operator==`: the direction only matters for lintels. */
  predicate SameMove(a: Move, b: Move)
  {
    a.x == b.x && a.y == b.y && TypeOf(a) == TypeOf(b) && (TypeOf(a) == Lintel ==> DirOf(a) == DirOf(b))
  }

  /**
   * Two moves built by `set` are equal exactly when they name the same
   * cell and type, and, for lintels, the same direction.
   */
  lemma SameMoveOfSet(x: nat, y: nat, t: Kind, d: Direction, x': nat, y': nat, t': Kind, d': Direction)
    requires x < 16 && y < 16 && x' < 16 && y' < 16 && t != Empty && t' != Empty
    ensures SameMove(SetMove(x, y, t, d), SetMove(x', y', t', d')) <==>
              x == x' && y == y' && t == t' && (t == Lintel ==> d == d')
  {
  }

  /** A sarsen set with `XDIR` equals one set with `YDIR`, though their bytes differ. */
  lemma SarsenDirectionIgnored(x: nat, y: nat)
    requires x < 16 && y < 16
    ensures SameMove(SetMove(x, y, Sarsen, XDir), SetMove(x, y, Sarsen, YDir))
    ensures SetMove(x, y, Sarsen, XDir) != SetMove(x, y, Sarsen, YDir)
  {
  }

  /** `MoveList<MAX_MOVES>`: the moves added since the last clear, in order. */
  class MoveList {
    const capacity: nat
    var items: seq<Move>

    constructor (capacity: nat)
      ensures this.capacity == capacity && items == []
    {
      this.capacity := capacity;
      items := [];
    }

    method Clear()
      modifies this
      ensures items == []
    {
      items := [];
    }

    /** `addSarsen(x, y)`, which asserts that two slots stay free. */
    method AddSarsen(x: nat, y: nat)
      requires x < 256 && y < 256 && |items| + 2 < capacity
      modifies this
      ensures items == old(items) + [SetMove(x, y, Sarsen, XDir)]
    {
      items := items + [SetMove(x, y, Sarsen, XDir)];
    }

    /** `addLintel(x, y, d)`, which asserts that two slots stay free. */
    method AddLintel(x: nat, y: nat, d: Direction)
      requires x < 256 && y < 256 && |items| + 2 < capacity
      modifies this
      ensures items == old(items) + [SetMove(x, y, Lintel, d)]
    {
      items := items + [SetMove(x, y, Lintel, d)];
    }
  }

  /** k more moves can be added to a list of `count` when each add keeps two slots free. */
  predicate Fits(count: nat, k: nat, capacity: nat)
  {
    k == 0 || count + k + 1 < capacity
  }

  // ----------------------------------------------------------- board ---

  /** A board of n rows of n cells, read as `g[y][x]` like `Square::get(x, y)`. */
  predicate Shaped<T>(g: seq<seq<T>>, n: nat)
  {
    |g| == n && forall y :: 0 <= y < n ==> |g[y]| == n
  }

  /** The heights and the top colours of an n by n board. */
  datatype Position = Position(n: nat, top: seq<seq<nat>>, color: seq<seq<Color>>)

  /** The 4-bit move fields hold the coordinates of boards up to 16 wide. */
  predicate WellFormed(b: Position)
  {
    2 <= b.n <= 16 && Shaped(b.top, b.n) && Shaped(b.color, b.n)
  }

  /** Every height is below `h`. */
  predicate Below(b: Position, h: nat)
    requires WellFormed(b)
  {
    forall y, x :: 0 <= y < b.n && 0 <= x < b.n ==> b.top[y][x] < h
  }

  /** `set(x, y, v)` on one cell. */
  function Put<T>(g: seq<seq<T>>, x: nat, y: nat, v: T): (r: seq<seq<T>>)
    requires y < |g| && x < |g[y]|
    ensures |r| == |g| && forall j :: 0 <= j < |g| ==> |r[j]| == |g[j]|
    ensures forall j, i :: 0 <= j < |g| && 0 <= i < |g[j]| ==> r[j][i] == if i == x && j == y then v else g[j][i]
  {
    g[y := g[y][x := v]]
  }

  /** The board with the cells of columns x up to ex and rows y up to ey set to v. */
  function Covered<T>(g: seq<seq<T>>, x: nat, y: nat, ex: nat, ey: nat, v: T): (r: seq<seq<T>>)
    ensures |r| == |g| && forall j :: 0 <= j < |g| ==> |r[j]| == |g[j]|
    ensures forall j, i :: 0 <= j < |g| && 0 <= i < |g[j]| ==>
              r[j][i] == if x <= i < ex && y <= j < ey then v else g[j][i]
  {
    seq(|g|, j requires 0 <= j < |g| =>
      seq(|g[j]|, i requires 0 <= i < |g[j]| => if x <= i < ex && y <= j < ey then v else g[j][i]))
  }

  /** Two boards of the same shape that agree cell by cell are equal. */
  lemma GridEqual<T>(a: seq<seq<T>>, b: seq<seq<T>>, n: nat)
    requires Shaped(a, n) && Shaped(b, n)
    requires forall j, i :: 0 <= j < n && 0 <= i < n ==> a[j][i] == b[j][i]
    ensures a == b
  {
    forall j | 0 <= j < n ensures a[j] == b[j] {
      assert forall i :: 0 <= i < n ==> a[j][i] == b[j][i];
    }
  }

  /** The column step of direction d. */
  function Dx(d: Direction): nat { if d == XDir then 1 else 0 }

  /** The row step of direction d. */
  function Dy(d: Direction): nat { if d == YDir then 1 else 0 }

  /** A lintel from (x, y) along d lies on the board. */
  predicate Spans(n: nat, x: nat, y: nat, d: Direction)
  {
    x + 2 * Dx(d) < n && y + 2 * Dy(d) < n
  }

  /** `placeSarsen(c, x, y)`: the cell is one higher, in the `uint8_t` height, and shows c. */
  function PlacedSarsen(b: Position, c: Color, x: nat, y: nat): (r: Position)
    requires WellFormed(b) && x < b.n && y < b.n
    ensures WellFormed(r) && r.n == b.n
  {
    b.(top := Put(b.top, x, y, (b.top[y][x] + 1) % 256), color := Put(b.color, x, y, c))
  }

  /** `placeLintel(c, x, y, d)`: the three cells from (x, y) along d all one above the origin. */
  function PlacedLintel(b: Position, c: Color, x: nat, y: nat, d: Direction): (r: Position)
    requires WellFormed(b) && Spans(b.n, x, y, d)
    ensures WellFormed(r) && r.n == b.n
  {
    var ex, ey := x + 2 * Dx(d) + 1, y + 2 * Dy(d) + 1;
    b.(top := Covered(b.top, x, y, ex, ey, (b.top[y][x] + 1) % 256), color := Covered(b.color, x, y, ex, ey, c))
  }

  /** What `move` asks of a move before placing it. */
  predicate Playable(b: Position, c: Color, m: Move)
    requires WellFormed(b)
  {
    if TypeOf(m) == Sarsen then m.x < b.n && m.y < b.n && (b.color[m.y][m.x] == None || b.color[m.y][m.x] == c)
    else Spans(b.n, m.x, m.y, DirOf(m))
  }

  /** The board after `move` places m for c. */
  function Placed(b: Position, c: Color, m: Move): (r: Position)
    requires WellFormed(b) && Playable(b, c, m)
    ensures WellFormed(r) && r.n == b.n
  {
    if TypeOf(m) == Sarsen then PlacedSarsen(b, c, m.x, m.y) else PlacedLintel(b, c, m.x, m.y, DirOf(m))
  }

  // ----------------------------------------------------- legal moves ---

  /** `sarsenMoves`' test: an empty or own cell, low enough for another stone. */
  predicate SarsenOk(b: Position, c: Color, x: nat, y: nat)
    requires WellFormed(b) && x < b.n && y < b.n
  {
    (b.color[y][x] == None || b.color[y][x] == c) && b.top[y][x] < b.n - 2
  }

  /** The sarsens offered in the first k rows of column x. */
  function SarsenColumn(b: Position, c: Color, x: nat, k: nat): (r: seq<Move>)
    requires WellFormed(b) && x < b.n && k <= b.n
  {
    if k == 0 then []
    else SarsenColumn(b, c, x, k - 1) + (if SarsenOk(b, c, x, k - 1) then [SetMove(x, k - 1, Sarsen, XDir)] else [])
  }

  /** The sarsens offered in the first x columns, column by column. */
  function Sarsens(b: Position, c: Color, x: nat): (r: seq<Move>)
    requires WellFormed(b) && x <= b.n
  {
    if x == 0 then [] else Sarsens(b, c, x - 1) + SarsenColumn(b, c, x - 1, b.n)
  }

  /** A sarsen is offered in column x exactly where the cell passes the test. */
  lemma {:induction false} SarsenColumnExact(b: Position, c: Color, x: nat, k: nat, m: Move)
    requires WellFormed(b) && x < b.n && k <= b.n
    ensures m in SarsenColumn(b, c, x, k) <==> m == Move(x, m.y, true, true) && m.y < k && SarsenOk(b, c, x, m.y)
  {
    if k > 0 {
      SarsenColumnExact(b, c, x, k - 1, m);
    }
  }

  /** `sarsenMoves` offers every empty or own cell of height below SIZE - 2, and nothing else. */
  lemma {:induction false} SarsensExact(b: Position, c: Color, x: nat, m: Move)
    requires WellFormed(b) && x <= b.n
    ensures m in Sarsens(b, c, x) <==>
              TypeOf(m) == Sarsen && m.xBit && m.x < x && m.y < b.n && SarsenOk(b, c, m.x, m.y)
  {
    if x > 0 {
      SarsensExact(b, c, x - 1, m);
      SarsenColumnExact(b, c, x - 1, b.n, m);
    }
  }

  /** `tryLintel`'s test, for a lintel that lies on the board. */
  predicate LintelOk(b: Position, c: Color, x: nat, y: nat, d: Direction)
    requires WellFormed(b) && Spans(b.n, x, y, d)
  {
    Resting(b, c, x, y, x + Dx(d), y + Dy(d), x + 2 * Dx(d), y + 2 * Dy(d))
  }

  /**
   * The test on the origin (x, y), the middle (nx, ny) and the far end
   * (mx, my): equal ends, a middle no higher, off the ground, below
   * SIZE - 1, and exactly two supports of colour c, where the middle
   * supports only when it is as high as the ends.
   */
  predicate Resting(b: Position, c: Color, x: nat, y: nat, nx: nat, ny: nat, mx: nat, my: nat)
    requires WellFormed(b) && x < b.n && y < b.n && nx < b.n && ny < b.n && mx < b.n && my < b.n
  {
    var to, tn, tm := b.top[y][x], b.top[ny][nx], b.top[my][mx];
    var supports := (if b.color[y][x] == c then 1 else 0) + (if b.color[my][mx] == c then 1 else 0) +
                    (if tn == to && b.color[ny][nx] == c then 1 else 0);
    to == tm && tn <= to && to != 0 && to <= b.n - 2 && supports == 2
  }

  /** What one call of `tryLintel` adds: the lintel, if its span lies on the board and passes the test. */
  function TryOne(b: Position, c: Color, x: nat, y: nat, d: Direction): seq<Move>
    requires WellFormed(b)
  {
    if Spans(b.n, x, y, d) && LintelOk(b, c, x, y, d) then [SetMove(x, y, Lintel, d)] else []
  }

  /** What the calls at origin (x, y) add, one per direction of ds, in order. */
  function At(b: Position, c: Color, x: nat, y: nat, ds: seq<Direction>): seq<Move>
    requires WellFormed(b)
    decreases |ds|, 1
  {
    if ds == [] then [] else TryFrom(b, c, x, y, ds)
  }

  /** The call along the first direction of ds, then those along the rest. */
  function TryFrom(b: Position, c: Color, x: nat, y: nat, ds: seq<Direction>): seq<Move>
    requires WellFormed(b) && ds != []
    decreases |ds|, 0
  {
    TryOne(b, c, x, y, ds[0]) + At(b, c, x, y, ds[1..])
  }

  /** What the calls at rows y0 up to y of column x add. */
  function ColumnLintels(b: Position, c: Color, x: nat, y0: nat, y: nat, ds: seq<Direction>): seq<Move>
    requires WellFormed(b)
    decreases y
  {
    if y <= y0 then [] else ColumnLintels(b, c, x, y0, y - 1, ds) + At(b, c, x, y - 1, ds)
  }

  /** What the calls at columns x0 up to x, rows y0 up to y1, add, column by column. */
  function BlockLintels(b: Position, c: Color, x0: nat, x: nat, y0: nat, y1: nat, ds: seq<Direction>): seq<Move>
    requires WellFormed(b)
    decreases x
  {
    if x <= x0 then [] else BlockLintels(b, c, x0, x - 1, y0, y1, ds) + ColumnLintels(b, c, x - 1, y0, y1, ds)
  }

  /**
   * The lintels `lintelMoves` offers, in order: both directions from the
   * origins whose span fits both ways, then those of the two edge blocks.
   */
  function Lintels(b: Position, c: Color): seq<Move>
    requires WellFormed(b)
  {
    BlockLintels(b, c, 0, b.n - 2, 0, b.n - 2, [XDir, YDir]) + EdgeLintels(b, c)
  }

  /** `XDIR` from the last two rows, then `YDIR` from the last two columns. */
  function EdgeLintels(b: Position, c: Color): seq<Move>
    requires WellFormed(b)
  {
    BlockLintels(b, c, 0, b.n - 2, b.n - 2, b.n, [XDir]) +
    BlockLintels(b, c, b.n - 2, b.n, 0, b.n - 2, [YDir])
  }

  /** A lintel from (x, y) along d is offered there exactly when it passes the test. */
  predicate OfferedAt(b: Position, c: Color, m: Move)
    requires WellFormed(b)
  {
    TypeOf(m) == Lintel && Spans(b.n, m.x, m.y, DirOf(m)) && LintelOk(b, c, m.x, m.y, DirOf(m))
  }

  lemma {:induction false} AtExact(b: Position, c: Color, x: nat, y: nat, ds: seq<Direction>, m: Move)
    requires WellFormed(b)
    ensures m in At(b, c, x, y, ds) <==> m.x == x && m.y == y && DirOf(m) in ds && OfferedAt(b, c, m)
    decreases |ds|
  {
    if ds != [] {
      AtExact(b, c, x, y, ds[1..], m);
      assert DirOf(m) in ds <==> DirOf(m) == ds[0] || DirOf(m) in ds[1..];
    }
  }

  lemma {:induction false} ColumnLintelsExact(b: Position, c: Color, x: nat, y0: nat, y: nat, ds: seq<Direction>, m: Move)
    requires WellFormed(b)
    ensures m in ColumnLintels(b, c, x, y0, y, ds) <==> m.x == x && y0 <= m.y < y && DirOf(m) in ds && OfferedAt(b, c, m)
    decreases y
  {
    if y > y0 {
      ColumnLintelsExact(b, c, x, y0, y - 1, ds, m);
      AtExact(b, c, x, y - 1, ds, m);
    }
  }

  lemma {:induction false} BlockLintelsExact(b: Position, c: Color, x0: nat, x: nat, y0: nat, y1: nat, ds: seq<Direction>, m: Move)
    requires WellFormed(b)
    ensures m in BlockLintels(b, c, x0, x, y0, y1, ds) <==>
              x0 <= m.x < x && y0 <= m.y < y1 && DirOf(m) in ds && OfferedAt(b, c, m)
    decreases x
  {
    if x > x0 {
      BlockLintelsExact(b, c, x0, x - 1, y0, y1, ds, m);
      ColumnLintelsExact(b, c, x - 1, y0, y1, ds, m);
    }
  }

  /**
   * `lintelMoves` offers a lintel exactly when its span lies on the board
   * and it passes `tryLintel`'s test: the three blocks cover every such
   * origin and direction.
   */
  lemma LintelsExact(b: Position, c: Color, m: Move)
    requires WellFormed(b)
    ensures m in Lintels(b, c) <==> OfferedAt(b, c, m)
  {
    var n := b.n;
    BlockLintelsExact(b, c, 0, n - 2, 0, n - 2, [XDir, YDir], m);
    BlockLintelsExact(b, c, 0, n - 2, n - 2, n, [XDir], m);
    BlockLintelsExact(b, c, n - 2, n, 0, n - 2, [YDir], m);
  }

  lemma {:induction false} ColumnLintelsGrow(b: Position, c: Color, x: nat, y0: nat, y: nat, y': nat, ds: seq<Direction>)
    requires WellFormed(b) && y <= y'
    ensures |ColumnLintels(b, c, x, y0, y, ds)| <= |ColumnLintels(b, c, x, y0, y', ds)|
    decreases y' - y
  {
    if y < y' {
      ColumnLintelsGrow(b, c, x, y0, y + 1, y', ds);
    }
  }

  lemma {:induction false} BlockLintelsGrow(b: Position, c: Color, x0: nat, x: nat, x': nat, y0: nat, y1: nat, ds: seq<Direction>)
    requires WellFormed(b) && x <= x'
    ensures |BlockLintels(b, c, x0, x, y0, y1, ds)| <= |BlockLintels(b, c, x0, x', y0, y1, ds)|
    decreases x' - x
  {
    if x < x' {
      BlockLintelsGrow(b, c, x0, x + 1, x', y0, y1, ds);
    }
  }

  /** Every origin below x1 and y1 spans the board in every direction of ds. */
  predicate Inside(n: nat, x1: nat, y1: nat, ds: seq<Direction>)
  {
    x1 <= n && y1 <= n && (XDir in ds ==> x1 + 2 <= n) && (YDir in ds ==> y1 + 2 <= n)
  }
  /** Everything `moves` offers the side c. */
  function Legal(b: Position, c: Color): seq<Move>
    requires WellFormed(b)
  {
    Sarsens(b, c, b.n) + Lintels(b, c)
  }

  /**
   * No offered move lifts a cell to SIZE or beyond: a sarsen needs a cell
   * below SIZE - 2 and a lintel ends at most SIZE - 2 high, so the heights
   * stay below SIZE and the `uint8_t` never wraps.
   */
  lemma LegalKeepsLow(b: Position, c: Color, m: Move)
    requires WellFormed(b) && Below(b, b.n) && m in Legal(b, c)
    ensures Playable(b, c, m) && Below(Placed(b, c, m), b.n)
  {
    if m in Sarsens(b, c, b.n) {
      SarsensExact(b, c, b.n, m);
      SarsenKeepsLow(b, c, m);
    } else {
      LintelsExact(b, c, m);
      LintelKeepsLow(b, c, m);
    }
  }

  lemma SarsenKeepsLow(b: Position, c: Color, m: Move)
    requires WellFormed(b) && Below(b, b.n) && TypeOf(m) == Sarsen && m.x < b.n && m.y < b.n
    requires SarsenOk(b, c, m.x, m.y)
    ensures Playable(b, c, m) && Below(Placed(b, c, m), b.n)
  {
    var t := b.top[m.y][m.x];
    assert (t + 1) % 256 == t + 1;
    var r := PlacedSarsen(b, c, m.x, m.y);
    forall j, i | 0 <= j < b.n && 0 <= i < b.n ensures r.top[j][i] < b.n {
    }
  }

  lemma LintelKeepsLow(b: Position, c: Color, m: Move)
    requires WellFormed(b) && Below(b, b.n) && OfferedAt(b, c, m)
    ensures Playable(b, c, m) && Below(Placed(b, c, m), b.n)
  {
    var t := b.top[m.y][m.x];
    assert t <= b.n - 2;
    assert (t + 1) % 256 == t + 1;
    var r := PlacedLintel(b, c, m.x, m.y, DirOf(m));
    forall j, i | 0 <= j < b.n && 0 <= i < b.n ensures r.top[j][i] < b.n {
    }
  }

  /**
   * An offered lintel lands level: the cells of its span, (i, j), all end
   * up one above its equal ends, in the mover's colour.
   */
  lemma LintelLandsLevel(b: Position, c: Color, m: Move, i: nat, j: nat)
    requires WellFormed(b) && OfferedAt(b, c, m)
    requires m.x <= i <= m.x + 2 * Dx(DirOf(m)) && m.y <= j <= m.y + 2 * Dy(DirOf(m))
    ensures Playable(b, c, m) && i < b.n && j < b.n
    ensures Placed(b, c, m).top[j][i] == b.top[m.y][m.x] + 1 && Placed(b, c, m).color[j][i] == c
  {
    var t := b.top[m.y][m.x];
    assert t <= b.n - 2;
    assert (t + 1) % 256 == t + 1;
    var d := DirOf(m);
    var r := PlacedLintel(b, c, m.x, m.y, d);
    assert Placed(b, c, m) == r;
    assert m.x <= i < m.x + 2 * Dx(d) + 1 && m.y <= j < m.y + 2 * Dy(d) + 1;
    assert r.top[j][i] == t + 1 && r.color[j][i] == c;
  }

  // ------------------------------------------------------------ score ---

  /** The heights of c's cells in the first k rows of column x. */
  function ColumnWeight(b: Position, c: Color, x: nat, k: nat): nat
    requires WellFormed(b) && x < b.n && k <= b.n
  {
    if k == 0 then 0
    else ColumnWeight(b, c, x, k - 1) + (if b.color[k - 1][x] == c then b.top[k - 1][x] else 0)
  }

  /** The heights of c's cells in the first x columns. */
  function Weight(b: Position, c: Color, x: nat): nat
    requires WellFormed(b) && x <= b.n
  {
    if x == 0 then 0 else Weight(b, c, x - 1) + ColumnWeight(b, c, x - 1, b.n)
  }

  /** The largest group of k has `best` cells, or k has no cell and `best` is 0. */
  ghost predicate Largest(b: Position, k: Color, best: nat)
  {
    (forall e :: Search.Holds(b.color, e, k) ==> 1 <= |Search.Group(b.n, b.color, k, e)| <= best) &&
    (best > 0 ==> exists e :: Search.Holds(b.color, e, k) && |Search.Group(b.n, b.color, k, e)| == best)
  }

  /** `wb - ww` as written: 1 for a Black win, and `0 - (-1)` = 1 for a White win too. */
  function WinBonusAsWritten(gameOver: bool, winner: Color): int
  {
    var wb := if gameOver && winner == Black then 1 else 0;
    var ww := if gameOver && winner == White then -1 else 0;
    wb - ww
  }

  /** The evidently intended bonus: +1 for a Black win, -1 for a White win. */
  function WinBonus(gameOver: bool, winner: Color): (r: int)
    ensures r == 1 <==> gameOver && winner == Black
    ensures r == -1 <==> gameOver && winner == White
    ensures r == 0 <==> !gameOver || !IsPlayer(winner)
  {
    if gameOver && winner == Black then 1 else if gameOver && winner == White then -1 else 0
  }

  /** `score_value`: height balance, plus 20 per cell of longest-group lead, plus 1000 per win. */
  function ScoreValue(cb: int, cw: int, lb: int, lw: int, bonus: int): int
  {
    (cb - cw) * 1 + (lb - lw) * 20 + bonus * 1000
  }

  /** As written, a White win raises Black's score exactly as a Black win does. */
  lemma WhiteWinCountsForBlack()
    ensures WinBonusAsWritten(true, White) == WinBonusAsWritten(true, Black) == 1
    ensures ScoreValue(0, 0, 0, 0, WinBonusAsWritten(true, White)) == 1000
    ensures ScoreValue(0, 0, 0, 0, WinBonus(true, White)) == -1000
  {
  }

  /** With the intended bonus, swapping the colours negates the score. */
  lemma ScoreAntisymmetric(cb: int, cw: int, lb: int, lw: int, gameOver: bool, winner: Color)
    ensures ScoreValue(cw, cb, lw, lb, WinBonus(gameOver, Other(winner))) ==
            -ScoreValue(cb, cw, lb, lw, WinBonus(gameOver, winner))
  {
  }

  // ------------------------------------------------------------ state ---

  /** `State<SIZE, MAX_MOVES>`. */
  class State {
    const size: nat
    var top: seq<seq<nat>>
    var color: seq<seq<Color>>
    var winner: Color
    var justPlayed: Color
    var gameOver: bool
    var scoreCached: bool
    var scoreValue: int

    ghost predicate Valid()
      reads this
    {
      WellFormed(Position(size, top, color)) && IsPlayer(justPlayed)
    }

    function Board(): (b: Position)
      reads this`top, this`color
    {
      Position(size, top, color)
    }

    function Current(): (r: Color)
      reads this`justPlayed
      ensures r == Other(justPlayed)
    {
      Other(justPlayed)
    }

    function Result(c: Color): (r: real)
      reads this`winner
      ensures r == Turns.Outcome(winner, c)
    {
      Turns.Outcome(winner, c)
    }

    /** `State()`: the cleared board. */
    constructor (size: nat)
      requires 2 <= size <= 16
      ensures this.size == size && Valid() && Below(Board(), 1)
      ensures winner == None && justPlayed == White && !gameOver && !scoreCached && scoreValue == 0
    {
      this.size := size;
      top := seq(size, _ => seq(size, _ => 0));
      color := seq(size, _ => seq(size, _ => None));
      winner := None;
      justPlayed := White;
      gameOver := false;
      scoreCached := false;
      scoreValue := 0;
    }

    /** `clear()`: every height 0, every cell `NONE`, Black to move and the cache empty. */
    method Clear()
      requires Valid()
      modifies this
      ensures Valid() && Below(Board(), 1)
      ensures forall y, x :: 0 <= y < size && 0 <= x < size ==> color[y][x] == None
      ensures winner == None && justPlayed == White && Current() == Black
      ensures !gameOver && !scoreCached && scoreValue == 0
    {
      top := seq(size, _ => seq(size, _ => 0));
      color := seq(size, _ => seq(size, _ => None));
      winner := None;
      justPlayed := White;
      gameOver := false;
      scoreCached := false;
      scoreValue := 0;
    }

    /** `copy_from(rhs)`: everything is copied, and then the cached score is dropped. */
    method CopyFrom(rhs: State)
      requires rhs.size == size
      modifies this
      ensures top == old(rhs.top) && color == old(rhs.color) && winner == old(rhs.winner)
      ensures justPlayed == old(rhs.justPlayed) && gameOver == old(rhs.gameOver)
      ensures scoreValue == old(rhs.scoreValue) && !scoreCached
    {
      top := rhs.top;
      color := rhs.color;
      winner := rhs.winner;
      justPlayed := rhs.justPlayed;
      gameOver := rhs.gameOver;
      scoreValue := rhs.scoreValue;
      scoreCached := false;
    }

    method SetGameOver()
      modifies this`gameOver
      ensures gameOver
    {
      gameOver := true;
    }

    /** `placeSarsen(c, x, y)`, which asserts the cell is empty or already c's. */
    method PlaceSarsen(c: Color, x: nat, y: nat)
      requires Valid() && x < size && y < size && (color[y][x] == None || color[y][x] == c)
      modifies this`top, this`color
      ensures Valid() && Board() == PlacedSarsen(old(Board()), c, x, y)
    {
      top := Put(top, x, y, (top[y][x] + 1) % 256);
      color := Put(color, x, y, c);
    }

    /**
     * `placeLintel(c, x, y, d)`: a loop over the columns of the span and,
     * inside it, over its rows, setting each cell to one above the origin,
     * in c.
     */
    method PlaceLintel(c: Color, x: nat, y: nat, d: Direction)
      requires Valid() && Spans(size, x, y, d)
      modifies this`top, this`color
      ensures Valid() && Board() == PlacedLintel(old(Board()), c, x, y, d)
    {
      ghost var b := Board();
      var mx, my := x + 2 * Dx(d), y + 2 * Dy(d);
      var h := (top[y][x] + 1) % 256;
      Paint(c, x, y, mx, my, h);
      PaintedLintel(b, c, x, y, d, top, color);
    }

    /** The two loops of `placeLintel`: columns x to mx, rows y to my, set to height h in c. */
    method Paint(c: Color, x: nat, y: nat, mx: nat, my: nat, h: nat)
      requires Valid() && x <= mx < size && y <= my < size
      modifies this`top, this`color
      ensures Valid()
      ensures top == Covered(old(top), x, y, mx + 1, my + 1, h) && color == Covered(old(color), x, y, mx + 1, my + 1, c)
    {
      var ix := x;
      while ix < mx + 1
        invariant x <= ix <= mx + 1 && Valid()
        invariant Painted(top, old(top), size, x, y, ix, my + 1, h)
        invariant Painted(color, old(color), size, x, y, ix, my + 1, c)
      {
        ghost var top1, color1 := top, color;
        LintelColumn(c, ix, y, my, h, x);
        PaintedStep(top, top1, old(top), size, x, y, ix, my + 1, h);
        PaintedStep(color, color1, old(color), size, x, y, ix, my + 1, c);
        ix := ix + 1;
      }
      PaintedAll(top, old(top), size, x, y, mx + 1, my + 1, h);
      PaintedAll(color, old(color), size, x, y, mx + 1, my + 1, c);
    }

    /** The inner loop of `placeLintel`: rows y to my of column ix. */
    method LintelColumn(c: Color, ix: nat, y: nat, my: nat, h: nat, ghost x: nat)
      requires Valid() && x <= ix < size && y <= my < size
      modifies this`top, this`color
      ensures Valid()
      ensures forall j, i :: 0 <= j < size && 0 <= i < size ==>
                top[j][i] == if i == ix && y <= j <= my then h else old(top[j][i])
      ensures forall j, i :: 0 <= j < size && 0 <= i < size ==>
                color[j][i] == if i == ix && y <= j <= my then c else old(color[j][i])
    {
      var iy := y;
      while iy < my + 1
        invariant y <= iy <= my + 1 && Valid()
        invariant forall j, i :: 0 <= j < size && 0 <= i < size ==>
                    top[j][i] == if i == ix && y <= j < iy then h else old(top[j][i])
        invariant forall j, i :: 0 <= j < size && 0 <= i < size ==>
                    color[j][i] == if i == ix && y <= j < iy then c else old(color[j][i])
      {
        top := Put(top, ix, iy, h);
        color := Put(color, ix, iy, c);
        iy := iy + 1;
      }
    }

    /** Places m for c: the first half of `move`. */
    method Place(c: Color, m: Move)
      requires Valid() && Playable(Board(), c, m)
      modifies this`top, this`color
      ensures Valid() && Board() == Placed(old(Board()), c, m)
    {
      if TypeOf(m) == Sarsen {
        PlaceSarsen(c, m.x, m.y);
      } else {
        PlaceLintel(c, m.x, m.y, DirOf(m));
      }
    }

    /** c joins its two edges: west to east for White, north to south for Black. */
    ghost predicate Won(c: Color)
      reads this`color
    {
      Search.Crossing(size, color, c, if c == White then Search.XDir else Search.YDir)
    }

    /**
     * `move(m)`: the side to move places the sarsen or the lintel, wins if
     * that joins its edges, and hands over the turn. The cached score is
     * left as it was, so it may describe the board before the move.
     */
    method Move(m: Move, pf: Search.PathFinder)
      requires Valid() && pf.size == size && Playable(Board(), Current(), m)
      modifies this, pf
      ensures Valid() && Board() == Placed(old(Board()), old(Current()), m)
      ensures justPlayed == old(Current())
      ensures winner == (if Won(old(Current())) then old(Current()) else old(winner))
      ensures gameOver == (old(gameOver) || Won(old(Current())))
      ensures scoreCached == old(scoreCached) && scoreValue == old(scoreValue)
    {
      var player := Current();
      Place(player, m);
      Settle(player, pf);
    }

    /** The second half of `move`: the path search for c, and the change of turn. */
    method Settle(c: Color, pf: Search.PathFinder)
      requires Valid() && pf.size == size
      modifies this`winner, this`gameOver, this`justPlayed, pf
      ensures justPlayed == c
      ensures winner == (if Won(c) then c else old(winner))
      ensures gameOver == (old(gameOver) || Won(c))
    {
      var found := pf.Connected(c, color);
      if found {
        winner := c;
        gameOver := true;
      }
      justPlayed := c;
    }

    /**
     * `moves(ml)`: nothing once the game is over; otherwise the sarsens and
     * then the lintels of the side to move, and a side with no move ends
     * the game.
     */
    method Moves(ml: MoveList)
      requires Valid() && (!gameOver ==> Fits(|ml.items|, |Legal(Board(), Current())|, ml.capacity))
      modifies this`gameOver, ml
      ensures old(gameOver) ==> gameOver && ml.items == old(ml.items)
      ensures !old(gameOver) ==> ml.items == old(ml.items) + Legal(Board(), Current())
      ensures !old(gameOver) ==> (gameOver <==> |ml.items| == 0)
    {
      if gameOver {
        return;
      }
      var player := Other(justPlayed);
      SarsenMoves(Board(), player, ml);
      LintelMoves(Board(), player, ml);
      Associative(old(ml.items), Sarsens(Board(), player, size), Lintels(Board(), player));
      if |ml.items| == 0 {
        gameOver := true;
      }
    }

    /**
     * `random_move(ml, m)`: lists the moves from scratch and picks one of
     * them; the random draw is any index of the list.
     */
    method RandomMove(ml: MoveList) returns (found: bool, m: Move)
      requires Valid() && (!gameOver ==> Fits(0, |Legal(Board(), Current())|, ml.capacity))
      modifies this`gameOver, ml
      ensures !old(gameOver) ==> ml.items == Legal(Board(), Current())
      ensures found <==> !old(gameOver) && |Legal(Board(), Current())| > 0
      ensures found ==> m in Legal(Board(), Current())
    {
      ml.Clear();
      Moves(ml);
      if |ml.items| == 0 {
        return false, SetMove(0, 0, Sarsen, XDir);
      }
      var i :| 0 <= i < |ml.items|;
      return true, ml.items[i];
    }

    /**
     * `score(maximise)`: the cached value when there is one; otherwise the
     * height balance, the longest groups and the win, stored in the cache.
     * The win counts with the sign of the winner, the intended `WinBonus`;
     * the source's `wb - ww` is `WinBonusAsWritten`, which counts a White
     * win for Black.
     */
    method Score(pf: Search.PathFinder) returns (v: int, ghost lb: nat, ghost lw: nat)
      requires Valid() && pf.size == size
      modifies this`scoreCached, this`scoreValue, pf
      ensures scoreCached && scoreValue == v
      ensures old(scoreCached) ==> v == old(scoreValue)
      ensures !old(scoreCached) ==> Largest(Board(), Black, lb) && Largest(Board(), White, lw)
      ensures !old(scoreCached) ==>
                v == ScoreValue(Weight(Board(), Black, size), Weight(Board(), White, size), lb, lw, WinBonus(gameOver, winner))
    {
      if scoreCached {
        return scoreValue, 0, 0;
      }
      v, lb, lw := Measure(Board(), gameOver, winner, pf);
      scoreValue := v;
      scoreCached := true;
    }

    /** `is_number(s)`: a scan over the leading digits. */
    method IsNumber(s: string) returns (r: bool)
      ensures r == AllDigits(s)
    {
      var i := 0;
      while i < |s| && IsDigit(s[i])
        invariant i <= |s| && forall k :: 0 <= k < i ==> IsDigit(s[k])
      {
        i := i + 1;
      }
      r := |s| != 0 && i == |s|;
    }
  }

  // ------------------------------------------------- listing the moves ---
  // `sarsenMoves`, `tryLintel` and `lintelMoves` only read the board, so
  // here they take it as the value b.

  /** `sarsenMoves(c, ml)`: column by column, row by row. */
  method SarsenMoves(b: Position, c: Color, ml: MoveList)
    requires WellFormed(b) && Fits(|ml.items|, |Sarsens(b, c, b.n)|, ml.capacity)
    modifies ml
    ensures ml.items == old(ml.items) + Sarsens(b, c, b.n)
  {
    var x := 0;
    while x < b.n
      invariant x <= b.n
      invariant ml.items == old(ml.items) + Sarsens(b, c, x)
    {
      SarsensGrow(b, c, x + 1, b.n);
      SarsenColumnMoves(b, c, ml, x, old(ml.items));
      x := x + 1;
    }
  }

  /** The inner loop of `sarsenMoves`: column x joins the list. */
  method SarsenColumnMoves(b: Position, c: Color, ml: MoveList, x: nat, ghost start: seq<Move>)
    requires WellFormed(b) && x < b.n && ml.items == start + Sarsens(b, c, x)
    requires Fits(|start|, |Sarsens(b, c, x + 1)|, ml.capacity)
    modifies ml
    ensures ml.items == start + Sarsens(b, c, x + 1)
  {
    ghost var done := Sarsens(b, c, x);
    var y := 0;
    while y < b.n
      invariant y <= b.n
      invariant ml.items == start + done + SarsenColumn(b, c, x, y)
    {
      SarsenColumnGrows(b, c, x, y + 1, b.n);
      var tc := b.color[y][x];
      if (tc == None || tc == c) && b.top[y][x] < b.n - 2 {
        ml.AddSarsen(x, y);
      }
      y := y + 1;
    }
    Associative(start, done, SarsenColumn(b, c, x, b.n));
  }

  /** `tryLintel(c, ml, x, y, d)`, which asserts that the span lies on the board. */
  method TryLintel(b: Position, c: Color, ml: MoveList, x: nat, y: nat, d: Direction)
    requires WellFormed(b) && Spans(b.n, x, y, d) && Fits(|ml.items|, |TryOne(b, c, x, y, d)|, ml.capacity)
    modifies ml
    ensures ml.items == old(ml.items) + TryOne(b, c, x, y, d)
  {
    var nx, ny, mx, my := x + Dx(d), y + Dy(d), x + 2 * Dx(d), y + 2 * Dy(d);
    var to, tn, tm := b.top[y][x], b.top[ny][nx], b.top[my][mx];
    if to != tm || tn > to || to == 0 || to > b.n - 2 {
      return;
    }
    var count := 0;
    if b.color[y][x] == c {
      count := count + 1;
    }
    if b.color[my][mx] == c {
      count := count + 1;
    }
    if tn == to && b.color[ny][nx] == c {
      count := count + 1;
    }
    if count != 2 {
      return;
    }
    ml.AddLintel(x, y, d);
  }

  /** The calls `lintelMoves` makes at origin (x, y): one per direction of ds. */
  method TryAt(b: Position, c: Color, ml: MoveList, x: nat, y: nat, ds: seq<Direction>)
    requires WellFormed(b) && 1 <= |ds| <= 2 && Inside(b.n, x + 1, y + 1, ds)
    requires Fits(|ml.items|, |At(b, c, x, y, ds)|, ml.capacity)
    modifies ml
    ensures ml.items == old(ml.items) + At(b, c, x, y, ds)
  {
    AtSplit(b, c, x, y, ds);
    TryLintel(b, c, ml, x, y, ds[0]);
    if |ds| == 2 {
      TryLintel(b, c, ml, x, y, ds[1]);
    }
  }

  /** The inner loop of each block of `lintelMoves`: rows y0 up to y1 of column x. */
  method LintelColumnMoves(b: Position, c: Color, ml: MoveList, x: nat, y0: nat, y1: nat, ds: seq<Direction>)
    requires WellFormed(b) && 1 <= |ds| <= 2
    requires y0 <= y1 && x < b.n && Inside(b.n, x + 1, y1, ds)
    requires Fits(|ml.items|, |ColumnLintels(b, c, x, y0, y1, ds)|, ml.capacity)
    modifies ml
    ensures ml.items == old(ml.items) + ColumnLintels(b, c, x, y0, y1, ds)
  {
    var y := y0;
    while y < y1
      invariant y0 <= y <= y1
      invariant ml.items == old(ml.items) + ColumnLintels(b, c, x, y0, y, ds)
    {
      ColumnCell(b, c, ml, x, y0, y, y1, ds, old(ml.items));
      y := y + 1;
    }
  }

  /** One pass of the inner loop of a block: the calls at (x, y) join the list. */
  method ColumnCell(b: Position, c: Color, ml: MoveList, x: nat, y0: nat, y: nat, y1: nat, ds: seq<Direction>, ghost start: seq<Move>)
    requires WellFormed(b) && 1 <= |ds| <= 2
    requires y0 <= y < y1 && x < b.n && Inside(b.n, x + 1, y1, ds)
    requires ml.items == start + ColumnLintels(b, c, x, y0, y, ds)
    requires Fits(|start|, |ColumnLintels(b, c, x, y0, y1, ds)|, ml.capacity)
    modifies ml
    ensures ml.items == start + ColumnLintels(b, c, x, y0, y + 1, ds)
  {
    ColumnStep(b, c, x, y0, y, y1, ds, |start|, ml.capacity);
    TryAt(b, c, ml, x, y, ds);
    Associative(start, ColumnLintels(b, c, x, y0, y, ds), At(b, c, x, y, ds));
  }

  /** One block of `lintelMoves`: columns x0 up to x1, rows y0 up to y1, directions ds. */
  method LintelBlock(b: Position, c: Color, ml: MoveList, x0: nat, x1: nat, y0: nat, y1: nat, ds: seq<Direction>)
    requires WellFormed(b) && 1 <= |ds| <= 2
    requires x0 <= x1 && y0 <= y1 && Inside(b.n, x1, y1, ds)
    requires Fits(|ml.items|, |BlockLintels(b, c, x0, x1, y0, y1, ds)|, ml.capacity)
    modifies ml
    ensures ml.items == old(ml.items) + BlockLintels(b, c, x0, x1, y0, y1, ds)
  {
    var x := x0;
    while x < x1
      invariant x0 <= x <= x1
      invariant ml.items == old(ml.items) + BlockLintels(b, c, x0, x, y0, y1, ds)
    {
      BlockLintelsGrow(b, c, x0, x + 1, x1, y0, y1, ds);
      LintelColumnMoves(b, c, ml, x, y0, y1, ds);
      Associative(old(ml.items), BlockLintels(b, c, x0, x, y0, y1, ds), ColumnLintels(b, c, x, y0, y1, ds));
      x := x + 1;
    }
  }

  /** `lintelMoves(c, ml)`: its three blocks of calls, in order. */
  method LintelMoves(b: Position, c: Color, ml: MoveList)
    requires WellFormed(b) && Fits(|ml.items|, |Lintels(b, c)|, ml.capacity)
    modifies ml
    ensures ml.items == old(ml.items) + Lintels(b, c)
  {
    var n := b.n;
    ghost var start := ml.items;
    FitsSplit(|start|, BlockLintels(b, c, 0, n - 2, 0, n - 2, [XDir, YDir]), EdgeLintels(b, c), ml.capacity);
    LintelBlock(b, c, ml, 0, n - 2, 0, n - 2, [XDir, YDir]);
    EdgeMoves(b, c, ml);
    Associative(start, BlockLintels(b, c, 0, n - 2, 0, n - 2, [XDir, YDir]), EdgeLintels(b, c));
  }

  /** The second and third blocks of `lintelMoves`. */
  method EdgeMoves(b: Position, c: Color, ml: MoveList)
    requires WellFormed(b) && Fits(|ml.items|, |EdgeLintels(b, c)|, ml.capacity)
    modifies ml
    ensures ml.items == old(ml.items) + EdgeLintels(b, c)
  {
    var n := b.n;
    ghost var start := ml.items;
    FitsSplit(|start|, BlockLintels(b, c, 0, n - 2, n - 2, n, [XDir]), BlockLintels(b, c, n - 2, n, 0, n - 2, [YDir]), ml.capacity);
    LintelBlock(b, c, ml, 0, n - 2, n - 2, n, [XDir]);
    LintelBlock(b, c, ml, n - 2, n, 0, n - 2, [YDir]);
    Associative(start, BlockLintels(b, c, 0, n - 2, n - 2, n, [XDir]), BlockLintels(b, c, n - 2, n, 0, n - 2, [YDir]));
  }

  /** The uncached part of `score`: heights, the largest groups of both sides, and the win. */
  method Measure(b: Position, gameOver: bool, winner: Color, pf: Search.PathFinder) returns (v: int, ghost lb: nat, ghost lw: nat)
    requires WellFormed(b) && pf.size == b.n
    modifies pf
    ensures Largest(b, Black, lb) && Largest(b, White, lw)
    ensures v == ScoreValue(Weight(b, Black, b.n), Weight(b, White, b.n), lb, lw, WinBonus(gameOver, winner))
  {
    var cb, cw := Weights(b);
    var gb := pf.Longest(Black, b.color);
    var gw := pf.Longest(White, b.color);
    lb, lw := gb, gw;
    var wb := if gameOver && winner == Black then 1 else 0;
    var ww := if gameOver && winner == White then 1 else 0;
    v := (cb as int - cw as int) * 1 + (gb as int - gw as int) * 20 + (wb - ww) * 1000;
  }

  /** The heights of Black's and of White's cells in column x, as `score` sums them. */
  method ColumnWeights(b: Position, x: nat) returns (cb: nat, cw: nat)
    requires WellFormed(b) && x < b.n
    ensures cb == ColumnWeight(b, Black, x, b.n) && cw == ColumnWeight(b, White, x, b.n)
  {
    cb, cw := 0, 0;
    var y := 0;
    while y < b.n
      invariant y <= b.n
      invariant cb == ColumnWeight(b, Black, x, y) && cw == ColumnWeight(b, White, x, y)
    {
      if b.color[y][x] == Black {
        cb := cb + b.top[y][x];
      } else if b.color[y][x] == White {
        cw := cw + b.top[y][x];
      }
      y := y + 1;
    }
  }

  /** The first loop of `score`: the heights of each side's cells. */
  method Weights(b: Position) returns (cb: nat, cw: nat)
    requires WellFormed(b)
    ensures cb == Weight(b, Black, b.n) && cw == Weight(b, White, b.n)
  {
    cb, cw := 0, 0;
    var x := 0;
    while x < b.n
      invariant x <= b.n
      invariant cb == Weight(b, Black, x) && cw == Weight(b, White, x)
    {
      var kb, kw := ColumnWeights(b, x);
      cb, cw := cb + kb, cw + kw;
      x := x + 1;
    }
  }

  /** A non-empty run of decimal digits. */
  predicate AllDigits(s: string)
  {
    |s| > 0 && forall i :: 0 <= i < |s| ==> IsDigit(s[i])
  }

  /** `s[0]`, which is the terminating `'\0'` of an empty `std::string`. */
  function Head(s: string): char
  {
    if |s| == 0 then '\0' else s[0]
  }

  /**
   * `parse_move(m, tokens)`: a kind letter, two numbers and, for a lintel,
   * a direction letter; each coordinate is `atoi` narrowed to `uint8_t`
   * and then to the move's four bits.
   */
  function ParseMove(tokens: seq<string>): Option<Move>
  {
    if |tokens| < 3 then Nothing
    else if Head(tokens[0]) != 's' && Head(tokens[0]) != 'l' then Nothing
    else if Head(tokens[0]) == 'l' && |tokens| < 4 then Nothing
    else if !AllDigits(tokens[1]) || !AllDigits(tokens[2]) then Nothing
    else
      var x, y := Byte(Atoi(tokens[1])), Byte(Atoi(tokens[2]));
      if Head(tokens[0]) == 's' then Some(SetMove(x, y, Sarsen, XDir))
      else if Head(tokens[3]) == 'x' then Some(SetMove(x, y, Lintel, XDir))
      else if Head(tokens[3]) == 'y' then Some(SetMove(x, y, Lintel, YDir))
      else Nothing
  }

  /** The text of a move: its kind letter, its coordinates and, for a lintel, its direction letter. */
  function MoveTokens(m: Move): seq<string>
  {
    var coords := [Decimal(m.x), Decimal(m.y)];
    if TypeOf(m) == Sarsen then ["s"] + coords
    else ["l"] + coords + [if DirOf(m) == XDir then "x" else "y"]
  }

  /** Every well-formed move reads back from its text, up to `operator==`. */
  lemma ParseMoveTokens(m: Move)
    requires m.x < 16 && m.y < 16
    ensures ParseMove(MoveTokens(m)).Some? && SameMove(ParseMove(MoveTokens(m)).value, m)
    ensures TypeOf(m) == Lintel ==> ParseMove(MoveTokens(m)) == Some(m)
  {
    AtoiDecimal(m.x);
    AtoiDecimal(m.y);
  }

  /** `parse_move` accepts exactly the token lists of the expected form. */
  lemma ParseMoveAccepts(tokens: seq<string>)
    ensures ParseMove(tokens).Some? <==>
              |tokens| >= 3 && AllDigits(tokens[1]) && AllDigits(tokens[2]) &&
              (Head(tokens[0]) == 's' ||
               (Head(tokens[0]) == 'l' && |tokens| >= 4 && (Head(tokens[3]) == 'x' || Head(tokens[3]) == 'y')))
  {
  }

  /** The cells painted so far: columns x up to ex and rows y up to ey hold v. */
  ghost predicate Painted<T>(g: seq<seq<T>>, g0: seq<seq<T>>, n: nat, x: nat, y: nat, ex: nat, ey: nat, v: T)
    requires Shaped(g0, n)
  {
    Shaped(g, n) &&
    forall j, i :: 0 <= j < n && 0 <= i < n ==> g[j][i] == if x <= i < ex && y <= j < ey then v else g0[j][i]
  }

  /** Painting column ix, rows y up to ey, extends the painted block by that column. */
  lemma PaintedStep<T>(g: seq<seq<T>>, g1: seq<seq<T>>, g0: seq<seq<T>>, n: nat, x: nat, y: nat, ix: nat, ey: nat, v: T)
    requires Shaped(g0, n) && Shaped(g, n) && Painted(g1, g0, n, x, y, ix, ey, v)
    requires forall j, i :: 0 <= j < n && 0 <= i < n ==> g[j][i] == if i == ix && y <= j < ey then v else g1[j][i]
    requires x <= ix
    ensures Painted(g, g0, n, x, y, ix + 1, ey, v)
  {
  }

  /** Painting the span of a lintel, one above its origin, places it. */
  lemma PaintedLintel(b: Position, c: Color, x: nat, y: nat, d: Direction, top: seq<seq<nat>>, color: seq<seq<Color>>)
    requires WellFormed(b) && Spans(b.n, x, y, d)
    requires top == Covered(b.top, x, y, x + 2 * Dx(d) + 1, y + 2 * Dy(d) + 1, (b.top[y][x] + 1) % 256)
    requires color == Covered(b.color, x, y, x + 2 * Dx(d) + 1, y + 2 * Dy(d) + 1, c)
    ensures Position(b.n, top, color) == PlacedLintel(b, c, x, y, d)
  {
  }

  /** A finished painting is the covered board. */
  lemma PaintedAll<T>(g: seq<seq<T>>, g0: seq<seq<T>>, n: nat, x: nat, y: nat, ex: nat, ey: nat, v: T)
    requires Shaped(g0, n) && Painted(g, g0, n, x, y, ex, ey, v)
    ensures g == Covered(g0, x, y, ex, ey, v)
  {
    GridEqual(g, Covered(g0, x, y, ex, ey, v), n);
  }

  /** One more row of a column of lintel calls, and the room it needs. */
  lemma ColumnStep(b: Position, c: Color, x: nat, y0: nat, y: nat, y1: nat, ds: seq<Direction>, count: nat, capacity: nat)
    requires WellFormed(b) && y0 <= y < y1 && Fits(count, |ColumnLintels(b, c, x, y0, y1, ds)|, capacity)
    ensures ColumnLintels(b, c, x, y0, y + 1, ds) == ColumnLintels(b, c, x, y0, y, ds) + At(b, c, x, y, ds)
    ensures Fits(count + |ColumnLintels(b, c, x, y0, y, ds)|, |At(b, c, x, y, ds)|, capacity)
  {
    ColumnLintelsGrow(b, c, x, y0, y + 1, y1, ds);
  }

  /** The lintels tried at one origin: along the first direction of ds, then along the second. */
  lemma AtSplit(b: Position, c: Color, x: nat, y: nat, ds: seq<Direction>)
    requires WellFormed(b) && 1 <= |ds| <= 2
    ensures At(b, c, x, y, ds) == TryOne(b, c, x, y, ds[0]) + (if |ds| == 2 then TryOne(b, c, x, y, ds[1]) else [])
  {
    assert At(b, c, x, y, ds) == TryOne(b, c, x, y, ds[0]) + At(b, c, x, y, ds[1..]);
    if |ds| == 2 {
      assert ds[1..][1..] == [];
      assert At(b, c, x, y, ds[1..]) == TryOne(b, c, x, y, ds[1]) + At(b, c, x, y, ds[1..][1..]);
    } else {
      assert ds[1..] == [];
    }
  }

  /** Room for a + b moves is room for a, then for b. */
  lemma FitsSplit<T>(count: nat, a: seq<T>, b: seq<T>, capacity: nat)
    requires Fits(count, |a + b|, capacity)
    ensures Fits(count, |a|, capacity) && Fits(count + |a|, |b|, capacity)
  {
  }

  lemma Associative<T>(a: seq<T>, b: seq<T>, c: seq<T>)
    ensures a + b + c == a + (b + c)
  {
  }

  lemma {:induction false} SarsenColumnGrows(b: Position, c: Color, x: nat, k: nat, k': nat)
    requires WellFormed(b) && x < b.n && k <= k' <= b.n
    ensures |SarsenColumn(b, c, x, k)| <= |SarsenColumn(b, c, x, k')|
    decreases k' - k
  {
    if k < k' {
      SarsenColumnGrows(b, c, x, k + 1, k');
    }
  }

  lemma {:induction false} SarsensGrow(b: Position, c: Color, x: nat, x': nat)
    requires WellFormed(b) && x <= x' <= b.n
    ensures |Sarsens(b, c, x)| <= |Sarsens(b, c, x')|
    decreases x' - x
  {
    if x < x' {
      SarsensGrow(b, c, x + 1, x');
    }
  }
}
