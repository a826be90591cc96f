// Druid on a centred hexagon of side SIZE (games/druidhex.h): the heights and
// stacking rules of Druid on hexagonal cells, where a lintel spans three cells
// going east, south-east or south-west, and a player wins by reaching two
// alternate sides of the hexagon from a third.
module DruidHex {
  import opened Common
  import opened Board
  import Turns = State
  import Druid

  // ----------------------------------------------------------- moves ---

  datatype Kind = Empty | Sarsen | Lintel

  /**
   * `Move`: a 4-bit column, a 4-bit row, a type bit (1 for a sarsen) and a
   * 2-bit direction code.
   */
  datatype Move = Move(x: nat, y: nat, sarsenBit: bool, dirCode: nat)

  /** The directions `set` can encode, which are the ones lintels are laid in. */
  predicate Encodable(d: Direction)
  {
    d == East || d == SE || d == SW
  }

  /** `type()`: a set type bit is a sarsen, anything else a lintel. */
  function TypeOf(m: Move): Kind
  {
    if m.sarsenBit then Sarsen else Lintel
  }

  /** `dir()`: codes 1, 2 and 3 are EAST, SE and SW; any other code is fatal. */
  function DirOf(m: Move): (d: Direction)
    requires 1 <= m.dirCode <= 3
    ensures Encodable(d)
  {
    if m.dirCode == 1 then East else if m.dirCode == 2 then SE else SW
  }

  /** The code `set` stores for an encodable direction; the others are fatal. */
  function Code(d: Direction): (k: nat)
    requires Encodable(d)
    ensures 1 <= k <= 3
  {
    if d == East then 1 else if d == SE then 2 else 3
  }

  /** Encoding then decoding a direction gives it back ... */
  lemma DirOfCode(d: Direction)
    requires Encodable(d)
    ensures DirOf(Move(0, 0, false, Code(d))) == d
  {
  }

  /** ... and decoding then encoding a code gives it back, so the codes 1 to 3 and the three directions correspond one to one. */
  lemma CodeOfDir(m: Move)
    requires 1 <= m.dirCode <= 3
    ensures Code(DirOf(m)) == m.dirCode
  {
  }

  /**
   * `set(x, y, t, d)`: the coordinates keep their low four bits, the type
   * reads back as set (`EMPTY` as a lintel) and the direction as set.
   */
  function SetMove(x: nat, y: nat, t: Kind, d: Direction): (m: Move)
    requires x < 256 && y < 256 && Encodable(d)
    ensures m.x == x % 16 && m.y == y % 16
    ensures TypeOf(m) == (if t == Sarsen then Sarsen else Lintel)
    ensures 1 <= m.dirCode <= 3 && DirOf(m) == d
  {
    Move(x % 16, y % 16, t == Sarsen, Code(d))
  }

  /** `operator==`: the direction only matters for lintels. */
  predicate SameMove(a: Move, b: Move)
  {
    a.x == b.x && a.y == b.y && TypeOf(a) == TypeOf(b) && (TypeOf(a) == Lintel ==> a.dirCode == b.dirCode)
  }

  /**
   * Two moves built by `set` are equal exactly when they name the same
   * cell and type, and, for lintels, the same direction.
   */
  lemma SameMoveOfSet(x: nat, y: nat, t: Kind, d: Direction, x': nat, y': nat, t': Kind, d': Direction)
    requires x < 16 && y < 16 && x' < 16 && y' < 16 && t != Empty && t' != Empty
    requires Encodable(d) && Encodable(d')
    ensures SameMove(SetMove(x, y, t, d), SetMove(x', y', t', d')) <==>
              x == x' && y == y' && t == t' && (t == Lintel ==> d == d')
  {
  }

  /** `MoveList<SIZE, AREA>`: the moves added since the last clear, in order. */
  class MoveList {
    const capacity: nat
    var items: seq<Move>

    constructor (capacity: nat)
      ensures this.capacity == capacity && items == []
    {
      this.capacity := capacity;
      items := [];
    }

    method Clear()
      modifies this
      ensures items == []
    {
      items := [];
    }

    /** `addSarsen(x, y)`, which asserts that two slots stay free; a sarsen is stored with EAST. */
    method AddSarsen(x: nat, y: nat)
      requires x < 256 && y < 256 && |items| + 2 < capacity
      modifies this
      ensures items == old(items) + [SetMove(x, y, Sarsen, East)]
    {
      items := items + [SetMove(x, y, Sarsen, East)];
    }

    /** `addLintel(x, y, d)`, which asserts that two slots stay free. */
    method AddLintel(x: nat, y: nat, d: Direction)
      requires x < 256 && y < 256 && Encodable(d) && |items| + 2 < capacity
      modifies this
      ensures items == old(items) + [SetMove(x, y, Lintel, d)]
    {
      items := items + [SetMove(x, y, Lintel, d)];
    }
  }

  // ----------------------------------------------------------- board ---

  /** A `Hex<T, SIZE>` grid: DSIZE rows of DSIZE entries, read as `g[y][x]`. */
  predicate HexGrid<T>(g: seq<seq<T>>, n: nat)
    requires n >= 1
  {
    |g| == DSize(n) && forall y :: 0 <= y < DSize(n) ==> |g[y]| == DSize(n)
  }

  /** The heights and the top colours of a hexagon of side n. */
  datatype Position = Position(n: nat, top: seq<seq<nat>>, color: seq<seq<Color>>)

  /** The 4-bit move fields hold the coordinates of hexagons up to side 8 (15 rows). */
  predicate WellFormed(b: Position)
  {
    2 <= b.n <= 8 && HexGrid(b.top, b.n) && HexGrid(b.color, b.n)
  }

  /** Every height on the board is below `h`. */
  predicate Below(b: Position, h: nat)
    requires WellFormed(b)
  {
    forall y, x :: 0 <= y < DSize(b.n) && 0 <= x < DSize(b.n) && Board.Valid(b.n, x, y) ==> b.top[y][x] < h
  }

  /** `move(d, x, y)` on a cell: the neighbour in d, or the cell itself when there is none. */
  function Next(n: nat, d: Direction, p: (nat, nat)): (r: (nat, nat))
    requires n >= 1
    ensures Board.Valid(n, p.0, p.1) ==> Board.Valid(n, r.0, r.1)
  {
    if HasMove(n, d, p.0, p.1) then Step(n, d, p.0, p.1) else p
  }

  /** The cell k moves in direction d away from p. */
  function Trail(n: nat, d: Direction, p: (nat, nat), k: nat): (r: (nat, nat))
    requires n >= 1
    ensures Board.Valid(n, p.0, p.1) ==> Board.Valid(n, r.0, r.1)
  {
    if k == 0 then p else Next(n, d, Trail(n, d, p, k - 1))
  }

  /** Cell q is one of the first k cells of the trail from p. */
  predicate OnTrail(n: nat, d: Direction, p: (nat, nat), k: nat, q: (nat, nat))
    requires n >= 1
  {
    k > 0 && (Trail(n, d, p, k - 1) == q || OnTrail(n, d, p, k - 1, q))
  }

  /** The grid with the first k cells of the trail from p set to v, one after the other. */
  function Lay<T>(g: seq<seq<T>>, n: nat, d: Direction, p: (nat, nat), k: nat, v: T): (r: seq<seq<T>>)
    requires n >= 1 && HexGrid(g, n) && Board.Valid(n, p.0, p.1)
    ensures HexGrid(r, n)
  {
    if k == 0 then g
    else
      var q := Trail(n, d, p, k - 1);
      Druid.Put(Lay(g, n, d, p, k - 1, v), q.0, q.1, v)
  }

  /** Laying the first k cells of the trail sets those cells to v and leaves every other cell. */
  lemma {:induction false} LayCells<T>(g: seq<seq<T>>, n: nat, d: Direction, p: (nat, nat), k: nat, v: T)
    requires n >= 1 && HexGrid(g, n) && Board.Valid(n, p.0, p.1)
    ensures forall j, i :: 0 <= j < DSize(n) && 0 <= i < DSize(n) ==>
              Lay(g, n, d, p, k, v)[j][i] == if OnTrail(n, d, p, k, (i, j)) then v else g[j][i]
  {
    if k > 0 {
      LayCells(g, n, d, p, k - 1, v);
    }
  }

  /** Laying one cell more sets the next cell of the trail. */
  lemma LayStep<T>(g: seq<seq<T>>, n: nat, d: Direction, p: (nat, nat), k: nat, v: T)
    requires n >= 1 && HexGrid(g, n) && Board.Valid(n, p.0, p.1)
    ensures Trail(n, d, p, k + 1) == Next(n, d, Trail(n, d, p, k))
    ensures Board.Valid(n, Trail(n, d, p, k).0, Trail(n, d, p, k).1)
    ensures Lay(g, n, d, p, k + 1, v) == Druid.Put(Lay(g, n, d, p, k, v), Trail(n, d, p, k).0, Trail(n, d, p, k).1, v)
  {
  }

  /** `placeSarsen(c, x, y)`: the cell is one higher, in the `uint8_t` height, and shows c. */
  function PlacedSarsen(b: Position, c: Color, x: nat, y: nat): (r: Position)
    requires WellFormed(b) && Board.Valid(b.n, x, y)
    ensures WellFormed(r) && r.n == b.n
  {
    b.(top := Druid.Put(b.top, x, y, (b.top[y][x] + 1) % 256), color := Druid.Put(b.color, x, y, c))
  }

  /**
   * `placeLintel(c, x, y, d)`: three rounds of setting the cell one above
   * the origin, in c, and moving on along d (staying put at the edge).
   */
  function PlacedLintel(b: Position, c: Color, x: nat, y: nat, d: Direction): (r: Position)
    requires WellFormed(b) && Board.Valid(b.n, x, y)
    ensures WellFormed(r) && r.n == b.n
  {
    var z := (b.top[y][x] + 1) % 256;
    b.(top := Lay(b.top, b.n, d, (x, y), 3, z), color := Lay(b.color, b.n, d, (x, y), 3, c))
  }

  /** What `move` asks of a move: a sarsen on an empty or own cell, a lintel with a direction code `dir()` accepts. */
  predicate Playable(b: Position, c: Color, m: Move)
    requires WellFormed(b)
  {
    Board.Valid(b.n, m.x, m.y) &&
    if TypeOf(m) == Sarsen then b.color[m.y][m.x] == None || b.color[m.y][m.x] == c
    else 1 <= m.dirCode <= 3
  }

  /** The board after `move` places m for c. */
  function Placed(b: Position, c: Color, m: Move): (r: Position)
    requires WellFormed(b) && Playable(b, c, m)
    ensures WellFormed(r) && r.n == b.n
  {
    if TypeOf(m) == Sarsen then PlacedSarsen(b, c, m.x, m.y) else PlacedLintel(b, c, m.x, m.y, DirOf(m))
  }

  // --------------------------------------------------------- sarsens ---

  /** `sarsenMoves`' test: an empty or own cell, low enough for another stone. */
  predicate SarsenOk(b: Position, c: Color, x: nat, y: nat)
    requires WellFormed(b) && Board.Valid(b.n, x, y)
  {
    (b.color[y][x] == None || b.color[y][x] == c) && b.top[y][x] < b.n - 2
  }

  /** The sarsens offered in the first x cells of row y. */
  function RowSarsens(b: Position, c: Color, y: nat, x: nat): seq<Move>
    requires WellFormed(b) && y < DSize(b.n) && x <= Width(b.n, y)
  {
    if x == 0 then []
    else RowSarsens(b, c, y, x - 1) + (if SarsenOk(b, c, x - 1, y) then [SetMove(x - 1, y, Sarsen, East)] else [])
  }

  /** The sarsens offered in the first k rows, row by row. */
  function Sarsens(b: Position, c: Color, k: nat): seq<Move>
    requires WellFormed(b) && k <= DSize(b.n)
  {
    if k == 0 then [] else Sarsens(b, c, k - 1) + RowSarsens(b, c, k - 1, Width(b.n, k - 1))
  }

  lemma {:induction false} RowSarsensExact(b: Position, c: Color, y: nat, x: nat, m: Move)
    requires WellFormed(b) && y < DSize(b.n) && x <= Width(b.n, y)
    ensures m in RowSarsens(b, c, y, x) <==> m == Move(m.x, y, true, 1) && m.x < x && SarsenOk(b, c, m.x, y)
  {
    if x > 0 {
      RowSarsensExact(b, c, y, x - 1, m);
    }
  }

  /**
   * `sarsenMoves` offers a sarsen, stored with EAST, on every valid cell
   * that is empty or c's and lower than SIZE - 2, and nothing else.
   */
  lemma {:induction false} SarsensExact(b: Position, c: Color, k: nat, m: Move)
    requires WellFormed(b) && k <= DSize(b.n)
    ensures m in Sarsens(b, c, k) <==>
              TypeOf(m) == Sarsen && m.dirCode == 1 && m.y < k && Board.Valid(b.n, m.x, m.y) && SarsenOk(b, c, m.x, m.y)
  {
    if k > 0 {
      SarsensExact(b, c, k - 1, m);
      RowSarsensExact(b, c, k - 1, Width(b.n, k - 1), m);
    }
  }

  // --------------------------------------------------------- lintels ---

  /**
   * The two readings of `lintelMoves`: as written it tries the origins of
   * the first SIZE rows and columns only, and `tryLintel` also asks for a
   * neighbour beyond the far end; as intended it tries every valid origin
   * and asks only that the three cells lie on the board.
   */
  datatype Rule = AsWritten | Intended

  /**
   * The three cells from (x, y) along d lie on the board; as written,
   * `tryLintel` also asks `has_move(d)` of the far end.
   */
  predicate Spans(n: nat, x: nat, y: nat, d: Direction, rule: Rule)
    requires n >= 1
  {
    var p := (x, y);
    Board.Valid(n, x, y) && HasMove(n, d, x, y) &&
    HasMove(n, d, Trail(n, d, p, 1).0, Trail(n, d, p, 1).1) &&
    (rule == AsWritten ==> HasMove(n, d, Trail(n, d, p, 2).0, Trail(n, d, p, 2).1))
  }

  /**
   * `tryLintel`'s test on the origin (x, y), the middle and the far end:
   * equal ends, a middle no higher, off the ground, at most SIZE - 2, and
   * exactly two supports of colour c, where the middle supports only when
   * it is as high as the ends.
   */
  predicate LintelOk(b: Position, c: Color, x: nat, y: nat, d: Direction)
    requires WellFormed(b) && Spans(b.n, x, y, d, Intended)
  {
    var (nx, ny) := Trail(b.n, d, (x, y), 1);
    var (mx, my) := Trail(b.n, d, (x, y), 2);
    var to, tn, tm := b.top[y][x], b.top[ny][nx], b.top[my][mx];
    var supports := (if b.color[y][x] == c then 1 else 0) + (if b.color[my][mx] == c then 1 else 0) +
                    (if tn == to && b.color[ny][nx] == c then 1 else 0);
    to == tm && tn <= to && to != 0 && to <= b.n - 2 && supports == 2
  }

  /** What one call of `tryLintel(c, ml, x, y, d)` adds under a rule. */
  function TryOne(b: Position, c: Color, x: nat, y: nat, d: Direction, rule: Rule): seq<Move>
    requires WellFormed(b) && Encodable(d)
  {
    if Spans(b.n, x, y, d, rule) && LintelOk(b, c, x, y, d) then [SetMove(x, y, Lintel, d)] else []
  }

  /** The direction of call k at an origin: EAST, SE, then SW. */
  function LintelDir(k: nat): (d: Direction)
    requires k < 3
    ensures Encodable(d) && Code(d) == k + 1
  {
    [East, SE, SW][k]
  }

  /**
   * The calls at origin (x, y) from call k on. The test of each call sits
   * in `TryFrom`, so that it is only looked at where a proof asks for it.
   */
  function CallsFrom(b: Position, c: Color, x: nat, y: nat, rule: Rule, k: nat): seq<Move>
    requires WellFormed(b) && k <= 3
    decreases 3 - k, 1
  {
    if k == 3 then [] else TryFrom(b, c, x, y, rule, k)
  }

  /** Call k at origin (x, y), then the ones after it. */
  function TryFrom(b: Position, c: Color, x: nat, y: nat, rule: Rule, k: nat): seq<Move>
    requires WellFormed(b) && k < 3
    decreases 3 - k, 0
  {
    var d := LintelDir(k);
    (if Spans(b.n, x, y, d, rule) && LintelOk(b, c, x, y, d) then [SetMove(x, y, Lintel, d)] else []) +
    CallsFrom(b, c, x, y, rule, k + 1)
  }

  /** The three calls at origin (x, y): EAST, SE, then SW. */
  function At(b: Position, c: Color, x: nat, y: nat, rule: Rule): seq<Move>
    requires WellFormed(b)
  {
    CallsFrom(b, c, x, y, rule, 0)
  }

  /** The offers of indices 0 .. k - 1, laid end to end. */
  function Gather(f: nat -> seq<Move>, k: nat): seq<Move>
  {
    if k == 0 then [] else Gather(f, k - 1) + f(k - 1)
  }

  /** The calls at each origin of row y, by column. */
  function CellOffers(b: Position, c: Color, y: nat, rule: Rule): nat -> seq<Move>
    requires WellFormed(b)
  {
    (x: nat) => At(b, c, x, y, rule)
  }

  /** The calls at the first x origins of row y. */
  function RowLintels(b: Position, c: Color, y: nat, x: nat, rule: Rule): seq<Move>
    requires WellFormed(b)
  {
    Gather(CellOffers(b, c, y, rule), x)
  }

  /** The rows `lintelMoves` visits: SIZE as written, all DSIZE as intended. */
  function Rows(n: nat, rule: Rule): (r: nat)
    requires n >= 1
    ensures r <= DSize(n)
  {
    if rule == AsWritten then n else DSize(n)
  }

  /**
   * The origins it visits in row y: SIZE of them as written (every row is
   * at least SIZE wide, so the loop's `break` never fires), the whole row
   * as intended.
   */
  function RowEnd(n: nat, y: nat, rule: Rule): nat
    requires n >= 1 && y < DSize(n)
  {
    if rule == AsWritten then n else Width(n, y)
  }

  /** The calls of each row up to its end under the rule, by row. */
  function RowOffers(b: Position, c: Color, rule: Rule): nat -> seq<Move>
    requires WellFormed(b)
  {
    (y: nat) => if y < DSize(b.n) then RowLintels(b, c, y, RowEnd(b.n, y, rule), rule) else []
  }

  /** The calls of the first k rows, row by row. */
  function BlockLintels(b: Position, c: Color, k: nat, rule: Rule): seq<Move>
    requires WellFormed(b) && k <= DSize(b.n)
  {
    Gather(RowOffers(b, c, rule), k)
  }

  /** The lintels `lintelMoves(c, ml)` offers under a rule, in order. */
  function Lintels(b: Position, c: Color, rule: Rule): seq<Move>
    requires WellFormed(b)
  {
    BlockLintels(b, c, Rows(b.n, rule), rule)
  }

  /** A lintel move whose span passes the rule's board test and `tryLintel`'s test. */
  predicate OfferedBy(b: Position, c: Color, m: Move, rule: Rule)
    requires WellFormed(b)
  {
    TypeOf(m) == Lintel && 1 <= m.dirCode <= 3 &&
    Spans(b.n, m.x, m.y, DirOf(m), rule) && LintelOk(b, c, m.x, m.y, DirOf(m))
  }

  lemma TryOneExact(b: Position, c: Color, x: nat, y: nat, d: Direction, rule: Rule, m: Move)
    requires WellFormed(b) && Encodable(d)
    ensures m in TryOne(b, c, x, y, d, rule) <==> m.x == x && m.y == y && OfferedBy(b, c, m, rule) && DirOf(m) == d
  {
    if m.x == x && m.y == y && OfferedBy(b, c, m, rule) && DirOf(m) == d {
      CodeOfDir(m);
    }
  }

  lemma TryFromSplit(b: Position, c: Color, x: nat, y: nat, rule: Rule, k: nat)
    requires WellFormed(b) && k < 3
    ensures CallsFrom(b, c, x, y, rule, k) == TryOne(b, c, x, y, LintelDir(k), rule) + CallsFrom(b, c, x, y, rule, k + 1)
  {
  }

  /** The three calls at an origin are `tryLintel` along EAST, SE and SW, in that order. */
  lemma AtSplit(b: Position, c: Color, x: nat, y: nat, rule: Rule)
    requires WellFormed(b)
    ensures At(b, c, x, y, rule) ==
              TryOne(b, c, x, y, East, rule) + TryOne(b, c, x, y, SE, rule) + TryOne(b, c, x, y, SW, rule)
  {
    assert LintelDir(0) == East && LintelDir(1) == SE && LintelDir(2) == SW;
    TryFromSplit(b, c, x, y, rule, 0);
    TryFromSplit(b, c, x, y, rule, 1);
    TryFromSplit(b, c, x, y, rule, 2);
    assert CallsFrom(b, c, x, y, rule, 3) == [];
    Chain3(CallsFrom(b, c, x, y, rule, 0), CallsFrom(b, c, x, y, rule, 1), CallsFrom(b, c, x, y, rule, 2),
           TryOne(b, c, x, y, East, rule), TryOne(b, c, x, y, SE, rule), TryOne(b, c, x, y, SW, rule));
  }

  lemma Chain3<T>(x0: seq<T>, x1: seq<T>, x2: seq<T>, t0: seq<T>, t1: seq<T>, t2: seq<T>)
    requires x0 == t0 + x1 && x1 == t1 + x2 && x2 == t2 + []
    ensures x0 == t0 + t1 + t2
  {
    assert t2 + [] == t2;
  }

  /** The calls from k on offer the lintels from (x, y) whose direction code is above k. */
  lemma {:induction false} CallsFromExact(b: Position, c: Color, x: nat, y: nat, rule: Rule, k: nat, m: Move)
    requires WellFormed(b) && k <= 3
    ensures m in CallsFrom(b, c, x, y, rule, k) <==> m.x == x && m.y == y && OfferedBy(b, c, m, rule) && m.dirCode > k
    decreases 3 - k
  {
    if k < 3 {
      CallsFromExact(b, c, x, y, rule, k + 1, m);
      TryFromSplit(b, c, x, y, rule, k);
      TryOneExact(b, c, x, y, LintelDir(k), rule, m);
      if 1 <= m.dirCode <= 3 {
        CodeOfDir(m);
      }
    }
  }

  lemma AtExact(b: Position, c: Color, x: nat, y: nat, rule: Rule, m: Move)
    requires WellFormed(b)
    ensures m in At(b, c, x, y, rule) <==> m.x == x && m.y == y && OfferedBy(b, c, m, rule)
  {
    CallsFromExact(b, c, x, y, rule, 0, m);
  }

  /** Every call at origin (x, y) offers a lintel from (x, y). */
  lemma {:induction false} CallsFromCell(b: Position, c: Color, x: nat, y: nat, rule: Rule, k: nat, m: Move)
    requires WellFormed(b) && k <= 3 && m in CallsFrom(b, c, x, y, rule, k)
    ensures m.x == x && m.y == y
    decreases 3 - k
  {
    TryFromSplit(b, c, x, y, rule, k);
    if m !in TryOne(b, c, x, y, LintelDir(k), rule) {
      CallsFromCell(b, c, x, y, rule, k + 1, m);
    }
  }

  /** A move only index `key` can offer is gathered exactly when `key` is among the first k. */
  lemma {:induction false} GatherIn(f: nat -> seq<Move>, k: nat, key: nat, m: Move)
    requires forall i :: m in f(i) ==> i == key
    ensures m in Gather(f, k) <==> key < k && m in f(key)
  {
    if k > 0 {
      GatherIn(f, k - 1, key, m);
    }
  }

  /** Gathering more indices never gives fewer offers. */
  lemma {:induction false} GatherGrow(f: nat -> seq<Move>, k: nat, k': nat)
    requires k <= k'
    ensures |Gather(f, k)| <= |Gather(f, k')|
    decreases k' - k
  {
    if k < k' {
      GatherGrow(f, k + 1, k');
    }
  }

  /** Every call of row y offers a lintel from its own origin. */
  lemma AtOwnCell(b: Position, c: Color, y: nat, rule: Rule, m: Move)
    requires WellFormed(b)
    ensures forall x :: m in CellOffers(b, c, y, rule)(x) ==> x == m.x && y == m.y
  {
    forall x | m in CellOffers(b, c, y, rule)(x)
      ensures x == m.x && y == m.y
    {
      CallsFromCell(b, c, x, y, rule, 0, m);
    }
  }

  /** The first k rows, each up to its end, offer what the calls at m's own origin offer, when that origin is among them. */
  lemma BlockLintelsIn(b: Position, c: Color, k: nat, rule: Rule, m: Move)
    requires WellFormed(b) && k <= DSize(b.n)
    ensures m in BlockLintels(b, c, k, rule) <==> m.y < k && m.x < RowEnd(b.n, m.y, rule) && m in At(b, c, m.x, m.y, rule)
  {
    AtOwnCell(b, c, m.y, rule, m);
    GatherIn(CellOffers(b, c, m.y, rule), if m.y < DSize(b.n) then RowEnd(b.n, m.y, rule) else 0, m.x, m);
    forall y | m in RowOffers(b, c, rule)(y)
      ensures y == m.y
    {
      AtOwnCell(b, c, y, rule, m);
      GatherIn(CellOffers(b, c, y, rule), RowEnd(b.n, y, rule), m.x, m);
    }
    GatherIn(RowOffers(b, c, rule), k, m.y, m);
  }

  /**
   * As written, `lintelMoves` offers exactly the lintels whose origin lies
   * in the first SIZE rows and columns, whose far end has a further
   * neighbour along the lintel, and which pass `tryLintel`'s test.
   */
  lemma LintelsAsWritten(b: Position, c: Color, m: Move)
    requires WellFormed(b)
    ensures m in Lintels(b, c, AsWritten) <==> m.x < b.n && m.y < b.n && OfferedBy(b, c, m, AsWritten)
  {
    BlockLintelsIn(b, c, b.n, AsWritten, m);
    AtExact(b, c, m.x, m.y, AsWritten, m);
  }

  /** As intended, it offers exactly the lintels whose three cells lie on the board and which pass the test. */
  lemma LintelsIntended(b: Position, c: Color, m: Move)
    requires WellFormed(b)
    ensures m in Lintels(b, c, Intended) <==> OfferedBy(b, c, m, Intended)
  {
    BlockLintelsIn(b, c, DSize(b.n), Intended, m);
    AtExact(b, c, m.x, m.y, Intended, m);
  }

  /**
   * A side-3 board with two ledges of height 1, each three cells long: the
   * first three cells of the top row and of row 3, the first two of each
   * Black.
   */
  function Ledges(): (b: Position)
    ensures WellFormed(b) && b.n == 3
  {
    Position(3, seq(5, y => seq(5, x => if (y == 0 || y == 3) && x < 3 then 1 else 0)),
                seq(5, y => seq(5, x => if (y == 0 || y == 3) && x < 2 then Black else None)))
  }

  /**
   * As written, the lintel along the top edge of `Ledges()` is never
   * offered: its far end (2, 0) is a corner with no cell to the east,
   * though all three of its cells are on the board and it passes the test.
   */
  lemma FarEndRefused(b: Position)
    requires b == Ledges()
    ensures OfferedBy(b, Black, SetMove(0, 0, Lintel, East), Intended)
    ensures SetMove(0, 0, Lintel, East) in Lintels(b, Black, Intended)
    ensures SetMove(0, 0, Lintel, East) !in Lintels(b, Black, AsWritten)
  {
    var m := SetMove(0, 0, Lintel, East);
    LedgeLintel(0);
    assert !HasMove(3, East, 2, 0);
    LintelsIntended(b, Black, m);
    LintelsAsWritten(b, Black, m);
  }

  /**
   * As written, the lintel along row 3 of `Ledges()` is never offered
   * either, though it passes even the far-end test: row 3 is past the
   * first SIZE rows the loop visits.
   */
  lemma LowerRowRefused(b: Position)
    requires b == Ledges()
    ensures OfferedBy(b, Black, SetMove(0, 3, Lintel, East), AsWritten)
    ensures SetMove(0, 3, Lintel, East) in Lintels(b, Black, Intended)
    ensures SetMove(0, 3, Lintel, East) !in Lintels(b, Black, AsWritten)
  {
    var m := SetMove(0, 3, Lintel, East);
    LedgeLintel(3);
    assert HasMove(3, East, 2, 3);
    assert b.n == 3 && Spans(3, 0, 3, East, AsWritten);
    assert DirOf(m) == East && TypeOf(m) == Lintel && m.x == 0 && m.y == 3;
    assert LintelOk(b, Black, 0, 3, East);
    assert OfferedBy(b, Black, m, AsWritten);
    LintelsIntended(b, Black, m);
    LintelsAsWritten(b, Black, m);
  }

  /** The lintel east along either ledge of `Ledges()` spans three cells and passes `tryLintel`'s test. */
  lemma LedgeLintel(y: nat)
    requires y == 0 || y == 3
    ensures Trail(3, East, (0, y), 1) == (1, y) && Trail(3, East, (0, y), 2) == (2, y)
    ensures Spans(3, 0, y, East, Intended) && LintelOk(Ledges(), Black, 0, y, East)
  {
    var b := Ledges();
    assert Trail(3, East, (0, y), 1) == (1, y);
    assert Trail(3, East, (0, y), 2) == (2, y);
    assert b.top[y][0] == 1 && b.top[y][1] == 1 && b.top[y][2] == 1;
    assert b.color[y][0] == Black && b.color[y][1] == Black && b.color[y][2] == None;
  }

  // ------------------------------------------------------ placements ---

  /** Everything `moves` offers the side c: the sarsens, then the lintels as intended. */
  function Legal(b: Position, c: Color): seq<Move>
    requires WellFormed(b)
  {
    Sarsens(b, c, DSize(b.n)) + Lintels(b, c, Intended)
  }

  /**
   * An offered lintel covers three distinct cells, each of which ends one
   * above its equal ends and in the mover's colour; no other cell changes.
   */
  lemma LintelLandsLevel(b: Position, c: Color, m: Move)
    requires WellFormed(b) && OfferedBy(b, c, m, Intended)
    ensures Playable(b, c, m)
    ensures var p := (m.x, m.y);
            var d := DirOf(m);
            Trail(b.n, d, p, 0) != Trail(b.n, d, p, 1) && Trail(b.n, d, p, 1) != Trail(b.n, d, p, 2) &&
            Trail(b.n, d, p, 0) != Trail(b.n, d, p, 2)
    ensures forall j, i :: 0 <= j < DSize(b.n) && 0 <= i < DSize(b.n) ==>
              Placed(b, c, m).top[j][i] ==
                (if OnTrail(b.n, DirOf(m), (m.x, m.y), 3, (i, j)) then b.top[m.y][m.x] + 1 else b.top[j][i])
    ensures forall j, i :: 0 <= j < DSize(b.n) && 0 <= i < DSize(b.n) ==>
              Placed(b, c, m).color[j][i] == (if OnTrail(b.n, DirOf(m), (m.x, m.y), 3, (i, j)) then c else b.color[j][i])
  {
    var d, p := DirOf(m), (m.x, m.y);
    var t := b.top[m.y][m.x];
    assert t <= b.n - 2;
    assert (t + 1) % 256 == t + 1;
    assert Placed(b, c, m) == PlacedLintel(b, c, m.x, m.y, d);
    var z: nat := (t + 1) % 256;
    assert z == t + 1;
    assert Placed(b, c, m).top == Lay(b.top, b.n, d, p, 3, z);
    LayCells(b.top, b.n, d, p, 3, z);
    LayCells(b.color, b.n, d, p, 3, c);
    TrailDistinct(b.n, d, p);
  }

  /** Along EAST, SE or SW the three cells of a span are distinct: each move goes right or down. */
  lemma TrailDistinct(n: nat, d: Direction, p: (nat, nat))
    requires n >= 1 && Encodable(d) && Spans(n, p.0, p.1, d, Intended)
    ensures Trail(n, d, p, 0) != Trail(n, d, p, 1) && Trail(n, d, p, 1) != Trail(n, d, p, 2)
    ensures Trail(n, d, p, 0) != Trail(n, d, p, 2)
  {
    var q, r := Trail(n, d, p, 1), Trail(n, d, p, 2);
    assert Trail(n, d, p, 0) == p;
    assert q == Next(n, d, p) == Step(n, d, p.0, p.1);
    assert r == Next(n, d, q) == Step(n, d, q.0, q.1);
  }

  /**
   * No offered move lifts a cell to SIZE or beyond: a sarsen needs a cell
   * below SIZE - 2 and a lintel ends at most SIZE - 1 high, so the heights
   * stay below SIZE and the `uint8_t` never wraps.
   */
  lemma LegalKeepsLow(b: Position, c: Color, m: Move)
    requires WellFormed(b) && Below(b, b.n) && m in Legal(b, c)
    ensures Playable(b, c, m) && Below(Placed(b, c, m), b.n)
  {
    if m in Sarsens(b, c, DSize(b.n)) {
      SarsensExact(b, c, DSize(b.n), m);
      SarsenKeepsLow(b, c, m);
    } else {
      LintelsIntended(b, c, m);
      LintelKeepsLow(b, c, m);
    }
  }

  lemma SarsenKeepsLow(b: Position, c: Color, m: Move)
    requires WellFormed(b) && Below(b, b.n) && TypeOf(m) == Sarsen
    requires Board.Valid(b.n, m.x, m.y) && SarsenOk(b, c, m.x, m.y)
    ensures Playable(b, c, m) && Below(Placed(b, c, m), b.n)
  {
    var t := b.top[m.y][m.x];
    assert (t + 1) % 256 == t + 1;
    assert Placed(b, c, m) == PlacedSarsen(b, c, m.x, m.y);
  }

  lemma LintelKeepsLow(b: Position, c: Color, m: Move)
    requires WellFormed(b) && Below(b, b.n) && OfferedBy(b, c, m, Intended)
    ensures Playable(b, c, m) && Below(Placed(b, c, m), b.n)
  {
    LintelLandsLevel(b, c, m);
  }

  // ------------------------------------------------------- perimeter ---

  /**
   * The sides A to F of the hexagon, 0 to 5, clockwise from the top edge,
   * and the direction `populate_points` walks along each.
   */
  function SideDir(s: nat): Direction
    requires s < 6
  {
    [East, SE, SW, West, NW, NE][s]
  }

  /** Point i of side s: A is the top row, B the upper right edge, and so on round to F. */
  function PointOf(n: nat, s: nat, i: nat): (nat, nat)
    requires 1 <= n && s < 6 && i < n
  {
    if s == 0 then (i, 0)
    else if s == 1 then (n - 1 + i, i)
    else if s == 2 then (2 * n - 2 - i, n - 1 + i)
    else if s == 3 then (n - 1 - i, 2 * n - 2)
    else if s == 4 then (0, 2 * n - 2 - i)
    else (0, n - 1 - i)
  }

  /** The SIZE points of side s, in walking order. */
  function SideCells(n: nat, s: nat): seq<(nat, nat)>
    requires 1 <= n && s < 6
  {
    seq(n, i requires 0 <= i < n => PointOf(n, s, i))
  }

  /** `points[6][SIZE]`. */
  function Perimeter(n: nat): seq<seq<(nat, nat)>>
    requires 1 <= n
  {
    seq(6, s requires 0 <= s < 6 => SideCells(n, s))
  }

  /** Every point of every side is a cell of the board. */
  lemma PointValid(n: nat, s: nat, i: nat)
    requires 1 <= n && s < 6 && i < n
    ensures Board.Valid(n, PointOf(n, s, i).0, PointOf(n, s, i).1)
  {
  }

  /** Along a side, each move of the walk succeeds and reaches the next point. */
  lemma PointStep(n: nat, s: nat, i: nat)
    requires 1 <= n && s < 6 && i + 1 < n
    ensures HasMove(n, SideDir(s), PointOf(n, s, i).0, PointOf(n, s, i).1)
    ensures Next(n, SideDir(s), PointOf(n, s, i)) == PointOf(n, s, i + 1)
  {
  }

  /** The corners: the last point of side s is the first of the next side, and F ends where A starts. */
  lemma CornersMeet(n: nat, s: nat)
    requires 1 <= n && s < 6
    ensures PointOf(n, s, n - 1) == PointOf(n, (s + 1) % 6, 0)
  {
  }

  /**
   * `populate_points()`: from the first valid cell of the top row, which is
   * (0, 0), SIZE - 1 moves along each side in turn, recording each point.
   */
  method PopulatePoints(n: nat) returns (points: seq<seq<(nat, nat)>>)
    requires 1 <= n
    ensures points == Perimeter(n)
  {
    var x, y := 0, 0;
    points := [];
    var s := 0;
    while s < 6
      invariant s <= 6 && |points| == s
      invariant forall s' :: 0 <= s' < s ==> points[s'] == SideCells(n, s')
      invariant s < 6 ==> (x, y) == PointOf(n, s, 0)
    {
      var side;
      side, x, y := WalkSide(n, s, x, y);
      points := points + [side];
      CornersMeet(n, s);
      s := s + 1;
    }
  }

  /** The inner loop of `populate_points`: the points of side s, ending on its last one. */
  method WalkSide(n: nat, s: nat, x0: nat, y0: nat) returns (side: seq<(nat, nat)>, x: nat, y: nat)
    requires 1 <= n && s < 6 && (x0, y0) == PointOf(n, s, 0)
    ensures side == SideCells(n, s) && (x, y) == PointOf(n, s, n - 1)
  {
    x, y := x0, y0;
    side := [];
    var dir := SideDir(s);
    var i := 0;
    while i < n - 1
      invariant i <= n - 1 && side == SideCells(n, s)[..i] && (x, y) == PointOf(n, s, i)
    {
      side := side + [(x, y)];
      PointStep(n, s, i);
      var p := Next(n, dir, (x, y));
      x, y := p.0, p.1;
      i := i + 1;
    }
    side := side + [(x, y)];
  }

  // ----------------------------------------------------- path finder ---

  type Cell = (nat, nat)

  /** The two searches of `connected`: from side A towards C and E, from side B towards D and F. */
  datatype Target = ACE | BDF

  /** The side a search starts from: `points[t == BDF ? 1 : 0]`. */
  function StartSide(t: Target): nat
  {
    if t == ACE then 0 else 1
  }

  /** The side whose arrival `edge_seen[k]` records. */
  function GoalSide(t: Target, k: nat): (s: nat)
    requires k < 2
    ensures 2 <= s < 6
  {
    StartSide(t) + 2 + 2 * k
  }

  /** `edge_num(s)`: C and D are edge 0, E and F edge 1; A and B are fatal. */
  function EdgeNum(s: nat): (k: nat)
    requires 2 <= s < 6
    ensures k < 2
  {
    if s < 4 then 0 else 1
  }

  /** Both goal sides of a search are recorded in their own flag, C/D in 0 and E/F in 1. */
  lemma GoalEdges(t: Target, k: nat)
    requires k < 2
    ensures EdgeNum(GoalSide(t, k)) == k && GoalSide(t, k) % 2 == StartSide(t)
  {
  }

  /** Cell p is on the board and holds colour k. */
  predicate Own(n: nat, g: seq<seq<Color>>, k: Color, p: Cell)
    requires n >= 1
  {
    Board.Valid(n, p.0, p.1) && p.1 < |g| && p.0 < |g[p.1]| && g[p.1][p.0] == k
  }

  /** The directions of `scan`'s loop, in the order of the enumeration. */
  function HexDirs(): seq<Direction>
  {
    [East, West, NE, SE, NW, SW]
  }

  /** The cells one `move` away from c; at an edge the move stays on c. */
  function Neighbours(n: nat, c: Cell): set<Cell>
    requires n >= 1
  {
    set i | 0 <= i < 6 :: Next(n, HexDirs()[i], c)
  }

  /** A walk through neighbouring cells of colour k. */
  ghost predicate Path(n: nat, g: seq<seq<Color>>, k: Color, p: seq<Cell>)
    requires n >= 1
  {
    |p| >= 1 &&
    (forall i :: 0 <= i < |p| ==> Own(n, g, k, p[i])) &&
    (forall i :: 0 < i < |p| ==> p[i] in Neighbours(n, p[i - 1]))
  }

  ghost predicate Reach(n: nat, g: seq<seq<Color>>, k: Color, a: Cell, b: Cell)
    requires n >= 1
  {
    exists p :: Path(n, g, k, p) && p[0] == a && p[|p| - 1] == b
  }

  /** Some cell of side `from` reaches some cell of side `to` through cells of colour k. */
  ghost predicate Touches(n: nat, g: seq<seq<Color>>, k: Color, from: nat, to: nat)
    requires n >= 1 && from < 6 && to < 6
  {
    exists a, e :: a in SideCells(n, from) && e in SideCells(n, to) && Reach(n, g, k, a, e)
  }

  /**
   * What a search for t finds: the cells of colour k reached from its
   * start side touch both its goal sides, though not necessarily through
   * one group.
   */
  ghost predicate Joins(n: nat, g: seq<seq<Color>>, k: Color, t: Target)
    requires n >= 1
  {
    Touches(n, g, k, StartSide(t), GoalSide(t, 0)) && Touches(n, g, k, StartSide(t), GoalSide(t, 1))
  }

  /** `connected(k, g)`: either search finds its sides. */
  ghost predicate Won(n: nat, g: seq<seq<Color>>, k: Color)
    requires n >= 1
  {
    Joins(n, g, k, ACE) || Joins(n, g, k, BDF)
  }

  /** Some cell of `seen` lies on side s. */
  ghost predicate SeenSide(n: nat, seen: set<Cell>, s: nat)
    requires n >= 1 && s < 6
  {
    exists v :: v in seen && v in SideCells(n, s)
  }

  /** Every neighbour of c with colour k has been seen. */
  ghost predicate Enclosed(n: nat, g: seq<seq<Color>>, k: Color, seen: set<Cell>, c: Cell)
    requires n >= 1
  {
    forall q :: q in Neighbours(n, c) && Own(n, g, k, q) ==> q in seen
  }

  /** The cells in `added` are all enclosed. */
  ghost predicate Closed(n: nat, g: seq<seq<Color>>, k: Color, seen: set<Cell>, added: set<Cell>)
    requires n >= 1
  {
    forall c :: c in added ==> Enclosed(n, g, k, seen, c)
  }

  /** Cell a reaches every cell in `added`. */
  ghost predicate Traced(n: nat, g: seq<seq<Color>>, k: Color, a: Cell, added: set<Cell>)
    requires n >= 1
  {
    forall v :: v in added ==> Reach(n, g, k, a, v)
  }

  /** Some cell of side s reaches v. */
  ghost predicate FromSide(n: nat, g: seq<seq<Color>>, k: Color, s: nat, v: Cell)
    requires n >= 1 && s < 6
  {
    exists a :: a in SideCells(n, s) && Reach(n, g, k, a, v)
  }

  /** Every one of the first i points of side s that holds colour k has been seen. */
  ghost predicate Covered(n: nat, g: seq<seq<Color>>, k: Color, seen: set<Cell>, s: nat, i: nat)
    requires n >= 1 && s < 6 && i <= n
  {
    forall j :: 0 <= j < i && Own(n, g, k, PointOf(n, s, j)) ==> PointOf(n, s, j) in seen
  }

  /** The valid cells not yet seen: what bounds the depth of `scan`. */
  ghost function Unseen(n: nat, seen: set<Cell>): set<Cell>
    requires n >= 1
  {
    set x: nat, y: nat | x < DSize(n) && y < DSize(n) && Board.Valid(n, x, y) && (x, y) !in seen :: (x, y)
  }

  /** `HexPathFinder<SIZE>`; `map` is held as the colours of the board. */
  class HexPathFinder {
    const size: nat
    const points: seq<seq<Cell>>
    var color: Color
    var grid: seq<seq<Color>>
    var visited: set<Cell>
    var edgeSeen: seq<bool>

    /** The points are those of the hexagon's six sides. */
    ghost predicate Valid()
      reads this
    {
      1 <= size && points == Perimeter(size)
    }

    /** A board to search. */
    ghost predicate Ready()
      reads this
    {
      Valid() && HexGrid(grid, size)
    }

    /** `edge_seen[k]` says whether a visited cell lies on goal side k of t. */
    ghost predicate Flags(t: Target)
      reads this
      requires Valid()
    {
      |edgeSeen| == 2 &&
      (edgeSeen[0] <==> SeenSide(size, visited, GoalSide(t, 0))) &&
      (edgeSeen[1] <==> SeenSide(size, visited, GoalSide(t, 1)))
    }

    /** `found_connection()`. */
    predicate Found()
      reads this
      requires |edgeSeen| == 2
    {
      edgeSeen[0] && edgeSeen[1]
    }

    ghost function Unvisited(): set<Cell>
      reads this
      requires Valid()
    {
      Unseen(size, visited)
    }

    /** `HexPathFinder(0)`: no board yet, and the points of the six sides. */
    constructor (size: nat)
      requires 1 <= size
      ensures this.size == size && Valid() && color == None && visited == {}
    {
      var ps := PopulatePoints(size);
      this.size := size;
      points := ps;
      color := None;
      grid := [];
      visited := {};
      edgeSeen := [false, false];
    }

    /** `mark_edge2(p, i)`: records in `edge_seen[edge_num(i)]` whether p is a point of side i. */
    method MarkEdge2(p: Cell, i: nat)
      requires Valid() && 2 <= i < 6 && |edgeSeen| == 2
      modifies this`edgeSeen
      ensures edgeSeen == old(edgeSeen)[EdgeNum(i) := old(edgeSeen)[EdgeNum(i)] || p in SideCells(size, i)]
    {
      var k := EdgeNum(i);
      if !edgeSeen[k] {
        var j := 0;
        while j < size
          invariant j <= size && edgeSeen == old(edgeSeen)[k := p in points[i][..j]]
        {
          if p == points[i][j] {
            edgeSeen := edgeSeen[k := true];
          }
          assert points[i][..j + 1] == points[i][..j] + [points[i][j]];
          j := j + 1;
        }
        assert points[i][..size] == points[i];
      }
    }

    /** `mark_edge(t, x, y)`: the two goal sides of t, C and E or D and F. */
    method MarkEdge(t: Target, x: nat, y: nat)
      requires Valid() && |edgeSeen| == 2
      modifies this`edgeSeen
      ensures edgeSeen == [old(edgeSeen)[0] || (x, y) in SideCells(size, GoalSide(t, 0)),
                           old(edgeSeen)[1] || (x, y) in SideCells(size, GoalSide(t, 1))]
    {
      var i := if t == BDF then 3 else 2;
      while i < 6
        invariant i == GoalSide(t, 0) || i == GoalSide(t, 1) || i == GoalSide(t, 1) + 2
        invariant |edgeSeen| == 2
        invariant edgeSeen[0] == (old(edgeSeen)[0] || (i > GoalSide(t, 0) && (x, y) in SideCells(size, GoalSide(t, 0))))
        invariant edgeSeen[1] == (old(edgeSeen)[1] || (i > GoalSide(t, 1) && (x, y) in SideCells(size, GoalSide(t, 1))))
      {
        MarkEdge2((x, y), i);
        i := i + 2;
      }
    }

    /**
     * `scan(t, x, y)`: marks (x, y), records the goal sides it lies on, and
     * unless both are seen goes on to each unseen neighbour of `color`.
     */
    method Scan(t: Target, x: nat, y: nat)
      requires Ready() && Flags(t) && Own(size, grid, color, (x, y))
      modifies this`visited, this`edgeSeen
      ensures Ready() && Flags(t) && old(visited) + {(x, y)} <= visited
      ensures Traced(size, grid, color, (x, y), visited - old(visited))
      ensures !Found() ==> Enclosed(size, grid, color, visited, (x, y))
      ensures !Found() ==> Closed(size, grid, color, visited, visited - old(visited))
      decreases Unvisited() - {(x, y)}, 3
    {
      var c := (x, y);
      UnseenMark(size, visited, c);
      visited := visited + {c};
      MarkEdge(t, x, y);
      SeenAdd(size, old(visited), c, GoalSide(t, 0));
      SeenAdd(size, old(visited), c, GoalSide(t, 1));
      ReachSelf(size, grid, color, c);
      if Found() {
        return;
      }
      ghost var v := visited;
      Explore(t, c);
      Settle(size, grid, color, old(visited), v, visited, c);
    }

    /** The loop of `scan` over the six directions, after cell c is marked. */
    method Explore(t: Target, c: Cell)
      requires Ready() && Flags(t) && !Found() && c in visited && Own(size, grid, color, c)
      modifies this`visited, this`edgeSeen
      ensures Ready() && Flags(t) && old(visited) <= visited
      ensures Traced(size, grid, color, c, visited - old(visited))
      ensures !Found() ==> Enclosed(size, grid, color, visited, c)
      ensures !Found() ==> Closed(size, grid, color, visited, visited - old(visited))
      decreases Unvisited(), 2
    {
      var i := 0;
      while i < 6
        invariant i <= 6 && Ready() && Flags(t) && !Found() && old(visited) <= visited && c in visited
        invariant Unvisited() <= old(Unvisited())
        invariant Traced(size, grid, color, c, visited - old(visited))
        invariant Closed(size, grid, color, visited, visited - old(visited))
        invariant forall j :: 0 <= j < i && Own(size, grid, color, Next(size, HexDirs()[j], c)) ==>
                    Next(size, HexDirs()[j], c) in visited
      {
        ghost var v := visited;
        Visit(t, c, HexDirs()[i], old(visited));
        if Found() {
          return;
        }
        UnseenShrinks(size, v, visited);
        i := i + 1;
      }
      EnclosedBySix(size, grid, color, visited, c);
    }

    /** One pass of `scan`'s loop: the neighbour of c in direction d, scanned if unseen and of `color`. */
    method Visit(t: Target, c: Cell, d: Direction, ghost base: set<Cell>)
      requires Ready() && Flags(t) && !Found() && c in visited && Own(size, grid, color, c)
      requires base <= visited && Traced(size, grid, color, c, visited - base)
      requires Closed(size, grid, color, visited, visited - base)
      modifies this`visited, this`edgeSeen
      ensures Ready() && Flags(t) && old(visited) <= visited
      ensures Traced(size, grid, color, c, visited - base)
      ensures !Found() ==> Closed(size, grid, color, visited, visited - base)
      ensures !Found() ==> (Own(size, grid, color, Next(size, d, c)) ==> Next(size, d, c) in visited)
      decreases Unvisited(), 1
    {
      if HasMove(size, d, c.0, c.1) {
        var q := Step(size, d, c.0, c.1);
        StepStaysValid(size, d, c.0, c.1);
        if q !in visited && grid[q.1][q.0] == color {
          ghost var v := visited;
          UnseenMark(size, visited, q);
          Scan(t, q.0, q.1);
          NextIsNeighbour(size, d, c);
          Extend(size, grid, color, c, q, base, v, visited);
        }
      }
    }

    /**
     * `search(t)`: clears the marks and the flags, then scans from every
     * cell of `color` on the start side until both goal sides are seen.
     */
    method Search(t: Target) returns (found: bool)
      requires Ready()
      modifies this`visited, this`edgeSeen
      ensures Ready() && Flags(t)
      ensures found <==> Joins(size, grid, color, t)
    {
      visited := {};
      edgeSeen := [false, false];
      var i := 0;
      while i < size
        invariant i <= size && Ready() && Flags(t) && !Found()
        invariant forall v :: v in visited ==> FromSide(size, grid, color, StartSide(t), v)
        invariant Closed(size, grid, color, visited, visited)
        invariant Covered(size, grid, color, visited, StartSide(t), i)
      {
        ghost var v := visited;
        StartAt(t, i);
        if Found() {
          FoundJoins(size, grid, color, t, visited);
          return true;
        }
        CoveredGrow(size, grid, color, v, visited, StartSide(t), i);
        i := i + 1;
      }
      NoJoin(size, grid, color, t, visited);
      return false;
    }

    /** One pass of `search`'s loop: the scan from start point i when it holds `color`. */
    method StartAt(t: Target, i: nat)
      requires Ready() && Flags(t) && !Found() && i < size
      requires forall v :: v in visited ==> FromSide(size, grid, color, StartSide(t), v)
      requires Closed(size, grid, color, visited, visited)
      modifies this`visited, this`edgeSeen
      ensures Ready() && Flags(t) && old(visited) <= visited
      ensures forall v :: v in visited ==> FromSide(size, grid, color, StartSide(t), v)
      ensures !Found() ==> Closed(size, grid, color, visited, visited)
      ensures !Found() && Own(size, grid, color, PointOf(size, StartSide(t), i)) ==>
                PointOf(size, StartSide(t), i) in visited
    {
      var s := StartSide(t);
      var p := points[s][i];
      PointValid(size, s, i);
      if grid[p.1][p.0] == color {
        ghost var v := visited;
        Scan(t, p.0, p.1);
        assert p == SideCells(size, s)[i];
        FromStart(size, grid, color, s, p, v, visited);
        if !Found() {
          ClosedGrow(size, grid, color, {}, v, visited);
        }
      }
    }

    /** `connected(c, m)`: the search from A for C and E, then the one from B for D and F. */
    method Connected(c: Color, m: seq<seq<Color>>) returns (found: bool)
      requires Valid() && HexGrid(m, size)
      modifies this`color, this`grid, this`visited, this`edgeSeen
      ensures Ready() && grid == m && color == c
      ensures found <==> Won(size, m, c)
    {
      grid := m;
      color := c;
      found := Search(ACE);
      if !found {
        found := Search(BDF);
      }
    }
  }

  // ------------------------------------------------ lemmas on the sets ---

  /** Every move from c lands among its neighbours. */
  lemma NextIsNeighbour(n: nat, d: Direction, c: Cell)
    requires n >= 1
    ensures Next(n, d, c) in Neighbours(n, c)
  {
    var i := match d case East => 0 case West => 1 case NE => 2 case SE => 3 case NW => 4 case SW => 5;
    assert HexDirs()[i] == d;
  }

  /** A cell whose six moves that land on colour k all land on seen cells is enclosed. */
  lemma EnclosedBySix(n: nat, g: seq<seq<Color>>, k: Color, seen: set<Cell>, c: Cell)
    requires n >= 1
    requires forall j :: 0 <= j < 6 && Own(n, g, k, Next(n, HexDirs()[j], c)) ==> Next(n, HexDirs()[j], c) in seen
    ensures Enclosed(n, g, k, seen, c)
  {
    forall q | q in Neighbours(n, c) && Own(n, g, k, q)
      ensures q in seen
    {
      var j :| 0 <= j < 6 && q == Next(n, HexDirs()[j], c);
    }
  }

  lemma ReachSelf(n: nat, g: seq<seq<Color>>, k: Color, c: Cell)
    requires n >= 1 && Own(n, g, k, c)
    ensures Reach(n, g, k, c, c)
  {
    assert Path(n, g, k, [c]);
  }

  /** A step from c to a neighbour q that reaches e makes c reach e. */
  lemma ReachPrepend(n: nat, g: seq<seq<Color>>, k: Color, c: Cell, q: Cell, e: Cell)
    requires n >= 1 && Own(n, g, k, c) && q in Neighbours(n, c) && Reach(n, g, k, q, e)
    ensures Reach(n, g, k, c, e)
  {
    var r :| Path(n, g, k, r) && r[0] == q && r[|r| - 1] == e;
    var p := [c] + r;
    assert forall i :: 0 < i < |p| ==> p[i] == r[i - 1];
    assert Path(n, g, k, p);
  }

  /** Marking c records the goal sides it lies on. */
  lemma SeenAdd(n: nat, seen: set<Cell>, c: Cell, s: nat)
    requires n >= 1 && s < 6
    ensures SeenSide(n, seen + {c}, s) <==> SeenSide(n, seen, s) || c in SideCells(n, s)
  {
    if c in SideCells(n, s) {
      assert c in seen + {c};
    }
    if SeenSide(n, seen, s) {
      var v :| v in seen && v in SideCells(n, s);
      assert v in seen + {c};
    }
  }

  lemma UnseenShrinks(n: nat, a: set<Cell>, b: set<Cell>)
    requires n >= 1 && a <= b
    ensures Unseen(n, b) <= Unseen(n, a)
  {
  }

  /** Marking a cell takes it out of the unseen cells, where it was if valid and unmarked. */
  lemma UnseenMark(n: nat, a: set<Cell>, c: Cell)
    requires n >= 1
    ensures Unseen(n, a + {c}) == Unseen(n, a) - {c}
    ensures Board.Valid(n, c.0, c.1) && c !in a ==> c in Unseen(n, a)
  {
  }

  /** The cells seen in two rounds are closed when each round's are. */
  lemma ClosedGrow(n: nat, g: seq<seq<Color>>, k: Color, a: set<Cell>, b: set<Cell>, c: set<Cell>)
    requires n >= 1 && a <= b <= c
    requires Closed(n, g, k, b, b - a) && Closed(n, g, k, c, c - b)
    ensures Closed(n, g, k, c, c - a)
  {
    forall e | e in c - a
      ensures Enclosed(n, g, k, c, e)
    {
      if e in b - a {
        assert Enclosed(n, g, k, b, e);
      }
    }
  }

  /** After `scan` of c: c and the cells its loop added are closed, and reached from c. */
  lemma Settle(n: nat, g: seq<seq<Color>>, k: Color, before: set<Cell>, marked: set<Cell>, seen: set<Cell>, c: Cell)
    requires n >= 1 && marked == before + {c} && marked <= seen
    requires Reach(n, g, k, c, c) && Traced(n, g, k, c, seen - marked)
    ensures Traced(n, g, k, c, seen - before)
    ensures Enclosed(n, g, k, seen, c) && Closed(n, g, k, seen, seen - marked) ==> Closed(n, g, k, seen, seen - before)
  {
    assert seen - before <= (seen - marked) + {c};
  }

  /** After the scan of c's neighbour q: the cells it added are reached from c, and closed with the earlier ones. */
  lemma Extend(n: nat, g: seq<seq<Color>>, k: Color, c: Cell, q: Cell, base: set<Cell>, v: set<Cell>, seen: set<Cell>)
    requires n >= 1 && Own(n, g, k, c) && q in Neighbours(n, c) && base <= v <= seen
    requires Traced(n, g, k, c, v - base) && Traced(n, g, k, q, seen - v)
    requires Closed(n, g, k, v, v - base)
    ensures Traced(n, g, k, c, seen - base)
    ensures Closed(n, g, k, seen, seen - v) ==> Closed(n, g, k, seen, seen - base)
  {
    forall e | e in seen - base
      ensures Reach(n, g, k, c, e)
    {
      if e !in v {
        ReachPrepend(n, g, k, c, q, e);
      }
    }
    if Closed(n, g, k, seen, seen - v) {
      ClosedGrow(n, g, k, base, v, seen);
    }
  }

  /** The cells a scan from a start point p adds are reached from the start side. */
  lemma FromStart(n: nat, g: seq<seq<Color>>, k: Color, s: nat, p: Cell, v: set<Cell>, seen: set<Cell>)
    requires n >= 1 && s < 6 && p in SideCells(n, s) && v <= seen
    requires forall e :: e in v ==> FromSide(n, g, k, s, e)
    requires Traced(n, g, k, p, seen - v)
    ensures forall e :: e in seen ==> FromSide(n, g, k, s, e)
  {
    forall e | e in seen
      ensures FromSide(n, g, k, s, e)
    {
      if e !in v {
        assert Reach(n, g, k, p, e);
      }
    }
  }

  /** Seeing more cells, and point i of side s if it holds colour k, covers one point more. */
  lemma CoveredGrow(n: nat, g: seq<seq<Color>>, k: Color, a: set<Cell>, b: set<Cell>, s: nat, i: nat)
    requires n >= 1 && s < 6 && i < n && a <= b && Covered(n, g, k, a, s, i)
    requires Own(n, g, k, PointOf(n, s, i)) ==> PointOf(n, s, i) in b
    ensures Covered(n, g, k, b, s, i + 1)
  {
  }

  /** Both flags up: cells reached from the start side lie on both goal sides. */
  lemma FoundJoins(n: nat, g: seq<seq<Color>>, k: Color, t: Target, seen: set<Cell>)
    requires n >= 1
    requires forall e :: e in seen ==> FromSide(n, g, k, StartSide(t), e)
    requires SeenSide(n, seen, GoalSide(t, 0)) && SeenSide(n, seen, GoalSide(t, 1))
    ensures Joins(n, g, k, t)
  {
    var e0 :| e0 in seen && e0 in SideCells(n, GoalSide(t, 0));
    var a0 :| a0 in SideCells(n, StartSide(t)) && Reach(n, g, k, a0, e0);
    var e1 :| e1 in seen && e1 in SideCells(n, GoalSide(t, 1));
    var a1 :| a1 in SideCells(n, StartSide(t)) && Reach(n, g, k, a1, e1);
  }

  /** Every cell of a path that starts in a closed set of cells lies in it. */
  lemma {:induction false} PathStaysIn(n: nat, g: seq<seq<Color>>, k: Color, seen: set<Cell>, p: seq<Cell>, i: nat)
    requires n >= 1 && Path(n, g, k, p) && p[0] in seen && i < |p|
    requires Closed(n, g, k, seen, seen)
    ensures p[i] in seen
  {
    if i > 0 {
      PathStaysIn(n, g, k, seen, p, i - 1);
      assert Enclosed(n, g, k, seen, p[i - 1]);
    }
  }

  /**
   * A search that ends without both flags finds no join: every walk from
   * a start cell stays among the closed seen cells, and none of them lies
   * on the goal side left unseen.
   */
  lemma NoJoin(n: nat, g: seq<seq<Color>>, k: Color, t: Target, seen: set<Cell>)
    requires n >= 1 && Closed(n, g, k, seen, seen)
    requires Covered(n, g, k, seen, StartSide(t), n)
    requires !SeenSide(n, seen, GoalSide(t, 0)) || !SeenSide(n, seen, GoalSide(t, 1))
    ensures !Joins(n, g, k, t)
  {
    if Joins(n, g, k, t) {
      var s := if SeenSide(n, seen, GoalSide(t, 0)) then GoalSide(t, 1) else GoalSide(t, 0);
      var a, e :| a in SideCells(n, StartSide(t)) && e in SideCells(n, s) && Reach(n, g, k, a, e);
      var p :| Path(n, g, k, p) && p[0] == a && p[|p| - 1] == e;
      var j :| 0 <= j < n && SideCells(n, StartSide(t))[j] == a;
      assert a in seen;
      PathStaysIn(n, g, k, seen, p, |p| - 1);
      assert false;
    }
  }

  // ------------------------------------------------- listing the moves ---
  // `sarsenMoves`, `tryLintel` and `lintelMoves` only read the board, so
  // here they take it as the value b.

  /** `sarsenMoves(c, ml)`: row by row, each row up to its first invalid cell. */
  method SarsenMoves(b: Position, c: Color, ml: MoveList)
    requires WellFormed(b) && Druid.Fits(|ml.items|, |Sarsens(b, c, DSize(b.n))|, ml.capacity)
    modifies ml
    ensures ml.items == old(ml.items) + Sarsens(b, c, DSize(b.n))
  {
    var y := 0;
    while y < DSize(b.n)
      invariant y <= DSize(b.n)
      invariant ml.items == old(ml.items) + Sarsens(b, c, y)
    {
      SarsensGrow(b, c, y + 1, DSize(b.n));
      RowSarsenMoves(b, c, ml, y, old(ml.items));
      y := y + 1;
    }
  }

  /** The inner loop of `sarsenMoves`: row y joins the list. */
  method RowSarsenMoves(b: Position, c: Color, ml: MoveList, y: nat, ghost start: seq<Move>)
    requires WellFormed(b) && y < DSize(b.n) && ml.items == start + Sarsens(b, c, y)
    requires Druid.Fits(|start|, |Sarsens(b, c, y + 1)|, ml.capacity)
    modifies ml
    ensures ml.items == start + Sarsens(b, c, y + 1)
  {
    ghost var done := Sarsens(b, c, y);
    var x := 0;
    while x < DSize(b.n) && Board.Valid(b.n, x, y)
      invariant x <= Width(b.n, y)
      invariant ml.items == start + done + RowSarsens(b, c, y, x)
    {
      RowSarsensGrow(b, c, y, x + 1, Width(b.n, y));
      var tc := b.color[y][x];
      if (tc == None || tc == c) && b.top[y][x] < b.n - 2 {
        ml.AddSarsen(x, y);
      }
      x := x + 1;
    }
    Druid.Associative(start, done, RowSarsens(b, c, y, Width(b.n, y)));
  }

  /**
   * `tryLintel(c, ml, x, y, d)` from a valid origin: two moves along d,
   * each allowed only where the cell it starts from has a neighbour in d
   * (as written, the far end is asked for one too), then the test on the
   * heights and the supports.
   */
  method TryLintel(b: Position, c: Color, ml: MoveList, x: nat, y: nat, d: Direction, rule: Rule)
    requires WellFormed(b) && Board.Valid(b.n, x, y) && Encodable(d)
    requires Druid.Fits(|ml.items|, |TryOne(b, c, x, y, d, rule)|, ml.capacity)
    modifies ml
    ensures ml.items == old(ml.items) + TryOne(b, c, x, y, d, rule)
  {
    var np := Next(b.n, d, (x, y));
    var nx, ny := np.0, np.1;
    assert Trail(b.n, d, (x, y), 1) == np;
    if !HasMove(b.n, d, nx, ny) {
      return;
    }
    var mp := Next(b.n, d, (nx, ny));
    var mx, my := mp.0, mp.1;
    assert Trail(b.n, d, (x, y), 2) == mp;
    if rule == AsWritten && !HasMove(b.n, d, mx, my) {
      return;
    }
    var to, tn, tm := b.top[y][x], b.top[ny][nx], b.top[my][mx];
    if to != tm || tn > to || to == 0 || to > b.n - 2 {
      return;
    }
    var count := 0;
    if b.color[y][x] == c {
      count := count + 1;
    }
    if b.color[my][mx] == c {
      count := count + 1;
    }
    if tn == to && b.color[ny][nx] == c {
      count := count + 1;
    }
    if count != 2 {
      return;
    }
    ml.AddLintel(x, y, d);
  }

  /** The three calls `lintelMoves` makes at origin (x, y). */
  method TryAt(b: Position, c: Color, ml: MoveList, x: nat, y: nat, rule: Rule)
    requires WellFormed(b) && Board.Valid(b.n, x, y)
    requires Druid.Fits(|ml.items|, |At(b, c, x, y, rule)|, ml.capacity)
    modifies ml
    ensures ml.items == old(ml.items) + At(b, c, x, y, rule)
  {
    ghost var start := ml.items;
    ghost var e, se, sw := TryOne(b, c, x, y, East, rule), TryOne(b, c, x, y, SE, rule), TryOne(b, c, x, y, SW, rule);
    AtSplit(b, c, x, y, rule);
    Druid.FitsSplit(|start|, e + se, sw, ml.capacity);
    Druid.FitsSplit(|start|, e, se, ml.capacity);
    TryLintel(b, c, ml, x, y, East, rule);
    TryLintel(b, c, ml, x, y, SE, rule);
    TryLintel(b, c, ml, x, y, SW, rule);
    Druid.Associative(start, e, se);
    Druid.Associative(start, e + se, sw);
  }

  /** `lintelMoves(c, ml)` under a rule: the origins row by row, each row up to its end. */
  method LintelMoves(b: Position, c: Color, ml: MoveList, rule: Rule)
    requires WellFormed(b) && Druid.Fits(|ml.items|, |Lintels(b, c, rule)|, ml.capacity)
    modifies ml
    ensures ml.items == old(ml.items) + Lintels(b, c, rule)
  {
    var rows := Rows(b.n, rule);
    var y := 0;
    while y < rows
      invariant y <= rows
      invariant ml.items == old(ml.items) + BlockLintels(b, c, y, rule)
    {
      var next := y + 1;
      BlockLintelsGrow(b, c, next, rows, rule);
      RowLintelMoves(b, c, ml, y, next, rule, old(ml.items));
      y := next;
    }
  }

  /**
   * The inner loop of `lintelMoves`: the origins of row y up to the
   * column bound (SIZE as written, DSIZE as intended) or the first
   * invalid cell.
   */
  method RowLintelMoves(b: Position, c: Color, ml: MoveList, y: nat, next: nat, rule: Rule, ghost start: seq<Move>)
    requires WellFormed(b) && y < DSize(b.n) && next == y + 1 && ml.items == start + BlockLintels(b, c, y, rule)
    requires Druid.Fits(|start|, |BlockLintels(b, c, next, rule)|, ml.capacity)
    modifies ml
    ensures ml.items == start + BlockLintels(b, c, next, rule)
  {
    ghost var done := BlockLintels(b, c, y, rule);
    ghost var end := RowEnd(b.n, y, rule);
    var limit := if rule == AsWritten then b.n else DSize(b.n);
    var x := 0;
    while x < limit && Board.Valid(b.n, x, y)
      invariant x <= end
      invariant ml.items == start + done + RowLintels(b, c, y, x, rule)
    {
      var next := x + 1;
      LintelCell(b, c, ml, x, next, y, rule, start + done, end);
      x := next;
    }
    RowDone(b, c, y, x, limit, rule);
    Druid.Associative(start, done, RowLintels(b, c, y, end, rule));
  }

  /** One pass of the inner loop of `lintelMoves`: the calls at (x, y) join the list. */
  method LintelCell(b: Position, c: Color, ml: MoveList, x: nat, next: nat, y: nat, rule: Rule, ghost base: seq<Move>, ghost end: nat)
    requires WellFormed(b) && Board.Valid(b.n, x, y) && x < end && next == x + 1
    requires ml.items == base + RowLintels(b, c, y, x, rule)
    requires Druid.Fits(|base|, |RowLintels(b, c, y, end, rule)|, ml.capacity)
    modifies ml
    ensures ml.items == base + RowLintels(b, c, y, next, rule)
  {
    RowLintelsGrow(b, c, y, next, end, rule);
    RowLintelsStep(b, c, y, x, rule);
    TryAt(b, c, ml, x, y, rule);
    Druid.Associative(base, RowLintels(b, c, y, x, rule), At(b, c, x, y, rule));
  }

  /** Where the inner loop of `lintelMoves` stops, row y is complete. */
  lemma RowDone(b: Position, c: Color, y: nat, x: nat, limit: nat, rule: Rule)
    requires WellFormed(b) && y < DSize(b.n) && x <= RowEnd(b.n, y, rule)
    requires limit == (if rule == AsWritten then b.n else DSize(b.n))
    requires !(x < limit && Board.Valid(b.n, x, y))
    ensures x == RowEnd(b.n, y, rule)
    ensures BlockLintels(b, c, y + 1, rule) == BlockLintels(b, c, y, rule) + RowLintels(b, c, y, x, rule)
  {
  }

  lemma {:induction false} RowSarsensGrow(b: Position, c: Color, y: nat, x: nat, x': nat)
    requires WellFormed(b) && y < DSize(b.n) && x <= x' <= Width(b.n, y)
    ensures |RowSarsens(b, c, y, x)| <= |RowSarsens(b, c, y, x')|
    decreases x' - x
  {
    if x < x' {
      RowSarsensGrow(b, c, y, x + 1, x');
    }
  }

  lemma {:induction false} SarsensGrow(b: Position, c: Color, k: nat, k': nat)
    requires WellFormed(b) && k <= k' <= DSize(b.n)
    ensures |Sarsens(b, c, k)| <= |Sarsens(b, c, k')|
    decreases k' - k
  {
    if k < k' {
      SarsensGrow(b, c, k + 1, k');
    }
  }

  lemma RowLintelsGrow(b: Position, c: Color, y: nat, x: nat, x': nat, rule: Rule)
    requires WellFormed(b) && x <= x'
    ensures |RowLintels(b, c, y, x, rule)| <= |RowLintels(b, c, y, x', rule)|
  {
    GatherGrow(CellOffers(b, c, y, rule), x, x');
  }

  lemma BlockLintelsGrow(b: Position, c: Color, k: nat, k': nat, rule: Rule)
    requires WellFormed(b) && k <= k' <= DSize(b.n)
    ensures |BlockLintels(b, c, k, rule)| <= |BlockLintels(b, c, k', rule)|
  {
    GatherGrow(RowOffers(b, c, rule), k, k');
  }

  /** One origin more in a row adds the calls at that origin. */
  lemma RowLintelsStep(b: Position, c: Color, y: nat, x: nat, rule: Rule)
    requires WellFormed(b)
    ensures RowLintels(b, c, y, x + 1, rule) == RowLintels(b, c, y, x, rule) + At(b, c, x, y, rule)
  {
  }

  // ----------------------------------------------------------- state ---

  /** `State<SIZE, ...>`: the heights and top colours of the cells, the winner and whose turn it is. */
  class State {
    const size: nat
    var top: seq<seq<nat>>
    var color: seq<seq<Color>>
    var winner: Color
    var justPlayed: Color
    var gameOver: bool

    ghost predicate Valid()
      reads this
    {
      WellFormed(Pos()) && IsPlayer(justPlayed)
    }

    function Pos(): Position
      reads this`top, this`color
    {
      Position(size, top, color)
    }

    /** `current()`: the side to move is the one that did not just play. */
    function Current(): (r: Color)
      reads this`justPlayed
      ensures IsPlayer(justPlayed) ==> IsPlayer(r) && r != justPlayed
    {
      Other(justPlayed)
    }

    /** `result(c)`: 1 for a win of c, 0 for a win of the other side, 0.5 otherwise. */
    function Result(c: Color): (r: real)
      reads this`winner
      ensures r == Turns.Outcome(winner, c)
    {
      Turns.Outcome(winner, c)
    }

    /** `State()`: the cleared board. */
    constructor (size: nat)
      requires 2 <= size <= 8
      ensures this.size == size && Valid() && Below(Pos(), 1)
      ensures forall y, x :: 0 <= y < DSize(size) && 0 <= x < DSize(size) ==> color[y][x] == None
      ensures winner == None && justPlayed == White && !gameOver
    {
      this.size := size;
      top := seq(DSize(size), _ => seq(DSize(size), _ => 0));
      color := seq(DSize(size), _ => seq(DSize(size), _ => None));
      winner := None;
      justPlayed := White;
      gameOver := false;
    }

    /** `clear()`: every height 0, every cell `NONE`, no winner and Black to move. */
    method Clear()
      requires Valid()
      modifies this
      ensures Valid() && Below(Pos(), 1)
      ensures forall y, x :: 0 <= y < DSize(size) && 0 <= x < DSize(size) ==> color[y][x] == None
      ensures winner == None && justPlayed == White && Current() == Black && !gameOver
    {
      top := seq(DSize(size), _ => seq(DSize(size), _ => 0));
      color := seq(DSize(size), _ => seq(DSize(size), _ => None));
      winner := None;
      justPlayed := White;
      gameOver := false;
    }

    /** `copy_from(rhs)`: a copy of the whole state. */
    method CopyFrom(rhs: State)
      requires rhs.size == size
      modifies this
      ensures top == old(rhs.top) && color == old(rhs.color) && winner == old(rhs.winner)
      ensures justPlayed == old(rhs.justPlayed) && gameOver == old(rhs.gameOver)
    {
      top := rhs.top;
      color := rhs.color;
      winner := rhs.winner;
      justPlayed := rhs.justPlayed;
      gameOver := rhs.gameOver;
    }

    method SetGameOver()
      modifies this`gameOver
      ensures gameOver
    {
      gameOver := true;
    }

    /** `placeSarsen(c, x, y)`, which asserts the cell is empty or already c's. */
    method PlaceSarsen(c: Color, x: nat, y: nat)
      requires Valid() && Board.Valid(size, x, y) && (color[y][x] == None || color[y][x] == c)
      modifies this`top, this`color
      ensures Valid() && Pos() == PlacedSarsen(old(Pos()), c, x, y)
    {
      top := Druid.Put(top, x, y, (top[y][x] + 1) % 256);
      color := Druid.Put(color, x, y, c);
    }

    /**
     * `placeLintel(c, x, y, d)`: three rounds of setting the cell to one
     * above the origin, in c, and moving along d, which stays put at the
     * edge of the board.
     */
    method PlaceLintel(c: Color, x: nat, y: nat, d: Direction)
      requires Valid() && Board.Valid(size, x, y)
      modifies this`top, this`color
      ensures Valid() && Pos() == PlacedLintel(old(Pos()), c, x, y, d)
    {
      var z := (top[y][x] + 1) % 256;
      ghost var top0, color0 := top, color;
      var ix, iy := x, y;
      var i := 0;
      while i < 3
        invariant i <= 3 && (ix, iy) == Trail(size, d, (x, y), i)
        invariant top == Lay(top0, size, d, (x, y), i, z)
        invariant color == Lay(color0, size, d, (x, y), i, c)
      {
        var next := i + 1;
        ix, iy := LayCell(c, z, x, y, d, i, next, ix, iy, top0, color0);
        i := next;
      }
    }

    /** One pass of `placeLintel`'s loop: cell i of the trail from (x, y) takes height z and colour c. */
    method LayCell(c: Color, z: nat, x: nat, y: nat, d: Direction, i: nat, next: nat, ix: nat, iy: nat,
                   ghost top0: seq<seq<nat>>, ghost color0: seq<seq<Color>>) returns (nx: nat, ny: nat)
      requires size >= 1 && HexGrid(top0, size) && HexGrid(color0, size) && Board.Valid(size, x, y)
      requires next == i + 1 && (ix, iy) == Trail(size, d, (x, y), i)
      requires top == Lay(top0, size, d, (x, y), i, z) && color == Lay(color0, size, d, (x, y), i, c)
      modifies this`top, this`color
      ensures (nx, ny) == Trail(size, d, (x, y), next)
      ensures top == Lay(top0, size, d, (x, y), next, z) && color == Lay(color0, size, d, (x, y), next, c)
    {
      LayStep(top0, size, d, (x, y), i, z);
      LayStep(color0, size, d, (x, y), i, c);
      top := Druid.Put(top, ix, iy, z);
      color := Druid.Put(color, ix, iy, c);
      var p := Next(size, d, (ix, iy));
      nx, ny := p.0, p.1;
    }

    /** Places m for c: the first half of `move`. */
    method Place(c: Color, m: Move)
      requires Valid() && Playable(Pos(), c, m)
      modifies this`top, this`color
      ensures Valid() && Pos() == Placed(old(Pos()), c, m)
    {
      if TypeOf(m) == Sarsen {
        PlaceSarsen(c, m.x, m.y);
      } else {
        PlaceLintel(c, m.x, m.y, DirOf(m));
      }
    }

    /**
     * `move(m)`: the side to move places the sarsen or the lintel, wins if
     * its cells now join two alternate sides from a third, and hands over
     * the turn.
     */
    method Move(m: Move, pf: HexPathFinder)
      requires Valid() && pf.Valid() && pf.size == size && Playable(Pos(), Current(), m)
      modifies this, pf
      ensures Valid() && Pos() == Placed(old(Pos()), old(Current()), m)
      ensures justPlayed == old(Current())
      ensures winner == (if Won(size, color, old(Current())) then old(Current()) else old(winner))
      ensures gameOver == (old(gameOver) || Won(size, color, old(Current())))
    {
      var player := Current();
      Place(player, m);
      Settle(player, pf);
    }

    /** The second half of `move`: the path search for c, and the change of turn. */
    method Settle(c: Color, pf: HexPathFinder)
      requires Valid() && pf.Valid() && pf.size == size
      modifies this`winner, this`gameOver, this`justPlayed, pf
      ensures justPlayed == c
      ensures winner == (if Won(size, color, c) then c else old(winner))
      ensures gameOver == (old(gameOver) || Won(size, color, c))
    {
      var found := pf.Connected(c, color);
      if found {
        winner := c;
        gameOver := true;
      }
      justPlayed := c;
    }

    /**
     * `moves(ml)`: nothing once the game is over; otherwise the sarsens and
     * then the lintels of the side to move, and a side with no move ends
     * the game.
     */
    method Moves(ml: MoveList)
      requires Valid() && (!gameOver ==> Druid.Fits(|ml.items|, |Legal(Pos(), Current())|, ml.capacity))
      modifies this`gameOver, ml
      ensures old(gameOver) ==> gameOver && ml.items == old(ml.items)
      ensures !old(gameOver) ==> ml.items == old(ml.items) + Legal(Pos(), Current())
      ensures !old(gameOver) ==> (gameOver <==> |ml.items| == 0)
    {
      if gameOver {
        return;
      }
      var player := Other(justPlayed);
      ghost var start := ml.items;
      Druid.FitsSplit(|start|, Sarsens(Pos(), player, DSize(size)), Lintels(Pos(), player, Intended), ml.capacity);
      SarsenMoves(Pos(), player, ml);
      LintelMoves(Pos(), player, ml, Intended);
      Druid.Associative(start, Sarsens(Pos(), player, DSize(size)), Lintels(Pos(), player, Intended));
      if |ml.items| == 0 {
        gameOver := true;
      }
    }

    /**
     * `random_move(ml, m)`: lists the moves from scratch and picks one of
     * them; the random draw is any index of the list.
     */
    method RandomMove(ml: MoveList) returns (found: bool, m: Move)
      requires Valid() && (!gameOver ==> Druid.Fits(0, |Legal(Pos(), Current())|, ml.capacity))
      modifies this`gameOver, ml
      ensures !old(gameOver) ==> ml.items == Legal(Pos(), Current())
      ensures found <==> !old(gameOver) && |Legal(Pos(), Current())| > 0
      ensures found ==> m in Legal(Pos(), Current())
    {
      ml.Clear();
      Moves(ml);
      if |ml.items| == 0 {
        return false, SetMove(0, 0, Sarsen, East);
      }
      var i :| 0 <= i < |ml.items|;
      return true, ml.items[i];
    }
  }
}
