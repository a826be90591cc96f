// Connect-4 (games/connect4.h): pieces dropped into columns, four in a row
// along a column, a row or a diagonal wins.
module Connect4 {
  import opened Common
  import opened Text
  import Turns = State

  // ------------------------------------------------------- directions ---

  datatype Direction = N | S | E | W | NE | NW | SE | SW

  /** `reverse(d)`: the opposite direction. */
  function Reverse(d: Direction): (r: Direction)
    ensures r != d
  {
    match d
    case N => S
    case S => N
    case E => W
    case W => E
    case NW => SE
    case SE => NW
    case NE => SW
    case SW => NE
  }

  lemma ReverseInvolution(d: Direction)
    ensures Reverse(Reverse(d)) == d
  {
  }

  /**
   * The cell k steps from (x, y) in direction d, off the board or not.
   * North lowers y, so row 0 is where the first piece of a column lands.
   */
  function Walk(d: Direction, x: int, y: int, k: int): (int, int)
  {
    match d
    case N => (x, y - k)
    case S => (x, y + k)
    case E => (x + k, y)
    case W => (x - k, y)
    case NE => (x + k, y - k)
    case NW => (x - k, y - k)
    case SE => (x + k, y + k)
    case SW => (x - k, y + k)
  }

  /** k steps are one step and then k - 1 more. */
  lemma WalkShift(d: Direction, x: int, y: int, k: int)
    ensures Walk(d, Walk(d, x, y, 1).0, Walk(d, x, y, 1).1, k - 1) == Walk(d, x, y, k)
  {
  }

  /** a steps and then b more are a + b steps. */
  lemma WalkAdd(d: Direction, x: int, y: int, a: int, b: int)
    ensures Walk(d, Walk(d, x, y, a).0, Walk(d, x, y, a).1, b) == Walk(d, x, y, a + b)
  {
  }

  /** Walking backwards is walking the reverse direction. */
  lemma WalkReverse(d: Direction, x: int, y: int, k: int)
    ensures Walk(Reverse(d), x, y, k) == Walk(d, x, y, -k)
  {
  }

  /** `valid(d, x, y)`: the neighbour in direction d is still on a w by h board. */
  predicate CanStep(w: nat, h: nat, d: Direction, x: nat, y: nat)
  {
    match d
    case N => y > 0
    case S => y < h - 1
    case E => x < w - 1
    case W => x > 0
    case NW => y > 0 && x > 0
    case SE => y < h - 1 && x < w - 1
    case NE => y > 0 && x < w - 1
    case SW => y < h - 1 && x > 0
  }

  predicate OnBoard(w: nat, h: nat, p: (int, int))
  {
    0 <= p.0 < w && 0 <= p.1 < h
  }

  /** From a cell on the board, `valid` holds exactly when the next cell is on the board. */
  lemma CanStepIsOnBoard(w: nat, h: nat, d: Direction, x: nat, y: nat)
    requires x < w && y < h
    ensures CanStep(w, h, d, x, y) <==> OnBoard(w, h, Walk(d, x, y, 1))
  {
  }

  /** `move_dir(d, x, y)`, only where `valid` allows it. */
  function Step(w: nat, h: nat, d: Direction, x: nat, y: nat): (r: (nat, nat))
    requires x < w && y < h && CanStep(w, h, d, x, y)
    ensures r.0 < w && r.1 < h && (r.0 as int, r.1 as int) == Walk(d, x, y, 1)
  {
    match d
    case N => (x, y - 1)
    case S => (x, y + 1)
    case E => (x + 1, y)
    case W => (x - 1, y)
    case NW => (x - 1, y - 1)
    case SE => (x + 1, y + 1)
    case NE => (x + 1, y - 1)
    case SW => (x - 1, y + 1)
  }

  /** How many more steps direction d has room for: the termination measure of `scan`. */
  function Room(w: nat, h: nat, d: Direction, x: nat, y: nat): nat
    requires x < w && y < h
  {
    match d
    case N => y
    case NW => y
    case NE => y
    case S => h - y
    case SE => h - y
    case SW => h - y
    case E => w - x
    case W => x
  }

  // ------------------------------------------------------------ lines ---

  /** The grid holds `w` columns of `h` cells each, indexed column first. */
  predicate Shaped(g: seq<seq<Color>>, w: nat, h: nat)
  {
    |g| == w && forall x :: 0 <= x < w ==> |g[x]| == h
  }

  /** The cell p is on the board and holds c. */
  predicate Holds(g: seq<seq<Color>>, w: nat, h: nat, p: (int, int), c: Color)
    requires Shaped(g, w, h)
  {
    OnBoard(w, h, p) && g[p.0][p.1] == c
  }

  /** `scan(c, d, x, y)`: the run of c starting at (x, y) and going in direction d. */
  function Scan(g: seq<seq<Color>>, w: nat, h: nat, c: Color, d: Direction, x: nat, y: nat): nat
    requires Shaped(g, w, h) && x < w && y < h
    decreases Room(w, h, d, x, y)
  {
    if g[x][y] != c then 0
    else if CanStep(w, h, d, x, y) then
      var (x', y') := Step(w, h, d, x, y);
      1 + Scan(g, w, h, c, d, x', y')
    else 1
  }

  /**
   * A scan measures a run: the first r cells from (x, y) in direction d
   * hold c, and the cell after them does not (or is off the board).
   */
  lemma {:induction false} ScanIsRun(g: seq<seq<Color>>, w: nat, h: nat, c: Color, d: Direction, x: nat, y: nat)
    requires Shaped(g, w, h) && x < w && y < h
    ensures var r := Scan(g, w, h, c, d, x, y);
      (forall k :: 0 <= k < r ==> Holds(g, w, h, Walk(d, x, y, k), c)) &&
      !Holds(g, w, h, Walk(d, x, y, r), c)
    decreases Room(w, h, d, x, y)
  {
    var r := Scan(g, w, h, c, d, x, y);
    assert Walk(d, x, y, 0) == (x, y);
    if g[x][y] == c {
      CanStepIsOnBoard(w, h, d, x, y);
      if CanStep(w, h, d, x, y) {
        var (x', y') := Step(w, h, d, x, y);
        ScanIsRun(g, w, h, c, d, x', y');
        assert r == 1 + Scan(g, w, h, c, d, x', y');
        forall k | 1 <= k <= r
          ensures Walk(d, x, y, k) == Walk(d, x', y', k - 1)
        {
          WalkShift(d, x, y, k);
        }
      } else {
        assert r == 1;
      }
    }
  }

  /** A run of m cells of c from (x, y) makes the scan at least m long. */
  lemma ScanCoversRun(g: seq<seq<Color>>, w: nat, h: nat, c: Color, d: Direction, x: nat, y: nat, m: nat)
    requires Shaped(g, w, h) && x < w && y < h
    requires forall k :: 0 <= k < m ==> Holds(g, w, h, Walk(d, x, y, k), c)
    ensures Scan(g, w, h, c, d, x, y) >= m
  {
    ScanIsRun(g, w, h, c, d, x, y);
  }

  /** `line_length(c, d, x, y)`: the two scans through (x, y), the cell itself counted once. */
  function LineLength(g: seq<seq<Color>>, w: nat, h: nat, c: Color, d: Direction, x: nat, y: nat): nat
    requires Shaped(g, w, h) && x < w && y < h
  {
    var count := Scan(g, w, h, c, d, x, y) + Scan(g, w, h, c, Reverse(d), x, y);
    if count > 0 then count - 1 else 0
  }

  /**
   * The line through (x, y) along d's axis: with a cells of c ahead of it
   * and b behind, all of the stretch from -b to a holds c, the cells just
   * beyond both ends do not, and the length is a + b + 1. A cell that does
   * not hold c has length 0.
   */
  lemma LineLengthIsSegment(g: seq<seq<Color>>, w: nat, h: nat, c: Color, d: Direction, x: nat, y: nat)
    requires Shaped(g, w, h) && x < w && y < h
    ensures g[x][y] != c ==> LineLength(g, w, h, c, d, x, y) == 0
    ensures g[x][y] == c ==>
      var a := Scan(g, w, h, c, d, x, y) - 1;
      var b := Scan(g, w, h, c, Reverse(d), x, y) - 1;
      LineLength(g, w, h, c, d, x, y) == a + b + 1 &&
      (forall k :: -b <= k <= a ==> Holds(g, w, h, Walk(d, x, y, k), c)) &&
      !Holds(g, w, h, Walk(d, x, y, a + 1), c) && !Holds(g, w, h, Walk(d, x, y, -(b + 1)), c)
  {
    ScanIsRun(g, w, h, c, d, x, y);
    ScanIsRun(g, w, h, c, Reverse(d), x, y);
    if g[x][y] == c {
      var b := Scan(g, w, h, c, Reverse(d), x, y) - 1;
      forall k | -b <= k < 0
        ensures Holds(g, w, h, Walk(d, x, y, k), c)
      {
        WalkReverse(d, x, y, -k);
      }
      WalkReverse(d, x, y, b + 1);
    }
  }

  /** The four axes `connect4` looks along. */
  predicate Axis(d: Direction)
  {
    d == N || d == E || d == NW || d == NE
  }

  /** `len` cells of c in a row along d, from p on. */
  predicate Run(g: seq<seq<Color>>, w: nat, h: nat, c: Color, d: Direction, p: (int, int), len: nat)
    requires Shaped(g, w, h)
  {
    forall j :: 0 <= j < len ==> Holds(g, w, h, Walk(d, p.0, p.1, j), c)
  }

  /** Some `len` in a row of the colour at (x, y), along one of the axes, passes through (x, y). */
  predicate RunThrough(g: seq<seq<Color>>, w: nat, h: nat, x: nat, y: nat, len: nat)
    requires Shaped(g, w, h) && x < w && y < h
  {
    exists d: Direction, k: int :: Axis(d) && 1 - len <= k <= 0 && Run(g, w, h, g[x][y], d, Walk(d, x, y, k), len)
  }

  /**
   * The win test on the piece at (x, y), `connect4` with `len` 4: a line of
   * at least `len` along one of the axes.
   */
  predicate Connects(g: seq<seq<Color>>, w: nat, h: nat, x: nat, y: nat, len: nat)
    requires Shaped(g, w, h) && x < w && y < h
  {
    var c := g[x][y];
    LineLength(g, w, h, c, N, x, y) >= len || LineLength(g, w, h, c, E, x, y) >= len ||
    LineLength(g, w, h, c, NW, x, y) >= len || LineLength(g, w, h, c, NE, x, y) >= len
  }

  /** A line of at least `len` through (x, y) holds `len` in a row starting at most `len - 1` cells back. */
  lemma {:induction false} LongLineHasRun(g: seq<seq<Color>>, w: nat, h: nat, d: Direction, x: nat, y: nat, len: nat)
    requires Shaped(g, w, h) && x < w && y < h && len >= 1
    requires LineLength(g, w, h, g[x][y], d, x, y) >= len
    ensures exists k: int :: 1 - len <= k <= 0 && Run(g, w, h, g[x][y], d, Walk(d, x, y, k), len)
  {
    var c := g[x][y];
    LineLengthIsSegment(g, w, h, c, d, x, y);
    var b := Scan(g, w, h, c, Reverse(d), x, y) - 1;
    var k := if b >= len - 1 then 1 - len else -b;
    var p := Walk(d, x, y, k);
    forall j | 0 <= j < len
      ensures Holds(g, w, h, Walk(d, p.0, p.1, j), c)
    {
      WalkAdd(d, x, y, k, j);
    }
    assert Run(g, w, h, c, d, p, len);
  }

  /** `len` in a row through (x, y) makes the line through it at least `len` long. */
  lemma {:induction false} RunMakesLongLine(g: seq<seq<Color>>, w: nat, h: nat, d: Direction, x: nat, y: nat, k: int, len: nat)
    requires Shaped(g, w, h) && x < w && y < h
    requires 1 - len <= k <= 0 && Run(g, w, h, g[x][y], d, Walk(d, x, y, k), len)
    ensures LineLength(g, w, h, g[x][y], d, x, y) >= len
  {
    var c := g[x][y];
    var p := Walk(d, x, y, k);
    forall j | 0 <= j < len + k
      ensures Holds(g, w, h, Walk(d, x, y, j), c)
    {
      WalkAdd(d, x, y, k, j - k);
    }
    ScanCoversRun(g, w, h, c, d, x, y, len + k);
    forall j | 0 <= j < 1 - k
      ensures Holds(g, w, h, Walk(Reverse(d), x, y, j), c)
    {
      WalkReverse(d, x, y, j);
      WalkAdd(d, x, y, k, -j - k);
    }
    ScanCoversRun(g, w, h, c, Reverse(d), x, y, 1 - k);
  }

  /** `len` in a row along d through (x, y) exists exactly when the line length is at least `len`. */
  lemma LineOfRun(g: seq<seq<Color>>, w: nat, h: nat, d: Direction, x: nat, y: nat, len: nat)
    requires Shaped(g, w, h) && x < w && y < h && len >= 1
    ensures LineLength(g, w, h, g[x][y], d, x, y) >= len <==>
              exists k: int :: 1 - len <= k <= 0 && Run(g, w, h, g[x][y], d, Walk(d, x, y, k), len)
  {
    if LineLength(g, w, h, g[x][y], d, x, y) >= len {
      LongLineHasRun(g, w, h, d, x, y, len);
    }
    if k: int :| 1 - len <= k <= 0 && Run(g, w, h, g[x][y], d, Walk(d, x, y, k), len) {
      RunMakesLongLine(g, w, h, d, x, y, k, len);
    }
  }

  /** The win test holds exactly when some `len` in a row passes through the piece. */
  lemma ConnectsIff(g: seq<seq<Color>>, w: nat, h: nat, x: nat, y: nat, len: nat)
    requires Shaped(g, w, h) && x < w && y < h && len >= 1
    ensures Connects(g, w, h, x, y, len) <==> RunThrough(g, w, h, x, y, len)
  {
    LineOfRun(g, w, h, N, x, y, len);
    LineOfRun(g, w, h, E, x, y, len);
    LineOfRun(g, w, h, NW, x, y, len);
    LineOfRun(g, w, h, NE, x, y, len);
    if RunThrough(g, w, h, x, y, len) {
      var d: Direction, k: int :| Axis(d) && 1 - len <= k <= 0 && Run(g, w, h, g[x][y], d, Walk(d, x, y, k), len);
      assert d == N || d == E || d == NW || d == NE;
    }
  }

  // ------------------------------------------------------------ moves ---

  /**
   * The `moves` test on a column of height `hx` as written, with its
   * unsigned arithmetic: `hx == 0 || hx - 1U < MAX_Y - 1U`.
   */
  predicate Playable(hx: nat, h: nat)
  {
    hx == 0 || (hx - 1) % 0x1_0000_0000 < (h - 1) % 0x1_0000_0000
  }

  /** On a column no higher than the board the test means "there is room". */
  lemma PlayableIff(hx: nat, h: nat)
    requires 1 <= h < 0x1_0000_0000 && hx <= h
    ensures Playable(hx, h) <==> hx < h
  {
  }

  /** The columns among the first k with room left, in increasing order. */
  function OpenColumns(heights: seq<nat>, h: nat, k: nat): (r: seq<nat>)
    requires k <= |heights|
    ensures |r| <= k && forall j :: 0 <= j < |r| ==> r[j] < k
  {
    if k == 0 then []
    else OpenColumns(heights, h, k - 1) + (if Playable(heights[k - 1], h) then [k - 1] else [])
  }

  /** A column is listed, exactly once, iff it passes the `moves` test. */
  lemma {:induction false} OpenColumnsExact(heights: seq<nat>, h: nat, k: nat)
    requires k <= |heights|
    ensures forall x :: 0 <= x < k ==> (x in OpenColumns(heights, h, k) <==> Playable(heights[x], h))
    ensures forall i, j :: 0 <= i < j < |OpenColumns(heights, h, k)| ==>
              OpenColumns(heights, h, k)[i] < OpenColumns(heights, h, k)[j]
  {
    if k > 0 {
      OpenColumnsExact(heights, h, k - 1);
    }
  }

  /**
   * `valid_index(i)` as written: `height[i] < MAX_Y - 1`, one row stricter
   * than `moves`, so a column with one free cell is never taken.
   */
  predicate ValidIndexAsWritten(heights: seq<nat>, h: nat, i: nat)
    requires i < |heights|
  {
    heights[i] < h - 1
  }

  /** `valid_index(i)` agreeing with `moves`: the column has room. */
  predicate ValidIndex(heights: seq<nat>, h: nat, i: nat)
    requires i < |heights|
  {
    heights[i] < h
  }

  /** The corrected test accepts exactly the columns `moves` lists. */
  lemma ValidIndexIsListed(heights: seq<nat>, h: nat, i: nat)
    requires 1 <= h < 0x1_0000_0000 && i < |heights| && heights[i] <= h
    ensures ValidIndex(heights, h, i) <==> i in OpenColumns(heights, h, |heights|)
  {
    OpenColumnsExact(heights, h, |heights|);
    PlayableIff(heights[i], h);
  }

  /** A column with one free cell left is listed by `moves` and refused by `valid_index`. */
  lemma ValidIndexRefusesLastCell(h: nat)
    requires 1 <= h < 0x1_0000_0000
    ensures 0 in OpenColumns([h - 1], h, 1) && !ValidIndexAsWritten([h - 1], h, 0)
  {
    PlayableIff(h - 1, h);
  }

  // --------------------------------------------------------- features ---

  /**
   * `operator[](i)` as written: the feature pair of cell i/2 shows 1 on
   * its even half for a piece of either colour and 0 on its odd half.
   */
  function FeatureAsWritten(g: seq<seq<Color>>, w: nat, h: nat, i: nat): real
    requires Shaped(g, w, h) && w >= 1 && (i / 2) / w < h
  {
    var x, y := (i / 2) % w, (i / 2) / w;
    if i % 2 == 0 && g[x][y] == Black then 1.0
    else if i % 2 == 0 && g[x][y] == White then 1.0
    else 0.0
  }

  /** A white piece lights the black half of its pair, and the white half never lights. */
  lemma FeatureAsWrittenMixesColours(g: seq<seq<Color>>, w: nat, h: nat, i: nat)
    requires Shaped(g, w, h) && w >= 1 && (i / 2) / w < h
    ensures g[(i / 2) % w][(i / 2) / w] == White && i % 2 == 0 ==> FeatureAsWritten(g, w, h, i) == 1.0
    ensures i % 2 == 1 ==> FeatureAsWritten(g, w, h, i) == 0.0
  {
  }

  /** `operator[](i)` with the second test on the odd half: even i for Black, odd i for White. */
  function Feature(g: seq<seq<Color>>, w: nat, h: nat, i: nat): (r: real)
    requires Shaped(g, w, h) && w >= 1 && (i / 2) / w < h
    ensures r == 1.0 || r == 0.0
    ensures var c := g[(i / 2) % w][(i / 2) / w];
      (r == 1.0 <==> (i % 2 == 0 && c == Black) || (i % 2 == 1 && c == White))
  {
    var x, y := (i / 2) % w, (i / 2) / w;
    if i % 2 == 0 && g[x][y] == Black then 1.0
    else if i % 2 == 1 && g[x][y] == White then 1.0
    else 0.0
  }

  // ---------------------------------------------------------- parsing ---

  /** `parse_move`: exactly one token, read by `atoi`, less one, narrowed to `uint8_t`, with no range test. */
  function ParseMove(tokens: seq<string>): (r: Option<nat>)
    ensures r.Some? <==> |tokens| == 1
    ensures r.Some? ==> r.value < 256 && (r.value - (Atoi(tokens[0]) - 1)) % 256 == 0
  {
    if |tokens| != 1 then Nothing else Some(Byte(Atoi(tokens[0]) - 1))
  }

  /** A 1-based column number printed and parsed gives the column back. */
  lemma ParseMoveRoundTrip(x: nat)
    requires x < 256
    ensures ParseMove([Decimal(x + 1)]) == Some(x)
  {
    AtoiDecimal(x + 1);
    ByteOfSmall(x);
  }

  /** Nothing is checked against the board: "0" gives column 255. */
  lemma ParseMoveUnchecked()
    ensures ParseMove([Decimal(0)]) == Some(255)
  {
    AtoiDecimal(0);
  }

  // ------------------------------------------------------------ state ---

  /** `MoveList<MAX_MOVES>`: the columns added so far, at most `capacity`. */
  class MoveList {
    const capacity: nat
    var items: seq<nat>

    constructor (capacity: nat)
      ensures this.capacity == capacity && items == []
    {
      this.capacity := capacity;
      items := [];
    }

    method Clear()
      modifies this
      ensures items == []
    {
      items := [];
    }

    /** `add(x)`, which asserts that the list has room. */
    method Add(x: nat)
      requires |items| < capacity
      modifies this
      ensures items == old(items) + [x]
    {
      items := items + [x];
    }
  }

  /** Every column is filled from row 0 up to its height and empty above it. */
  ghost predicate Stacked(g: seq<seq<Color>>, heights: seq<nat>, w: nat, h: nat)
    requires Shaped(g, w, h) && |heights| == w
  {
    forall x, y :: 0 <= x < w && 0 <= y < h ==> (g[x][y] != None <==> y < heights[x])
  }

  /** Dropping a player's piece on top of a column keeps the columns stacked. */
  lemma DropKeepsStacked(g: seq<seq<Color>>, heights: seq<nat>, w: nat, h: nat, x: nat, c: Color)
    requires Shaped(g, w, h) && |heights| == w && Stacked(g, heights, w, h)
    requires x < w && heights[x] < h && IsPlayer(c)
    ensures Shaped(g[x := g[x][heights[x] := c]], w, h)
    ensures Stacked(g[x := g[x][heights[x] := c]], heights[x := heights[x] + 1], w, h)
  {
  }

  /** `State<MAX_X, MAX_Y>`: column heights, the grid and the turn bookkeeping. */
  class State {
    const maxX: nat
    const maxY: nat
    var heights: seq<nat>
    var cells: seq<seq<Color>>
    var winner: Color
    var justPlayed: Color
    var gameOver: bool

    ghost predicate Valid()
      reads this
    {
      1 <= maxY < 256 && |heights| == maxX && Shaped(cells, maxX, maxY) &&
      (forall x :: 0 <= x < maxX ==> heights[x] <= maxY) &&
      Stacked(cells, heights, maxX, maxY) && IsPlayer(justPlayed)
    }

    function Current(): Color
      reads this
    {
      Other(justPlayed)
    }

    /** `State()`, that is `clear()`: an empty grid, all heights 0, Black to move. */
    constructor (maxX: nat, maxY: nat)
      requires 1 <= maxY < 256
      ensures this.maxX == maxX && this.maxY == maxY && Valid()
      ensures heights == seq(maxX, _ => 0) && cells == seq(maxX, _ => seq(maxY, _ => None))
      ensures winner == None && justPlayed == White && !gameOver
    {
      this.maxX, this.maxY := maxX, maxY;
      heights := seq(maxX, _ => 0);
      cells := seq(maxX, _ => seq(maxY, _ => None));
      winner, justPlayed, gameOver := None, White, false;
    }

    /** `result(c)`. */
    function Result(c: Color): (r: real)
      reads this
      ensures r == Turns.Outcome(winner, c)
    {
      Turns.Outcome(winner, c)
    }

    /** `place(c, x)`: c lands on top of column x, which grows by one. */
    method Place(c: Color, x: nat)
      requires Valid() && x < maxX && heights[x] < maxY && IsPlayer(c)
      modifies this
      ensures Valid()
      ensures cells == old(cells[x := cells[x][heights[x] := c]])
      ensures heights == old(heights[x := heights[x] + 1])
      ensures winner == old(winner) && justPlayed == old(justPlayed) && gameOver == old(gameOver)
    {
      var y := heights[x];
      assert cells[x][y] == None;
      DropKeepsStacked(cells, heights, maxX, maxY, x, c);
      cells := cells[x := cells[x][y := c]];
      heights := heights[x := y + 1];
    }

    /**
     * `move(m)`: the side to move drops a piece in column x; it wins, and the
     * game ends, when the piece makes a line of four.
     */
    method Move(x: nat)
      requires Valid() && x < maxX && heights[x] < maxY
      modifies this
      ensures Valid()
      ensures var y := old(heights[x]);
        cells == old(cells[x := cells[x][y := Current()]]) &&
        heights == old(heights[x := y + 1]) &&
        (if Connects(cells, maxX, maxY, x, y, 4)
         then winner == old(Current()) && gameOver
         else winner == old(winner) && gameOver == old(gameOver))
      ensures justPlayed == old(Current())
    {
      var player := Current();
      Place(player, x);
      if Connects(cells, maxX, maxY, x, heights[x] - 1, 4) {
        winner := player;
        gameOver := true;
      }
      justPlayed := player;
    }

    /**
     * `moves(ml)`: nothing once the game is over; otherwise every column
     * with room, in increasing order, and game over when there is none.
     */
    method Moves(ml: MoveList)
      requires Valid() && |ml.items| + |OpenColumns(heights, maxY, maxX)| <= ml.capacity
      modifies this, ml
      ensures Valid() && cells == old(cells) && heights == old(heights)
      ensures winner == old(winner) && justPlayed == old(justPlayed)
      ensures old(gameOver) ==> ml.items == old(ml.items) && gameOver
      ensures !old(gameOver) ==> ml.items == old(ml.items) + OpenColumns(heights, maxY, maxX)
      ensures !old(gameOver) ==> gameOver == (|ml.items| == 0)
    {
      if gameOver {
        return;
      }
      var x := 0;
      while x < maxX
        invariant unchanged(this) && 0 <= x <= maxX
        invariant ml.items == old(ml.items) + OpenColumns(heights, maxY, x)
      {
        OpenColumnsGrow(heights, maxY, x, maxX);
        if Playable(heights[x], maxY) {
          ml.Add(x);
        }
        x := x + 1;
      }
      if |ml.items| == 0 {
        gameOver := true;
      }
    }

    /** `random_move`: some column with room, when the game goes on and there is one. */
    method RandomMove(ml: MoveList) returns (found: bool, x: nat)
      requires Valid() && maxX <= ml.capacity
      modifies this, ml
      ensures Valid() && cells == old(cells) && heights == old(heights)
      ensures found <==> !old(gameOver) && |OpenColumns(heights, maxY, maxX)| > 0
      ensures found ==> x < maxX && heights[x] < maxY
    {
      ml.Clear();
      Moves(ml);
      if |ml.items| == 0 {
        return false, 0;
      }
      var k :| 0 <= k < |ml.items|;
      x := ml.items[k];
      OpenColumnsExact(heights, maxY, maxX);
      PlayableIff(heights[x], maxY);
      found := true;
    }
  }

  /** The list of open columns only grows as more columns are scanned. */
  lemma OpenColumnsGrow(heights: seq<nat>, h: nat, i: nat, k: nat)
    requires i < k <= |heights|
    ensures OpenColumns(heights, h, i + 1) == OpenColumns(heights, h, i) + (if Playable(heights[i], h) then [i] else [])
    ensures |OpenColumns(heights, h, i + 1)| <= |OpenColumns(heights, h, k)|
    decreases k - i
  {
    if i + 1 < k {
      OpenColumnsGrow(heights, h, i + 1, k);
    }
  }
}
