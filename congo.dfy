// Congo (games/congo2.h): pieces, moves, the move list and the precomputed
// move tables. The game state itself is module CongoState.
// Squares are numbered x + 8y on the 7x7 board inside an 8x8 layout, so
// square numbers run up to 54.
module Congo {
  import opened Common
  import opened Bitboard
  import Turns = State

  /** `Piece`, in declaration order. */
  datatype Piece = Empty | Giraffe | Monkey | Elephant | Lion | Crocodile | Zebra | Pawn | Superpawn

  /** `NUM_POSITIONS`: the squares up to the last one of the 7x7 board. */
  const NumPositions: nat := 55

  /** `INVALID`: column 7 and row 7, the squares outside the board. */
  const Invalid: bv64 := 0xFF80_8080_8080_8080
  /** `RIVER`: row 3. */
  const River: bv64 := 0x0000_0000_7F00_0000
  /** `BLACK_PROMOTE`: row 6, the far row for Black. */
  const BlackPromote: bv64 := 0x007F_0000_0000_0000
  /** `WHITE_PROMOTE`: row 0, the far row for White. */
  const WhitePromote: bv64 := 0x0000_0000_0000_007F
  /** `BLACK_CASTLE`: columns 2 to 4 of rows 0 to 2. */
  const BlackCastle: bv64 := 0x0000_0000_001C_1C1C
  /** `WHITE_CASTLE`: columns 2 to 4 of rows 4 to 6. */
  const WhiteCastle: bv64 := 0x001C_1C1C_0000_0000

  // ---------------------------------------------------------- move list ---

  /** `Move`: from square a to square b, by colour c, and whether b was occupied. */
  datatype Move = Move(a: BitIndex, b: BitIndex, c: Color, isCapture: bool)

  /** The set bits of d, lowest first: the order in which `add` peels them off. */
  function Targets(d: bv64): (ts: seq<BitIndex>)
  {
    TargetsFrom(d, 0)
  }

  /** The set bits of d at position k and above, lowest first. */
  function TargetsFrom(d: bv64, k: bv8): (ts: seq<BitIndex>)
    requires k <= 64
    decreases 64 - k
  {
    if k == 64 then []
    else if Bit(d, k) == 1 then [k] + TargetsFrom(d, k + 1)
    else TargetsFrom(d, k + 1)
  }

  /** The moves `add` appends for the targets ts, in that order. */
  function MovesTo(c: Color, bb: bv64, k: BitIndex, ts: seq<BitIndex>): (ms: seq<Move>)
    ensures |ms| == |ts|
  {
    if ts == [] then [] else [Move(k, ts[0], c, Bit(bb, ts[0]) == 1)] + MovesTo(c, bb, k, ts[1..])
  }

  /** The targets from k are exactly the set bits at k and above. */
  lemma {:induction false} TargetsFromBits(d: bv64, k: bv8)
    requires k <= 64
    ensures forall j: BitIndex :: j in TargetsFrom(d, k) <==> k <= j && Bit(d, j) == 1
    decreases 64 - k
  {
    if k < 64 {
      TargetsFromBits(d, k + 1);
    }
  }

  /** The targets of d are exactly its set bits. */
  lemma TargetsAreBits(d: bv64)
    ensures forall j: BitIndex :: j in Targets(d) <==> Bit(d, j) == 1
  {
    TargetsFromBits(d, 0);
  }

  /** The targets come in increasing order, so none is listed twice. */
  lemma {:induction false} TargetsIncrease(d: bv64, k: bv8)
    requires k <= 64
    ensures forall p, q :: 0 <= p < q < |TargetsFrom(d, k)| ==> TargetsFrom(d, k)[p] < TargetsFrom(d, k)[q]
    decreases 64 - k
  {
    if k < 64 {
      var next := k + 1;
      TargetsIncrease(d, next);
      TargetsFromBits(d, next);
      var ts, rest := TargetsFrom(d, k), TargetsFrom(d, next);
      if Bit(d, k) == 1 {
        ConsIncreasing(ts, k, rest);
      } else {
        assert ts == rest;
      }
    }
  }

  /** An increasing run stays increasing with a smaller entry in front. */
  lemma ConsIncreasing(ts: seq<BitIndex>, k: BitIndex, rest: seq<BitIndex>)
    requires ts == [k] + rest
    requires forall j :: j in rest ==> k < j
    requires forall p, q :: 0 <= p < q < |rest| ==> rest[p] < rest[q]
    ensures forall p, q :: 0 <= p < q < |ts| ==> ts[p] < ts[q]
  {
    forall p, q | 0 <= p < q < |ts|
      ensures ts[p] < ts[q]
    {
      var q' := q - 1;
      assert ts[q] == rest[q'] && rest[q'] in rest;
      if p > 0 {
        var p' := p - 1;
        assert ts[p] == rest[p'];
      }
    }
  }

  /** There are as many targets as set bits: `count` rises by the popcount of d. */
  lemma {:induction false} TargetsCount(d: bv64, k: bv8)
    requires k <= 64
    ensures |TargetsFrom(d, k)| == CountFrom(d, k)
    decreases 64 - k
  {
    if k < 64 {
      TargetsCount(d, k + 1);
    }
  }

  /** A stretch of clear bits adds no targets. */
  lemma {:induction false} SkipClear(d: bv64, a: bv8, b: bv8)
    requires a <= b <= 64
    requires forall j: BitIndex :: a <= j < b ==> Bit(d, j) == 0
    ensures TargetsFrom(d, a) == TargetsFrom(d, b)
    decreases b - a
  {
    if a < b {
      SkipClear(d, a + 1, b);
    }
  }

  /** Words that agree from k upwards have the same targets from k. */
  lemma {:induction false} SameAbove(d: bv64, e: bv64, k: bv8)
    requires k <= 64
    requires forall j: BitIndex :: k <= j ==> Bit(d, j) == Bit(e, j)
    ensures TargetsFrom(d, k) == TargetsFrom(e, k)
    decreases 64 - k
  {
    if k < 64 {
      SameAbove(d, e, k + 1);
    }
  }

  /** Peeling the lowest set bit t: the targets are t, then the targets of the rest. */
  lemma Peel(n: bv64, t: BitIndex)
    requires LowestAt(n, t)
    ensures Targets(n) == [t] + Targets(ClearBit(n, t))
  {
    var rest := ClearBit(n, t);
    forall j: BitIndex | j < t
      ensures Bit(n, j) == 0 && Bit(rest, j) == 0
    {
      BelowLowest(n, t, j);
      ClearBitOther(n, t, j);
    }
    ClearBitSpec(n, t);
    SkipClear(n, 0, t);
    SkipClear(rest, 0, t + 1);
    SameAbove(n, rest, t + 1);
  }

  /** The empty word has no targets. */
  lemma NoTargets()
    ensures Targets(0) == []
  {
    SkipClear(0, 0, 64);
  }

  /** Below the lowest set bit every bit is clear. */
  lemma BelowLowest(d: bv64, t: BitIndex, j: BitIndex)
    requires ClearBelow(d, t) && j < t
    ensures Bit(d, j) == 0
  {
  }

  /** Each move `add` appends starts at k, is by c, lands on one of the targets, and is a capture iff bb holds the target. */
  lemma {:induction false} MovesToSpec(c: Color, bb: bv64, k: BitIndex, ts: seq<BitIndex>)
    ensures forall m :: m in MovesTo(c, bb, k, ts) ==> m.a == k && m.c == c && m.b in ts && (m.isCapture <==> Bit(bb, m.b) == 1)
    ensures forall p :: 0 <= p < |ts| ==> MovesTo(c, bb, k, ts)[p] == Move(k, ts[p], c, Bit(bb, ts[p]) == 1)
  {
    if ts != [] {
      MovesToSpec(c, bb, k, ts[1..]);
    }
  }

  /** A move is among those `add` appends exactly when it starts at k, is by c, lands on a target, and is a capture iff bb holds the target. */
  lemma MovesToMember(c: Color, bb: bv64, k: BitIndex, ts: seq<BitIndex>, m: Move)
    ensures m in MovesTo(c, bb, k, ts) <==> m.a == k && m.c == c && m.b in ts && (m.isCapture <==> Bit(bb, m.b) == 1)
  {
    MovesToSpec(c, bb, k, ts);
    if m.a == k && m.c == c && m.b in ts && (m.isCapture <==> Bit(bb, m.b) == 1) {
      var p :| 0 <= p < |ts| && ts[p] == m.b;
      assert MovesTo(c, bb, k, ts)[p] == m;
    }
  }

  /** What one round of `add` appends: the move to the first target, before the moves to the others. */
  lemma MovesToCons(c: Color, bb: bv64, k: BitIndex, t: BitIndex, ts: seq<BitIndex>)
    ensures MovesTo(c, bb, k, [t] + ts) == [Move(k, t, c, Bit(bb, t) == 1)] + MovesTo(c, bb, k, ts)
  {
    assert ([t] + ts)[1..] == ts;
  }

  /** `n ^= j` with j the lowest bit of n on its own clears that bit. */
  lemma XorLowest(n: bv64, t: BitIndex)
    requires Bit(n, t) == 1
    ensures n ^ (1 << t) == ClearBit(n, t)
  {
  }

  /** `(bb & (1 << b)) > 0` tests bit b. */
  lemma MaskTest(bb: bv64, t: BitIndex)
    ensures (bb & (1 << t) != 0) <==> Bit(bb, t) == 1
  {
  }

  /**
   * `j = n & (~n + 1)`, `log2(j)` and `n ^ j`: the position of the lowest
   * set bit of n, and n without it.
   */
  method Isolate(n: bv64) returns (t: BitIndex, rest: bv64)
    requires n != 0
    ensures LowestAt(n, t)
    ensures rest == ClearBit(n, t)
    ensures Popcount(rest) < Popcount(n)
  {
    ghost var r := LowestBit(n);
    IsolateFacts(n, r);
    var j := n & (!n + 1);
    t := HighestBit(j);
    rest := n ^ j;
  }

  /** The same step, seen on the list of targets: the first target goes, the others stay. */
  method Lowest(n: bv64) returns (t: BitIndex, rest: bv64)
    requires n != 0
    ensures Targets(n) == [t] + Targets(rest) && Popcount(rest) < Popcount(n)
  {
    t, rest := Isolate(n);
    Peel(n, t);
  }

  /** `(bb.data & (1ULL << b)) > 0`: whether bb holds square b. */
  method IsCapture(bb: bv64, t: BitIndex) returns (capture: bool)
    ensures capture <==> Bit(bb, t) == 1
  {
    MaskTest(bb, t);
    capture := bb & (1 << t) != 0;
  }

  lemma IsolateFacts(n: bv64, r: BitIndex)
    requires LowestAt(n, r)
    ensures n & (!n + 1) != 0 && HighestBit(n & (!n + 1)) == r
    ensures n ^ (n & (!n + 1)) == ClearBit(n, r)
    ensures Popcount(ClearBit(n, r)) < Popcount(n)
  {
    IsolateAt(n, r);
    SingleBitPosition(n & (!n + 1), r);
    SingleBitClears(n, n & (!n + 1), r);
    PopcountClear(n, r);
  }

  /** `log2(j)` when j is bit r on its own. */
  lemma SingleBitPosition(j: bv64, r: BitIndex)
    requires j == 1 << r
    ensures j != 0 && HighestBit(j) == r
  {
    HighestIsLowestOnSingleBit(r);
  }

  /** `n ^ j` when j is bit r of n on its own. */
  lemma SingleBitClears(n: bv64, j: bv64, r: BitIndex)
    requires Bit(n, r) == 1 && j == 1 << r
    ensures n ^ j == ClearBit(n, r)
  {
    XorLowest(n, r);
  }

  /** `MoveList`: the moves listed so far; `count` is the length of `items`. */
  class MoveList {
    var items: seq<Move>

    /** `MoveList()`: an empty list. */
    constructor ()
      ensures items == []
    {
      items := [];
    }

    /** `clear()`. */
    method Clear()
      modifies this
      ensures items == []
    {
      items := [];
    }

    /**
     * `add(c, square, bb, k, d)`: one move from k per set bit of d, the
     * lowest target first, a capture exactly when bb holds the target.
     */
    method Add(c: Color, bb: bv64, k: BitIndex, d: bv64)
      modifies this
      ensures items == old(items) + MovesTo(c, bb, k, Targets(d))
    {
      ghost var goal := old(items) + MovesTo(c, bb, k, Targets(d));
      var n := d;
      NoTargets();
      while n != 0
        invariant items + MovesTo(c, bb, k, Targets(n)) == goal
        decreases Popcount(n)
      {
        n := AddLowest(c, bb, k, n, goal);
      }
    }

    /** One round of the loop of `add`: the move to the lowest target of n, and n without it. */
    method AddLowest(c: Color, bb: bv64, k: BitIndex, n: bv64, ghost goal: seq<Move>) returns (rest: bv64)
      requires n != 0 && items + MovesTo(c, bb, k, Targets(n)) == goal
      modifies this
      ensures items + MovesTo(c, bb, k, Targets(rest)) == goal
      ensures Popcount(rest) < Popcount(n)
    {
      var t;
      t, rest := Lowest(n);
      var capture := IsCapture(bb, t);
      MovesToCons(c, bb, k, t, Targets(rest));
      items := items + [Move(k, t, c, capture)];
    }
  }

  // -------------------------------------------------------- move tables ---

  /** `try_set(x, y)` on a word: set the square when it is on the 7x7 board. */
  function TrySetBit(b: bv64, sq: (int, int)): bv64
  {
    if OnBoard(sq.0, sq.1) then SetBit(b, Square(sq.0, sq.1)) else b
  }

  /** `try_set` on each square in turn. */
  function SetAll(b: bv64, squares: seq<(int, int)>): bv64
    decreases |squares|
  {
    if squares == [] then b else SetAll(TrySetBit(b, squares[0]), squares[1..])
  }

  /** The squares a list of steps reaches from (x, y). */
  function Around(x: int, y: int, steps: seq<(int, int)>): (sq: seq<(int, int)>)
    ensures |sq| == |steps|
    ensures forall k :: 0 <= k < |steps| ==> sq[k] == (x + steps[k].0, y + steps[k].1)
  {
    seq(|steps|, k requires 0 <= k < |steps| => (x + steps[k].0, y + steps[k].1))
  }

  /** The steps of `gen_adjacent`: the eight neighbours. */
  const AdjacentSteps: seq<(int, int)> := [(-1, -1), (0, -1), (1, -1), (-1, 0), (1, 0), (-1, 1), (0, 1), (1, 1)]
  /** The steps of `gen_zebra`: the knight's jumps. */
  const ZebraSteps: seq<(int, int)> := [(-2, -1), (-1, -2), (1, -2), (2, -1), (-2, 1), (-1, 2), (1, 2), (2, 1)]
  /** The steps of `gen_elephant`: one or two squares straight. */
  const ElephantSteps: seq<(int, int)> := [(-2, 0), (-1, 0), (1, 0), (2, 0), (0, -2), (0, -1), (0, 1), (0, 2)]
  /** The steps of `gen_giraffe_attack`: two squares straight or diagonal. */
  const GiraffeSteps: seq<(int, int)> := [(-2, -2), (0, -2), (2, -2), (-2, 0), (2, 0), (-2, 2), (0, 2), (2, 2)]

  /** The steps of `gen_pawn_attack(d)`: the three squares ahead, d being the forward direction. */
  function PawnAttackSteps(d: int): seq<(int, int)>
  {
    [(-1, d), (0, d), (1, d)]
  }

  /** The steps of `gen_superpawn_attack(d)`: the three squares ahead and the two beside. */
  function SuperpawnAttackSteps(d: int): seq<(int, int)>
  {
    [(-1, d), (0, d), (1, d), (-1, 0), (1, 0)]
  }

  /**
   * The steps of `gen_pawn_retreat(d)`: one or two squares straight back,
   * only for a pawn past the river (row above 3 for Black, below 3 for White).
   */
  function PawnRetreatSteps(d: int, y: int): seq<(int, int)>
  {
    if (d == 1 && y > 3) || (d == -1 && y < 3) then [(0, -d), (0, -2 * d)] else []
  }

  /** The steps of `gen_superpawn_retreat(d)`: one or two squares back, straight or diagonal. */
  function SuperpawnRetreatSteps(d: int): seq<(int, int)>
  {
    [(0, -d), (0, -2 * d), (-1, -d), (-2, -2 * d), (1, -d), (2, -2 * d)]
  }

  /** The squares from row ty down to the river row 3 (the first loop of `gen_croc`). */
  function Down(x: int, ty: int): seq<(int, int)>
    decreases ty
  {
    if ty > 2 then [(x, ty)] + Down(x, ty - 1) else []
  }

  /** The squares from row ty up to the river row 3 (the second loop of `gen_croc`). */
  function Up(x: int, ty: int): seq<(int, int)>
    decreases 4 - ty
  {
    if ty < 4 then [(x, ty)] + Up(x, ty + 1) else []
  }

  /** The squares of row y from column tx leftwards while the column is above `stop`. */
  function Left(tx: int, y: int, stop: int): seq<(int, int)>
    decreases tx - stop
  {
    if tx > stop then [(tx, y)] + Left(tx - 1, y, stop) else []
  }

  /** The squares of row y from column tx rightwards up to column 6. */
  function Right(tx: int, y: int): seq<(int, int)>
    decreases 7 - tx
  {
    if tx < 7 then [(tx, y)] + Right(tx + 1, y) else []
  }

  /**
   * The squares `gen_croc` visits: straight towards the river, and along
   * the river when the crocodile is in it; the leftward slide runs while
   * the column is above `stop`.
   */
  function CrocSquares(x: int, y: int, stop: int): seq<(int, int)>
  {
    Down(x, y - 1) + Up(x, y + 1) + (if y == 3 then Left(x - 1, y, stop) + Right(x + 1, y) else [])
  }

  /** `gen_croc` as written: the leftward slide stops at column 1. */
  function CrocAsWritten(x: int, y: int): bv64
  {
    SetAll(0, CrocSquares(x, y, 0))
  }

  /** `gen_croc` as meant: the leftward slide reaches column 0. */
  function Croc(x: int, y: int): bv64
  {
    SetAll(0, CrocSquares(x, y, -1))
  }

  /** One table entry per square: what `populate` stores at index x + 8y of each table. */
  datatype Entry = Entry(
    adjacent: bv64, giraffe: bv64, elephant: bv64, zebra: bv64, croc: bv64,
    blackLion: bv64, whiteLion: bv64,
    blackPawn: bv64, whitePawn: bv64, blackSpawn: bv64, whiteSpawn: bv64,
    blackPawnBack: bv64, whitePawnBack: bv64, blackSpawnBack: bv64, whiteSpawnBack: bv64)

  /** An entry `populate` never writes: the zero-initialised tables. */
  const Blank: Entry := Entry(0, 0, 0, 0, 0, 0, 0, 0, 0, 0, 0, 0, 0, 0, 0)

  /**
   * A lion's moves: the neighbours inside its own castle when it stands in
   * the castle, and none otherwise.
   */
  function LionMoves(castle: bv64, square: BitIndex, adjacent: bv64): (r: bv64)
    ensures r & !castle == 0
    ensures Bit(castle, square) == 0 ==> r == 0
  {
    MaskTest(castle, square);
    if castle & (1 << square) != 0 then adjacent & castle else 0
  }

  /** The entry `populate` computes for square (x, y) of the board. */
  function EntryAt(x: int, y: int): Entry
    requires OnBoard(x, y)
  {
    var am := SetAll(0, Around(x, y, AdjacentSteps));
    var i := Square(x, y);
    Entry(am, SetAll(0, Around(x, y, GiraffeSteps)), SetAll(0, Around(x, y, ElephantSteps)),
          SetAll(0, Around(x, y, ZebraSteps)), Croc(x, y),
          LionMoves(BlackCastle, i, am), LionMoves(WhiteCastle, i, am),
          SetAll(0, Around(x, y, PawnAttackSteps(1))), SetAll(0, Around(x, y, PawnAttackSteps(-1))),
          SetAll(0, Around(x, y, SuperpawnAttackSteps(1))), SetAll(0, Around(x, y, SuperpawnAttackSteps(-1))),
          SetAll(0, Around(x, y, PawnRetreatSteps(1, y))), SetAll(0, Around(x, y, PawnRetreatSteps(-1, y))),
          SetAll(0, Around(x, y, SuperpawnRetreatSteps(1))), SetAll(0, Around(x, y, SuperpawnRetreatSteps(-1))))
  }

  /** The tables as `populate` leaves them: entries on the board computed, column 7 left blank. */
  function Tables(): (t: seq<Entry>)
    ensures |t| == NumPositions
  {
    seq(NumPositions, i requires 0 <= i < NumPositions => if i % 8 < 7 then EntryAt(i % 8, i / 8) else Blank)
  }

  // --- what the tables hold

  /** `try_set` on any list of squares sets exactly the on-board ones among them. */
  lemma {:induction false} SetAllBits(b: bv64, squares: seq<(int, int)>, x: int, y: int)
    requires OnBoard(x, y)
    ensures Bit(SetAll(b, squares), Square(x, y)) == 1
        <==> Bit(b, Square(x, y)) == 1 || (x, y) in squares
    decreases |squares|
  {
    if squares != [] {
      var sq := squares[0];
      SetAllBits(TrySetBit(b, sq), squares[1..], x, y);
      assert squares == [sq] + squares[1..];
      TrySetBitAt(b, sq, x, y);
    }
  }

  /** One `try_set` sets the square it names, when on the board, and no other. */
  lemma TrySetBitAt(b: bv64, sq: (int, int), x: int, y: int)
    requires OnBoard(x, y)
    ensures Bit(TrySetBit(b, sq), Square(x, y)) == 1
        <==> Bit(b, Square(x, y)) == 1 || sq == (x, y)
  {
    var i := Square(x, y);
    if OnBoard(sq.0, sq.1) {
      var j := Square(sq.0, sq.1);
      if sq == (x, y) {
        SetBitSpec(b, j);
      } else {
        SquaresDiffer(x, y, sq.0, sq.1);
        SetBitOther(b, j, i);
      }
    }
  }

  /** The empty word has no bit set. */
  lemma ZeroBit(i: BitIndex)
    ensures Bit(0, i) == 0
  {
  }

  /** `try_set` never sets a bit of `INVALID`: every table lies inside the 7x7 board. */
  lemma {:induction false} SetAllOnBoard(b: bv64, squares: seq<(int, int)>)
    ensures SetAll(b, squares) & Invalid == b & Invalid
    decreases |squares|
  {
    if squares != [] {
      TrySetOnBoard(b, squares[0]);
      SetAllOnBoard(TrySetBit(b, squares[0]), squares[1..]);
    }
  }

  /** One `try_set` leaves the bits of `INVALID` alone. */
  lemma TrySetOnBoard(b: bv64, sq: (int, int))
    ensures TrySetBit(b, sq) & Invalid == b & Invalid
  {
    if OnBoard(sq.0, sq.1) {
      TrySetStaysOnBoard(b, sq.0, sq.1);
    }
  }

  /** Every table `populate` fills has no bit in `INVALID`. */
  lemma EntryOnBoard(x: int, y: int)
    requires OnBoard(x, y)
    ensures var e := EntryAt(x, y);
      e.adjacent & Invalid == 0 && e.giraffe & Invalid == 0 && e.elephant & Invalid == 0 &&
      e.zebra & Invalid == 0 && e.croc & Invalid == 0 && e.blackLion & Invalid == 0 && e.whiteLion & Invalid == 0 &&
      e.blackPawn & Invalid == 0 && e.whitePawn & Invalid == 0 && e.blackSpawn & Invalid == 0 && e.whiteSpawn & Invalid == 0 &&
      e.blackPawnBack & Invalid == 0 && e.whitePawnBack & Invalid == 0 &&
      e.blackSpawnBack & Invalid == 0 && e.whiteSpawnBack & Invalid == 0
  {
    SetAllOnBoard(0, Around(x, y, AdjacentSteps));
    SetAllOnBoard(0, Around(x, y, GiraffeSteps));
    SetAllOnBoard(0, Around(x, y, ElephantSteps));
    SetAllOnBoard(0, Around(x, y, ZebraSteps));
    SetAllOnBoard(0, CrocSquares(x, y, -1));
    SetAllOnBoard(0, Around(x, y, PawnAttackSteps(1)));
    SetAllOnBoard(0, Around(x, y, PawnAttackSteps(-1)));
    SetAllOnBoard(0, Around(x, y, SuperpawnAttackSteps(1)));
    SetAllOnBoard(0, Around(x, y, SuperpawnAttackSteps(-1)));
    SetAllOnBoard(0, Around(x, y, PawnRetreatSteps(1, y)));
    SetAllOnBoard(0, Around(x, y, PawnRetreatSteps(-1, y)));
    SetAllOnBoard(0, Around(x, y, SuperpawnRetreatSteps(1)));
    SetAllOnBoard(0, Around(x, y, SuperpawnRetreatSteps(-1)));
  }

  /** The adjacency table holds exactly the king-move neighbours on the board. */
  lemma AdjacentExactly(x: int, y: int, tx: int, ty: int)
    requires OnBoard(x, y) && OnBoard(tx, ty)
    ensures Bit(EntryAt(x, y).adjacent, Square(tx, ty)) == 1
        <==> (tx, ty) != (x, y) && -1 <= tx - x <= 1 && -1 <= ty - y <= 1
  {
    SetAllBits(0, Around(x, y, AdjacentSteps), tx, ty);
    ZeroBit(Square(tx, ty));
    AdjacentAround(x, y, tx, ty);
  }

  /** The eight steps of `gen_adjacent` reach exactly the squares one king move away. */
  lemma AdjacentAround(x: int, y: int, tx: int, ty: int)
    ensures (tx, ty) in Around(x, y, AdjacentSteps) <==> (tx, ty) != (x, y) && -1 <= tx - x <= 1 && -1 <= ty - y <= 1
  {
    var sq := Around(x, y, AdjacentSteps);
    if (tx, ty) != (x, y) && -1 <= tx - x <= 1 && -1 <= ty - y <= 1 {
      var k := if ty == y - 1 then tx - x + 1 else if ty == y then (if tx < x then 3 else 4) else tx - x + 6;
      assert sq[k] == (tx, ty);
    }
  }

  /** The leftward slide from column s while above `stop` covers columns stop+1 .. s of row y. */
  lemma {:induction false} LeftSquares(s: int, y: int, stop: int, tx: int, ty: int)
    ensures (tx, ty) in Left(s, y, stop) <==> ty == y && stop < tx <= s
    decreases s - stop
  {
    if s > stop {
      LeftSquares(s - 1, y, stop, tx, ty);
    }
  }

  /** The rightward slide from column s covers columns s .. 6 of row y. */
  lemma {:induction false} RightSquares(s: int, y: int, tx: int, ty: int)
    ensures (tx, ty) in Right(s, y) <==> ty == y && s <= tx < 7
    decreases 7 - s
  {
    if s < 7 {
      RightSquares(s + 1, y, tx, ty);
    }
  }

  /** The vertical slides only visit the crocodile's own column. */
  lemma {:induction false} DownColumn(x: int, ty: int, tx: int, sy: int)
    ensures (tx, sy) in Down(x, ty) ==> tx == x
    decreases ty
  {
    if ty > 2 {
      DownColumn(x, ty - 1, tx, sy);
    }
  }

  lemma {:induction false} UpColumn(x: int, ty: int, tx: int, sy: int)
    ensures (tx, sy) in Up(x, ty) ==> tx == x
    decreases 4 - ty
  {
    if ty < 4 {
      UpColumn(x, ty + 1, tx, sy);
    }
  }

  /** Along the river, square (tx, 3) is in the crocodile's table iff it lies on the slide. */
  lemma CrocRiver(x: int, stop: int, tx: int)
    requires OnBoard(x, 3) && OnBoard(tx, 3) && tx != x
    ensures Bit(SetAll(0, CrocSquares(x, 3, stop)), Square(tx, 3)) == 1
        <==> stop < tx < x || x < tx < 7
  {
    SetAllBits(0, CrocSquares(x, 3, stop), tx, 3);
    ZeroBit(Square(tx, 3));
    CrocRiverSquares(x, stop, tx);
  }

  /** Along the river, the crocodile's squares are the two slides. */
  lemma CrocRiverSquares(x: int, stop: int, tx: int)
    requires tx != x
    ensures (tx, 3) in CrocSquares(x, 3, stop) <==> stop < tx < x || x < tx < 7
  {
    DownColumn(x, 2, tx, 3);
    UpColumn(x, 4, tx, 3);
    LeftSquares(x - 1, 3, stop, tx, 3);
    RightSquares(x + 1, 3, tx, 3);
  }

  /**
   * As written, a crocodile in the river never reaches column 0 by sliding
   * left, although it reaches column 6 by sliding right.
   */
  lemma CrocAsWrittenMissesColumnZero(x: int)
    requires 1 <= x < 6
    ensures Bit(CrocAsWritten(x, 3), Square(0, 3)) == 0
    ensures Bit(CrocAsWritten(x, 3), Square(6, 3)) == 1
  {
    CrocRiver(x, 0, 0);
    CrocRiver(x, 0, 6);
  }

  /** As meant, a crocodile in the river reaches every other square of the river. */
  lemma CrocReachesRiver(x: int, tx: int)
    requires OnBoard(x, 3) && OnBoard(tx, 3) && tx != x
    ensures Bit(Croc(x, 3), Square(tx, 3)) == 1
  {
    CrocRiver(x, -1, tx);
  }

  // ------------------------------------------------------- lion sight ---

  /** `d.set(x, y)` for the rows y up to, not including, ty of column x. */
  function SightColumn(x: int, y: int, ty: int): bv64
    requires 0 <= x < 8 && 0 <= y && ty <= 8
    decreases ty - y
  {
    if y >= ty then 0 else SetBit(SightColumn(x, y + 1, ty), Square(x, y))
  }

  /**
   * `LION_SIGHT[b][w]` as `pop_lion_sight` fills it: b numbers the squares
   * of the black castle and w those of the white castle, three per row. The
   * entry holds the squares between the two lions when they share a column,
   * the centre square when they stand on the two corners of a diagonal
   * through it, and nothing otherwise.
   */
  function Sight(b: int, w: int): bv64
    requires 0 <= b < 9 && 0 <= w < 9
  {
    SightFrom(b, w, 2 + b % 3, b / 3, 2 + w % 3, 4 + w / 3)
  }

  /** The entry for castle squares b and w, with the lions' columns and rows worked out. */
  function SightFrom(b: int, w: int, blackX: int, blackY: int, whiteX: int, whiteY: int): bv64
    requires 0 <= blackX < 8 && 0 <= blackY && whiteY <= 8
  {
    if whiteX == blackX then SightColumn(blackX, blackY + 1, whiteY)
    else if (b == 6 && w == 2) || (b == 8 && w == 0) then SetBit(0, 27)
    else 0
  }

  /** Two lions at (blackX, blackY) and (whiteX, whiteY), Black's below White's, share a column or a diagonal. */
  predicate Aligned(blackX: int, blackY: int, whiteX: int, whiteY: int)
  {
    blackX == whiteX || whiteY - blackY == whiteX - blackX || whiteY - blackY == blackX - whiteX
  }

  /** (x, y) lies strictly between (blackX, blackY) and (whiteX, whiteY) on the column or diagonal they share. */
  predicate Between(blackX: int, blackY: int, whiteX: int, whiteY: int, x: int, y: int)
  {
    blackY < y < whiteY &&
    ((blackX == whiteX && x == blackX) ||
     (whiteY - blackY == whiteX - blackX && x - blackX == y - blackY) ||
     (whiteY - blackY == blackX - whiteX && blackX - x == y - blackY))
  }

  /**
   * The sight table holds exactly the squares strictly between the two
   * lions, on the column or diagonal they share.
   */
  lemma SightBetween(b: int, w: int, x: int, y: int)
    requires 0 <= b < 9 && 0 <= w < 9 && 0 <= x < 8 && 0 <= y < 8
    ensures Bit(Sight(b, w), Square(x, y)) == 1 <==> Between(2 + b % 3, b / 3, 2 + w % 3, 4 + w / 3, x, y)
  {
    if b % 3 == w % 3 {
      SightOnColumn(b, w, x, y);
    } else {
      SightOffColumn(b, w, x, y);
    }
  }

  lemma SightOnColumn(b: int, w: int, x: int, y: int)
    requires 0 <= b < 9 && 0 <= w < 9 && 0 <= x < 8 && 0 <= y < 8 && b % 3 == w % 3
    ensures Bit(Sight(b, w), Square(x, y)) == 1 <==> Between(2 + b % 3, b / 3, 2 + w % 3, 4 + w / 3, x, y)
  {
    ColumnSight(b, w, 2 + b % 3, b / 3, 4 + w / 3, x, y);
  }

  lemma ColumnSight(b: int, w: int, column: int, blackY: int, whiteY: int, x: int, y: int)
    requires 0 <= column < 8 && 0 <= blackY < whiteY <= 8 && 0 <= x < 8 && 0 <= y < 8
    ensures Bit(SightFrom(b, w, column, blackY, column, whiteY), Square(x, y)) == 1
        <==> Between(column, blackY, column, whiteY, x, y)
  {
    SightColumnBits(column, blackY + 1, whiteY, x, y);
  }

  lemma SightOffColumn(b: int, w: int, x: int, y: int)
    requires 0 <= b < 9 && 0 <= w < 9 && 0 <= x < 8 && 0 <= y < 8 && b % 3 != w % 3
    ensures Bit(Sight(b, w), Square(x, y)) == 1 <==> Between(2 + b % 3, b / 3, 2 + w % 3, 4 + w / 3, x, y)
  {
    SightCorners(b, w);
    if (b == 6 && w == 2) || (b == 8 && w == 0) {
      SightCentre(x, y);
    } else {
      ZeroBit(Square(x, y));
    }
  }

  /** The one square of the diagonal entries is the centre (3, 3). */
  lemma SightCentre(x: int, y: int)
    requires 0 <= x < 8 && 0 <= y < 8
    ensures Bit(SetBit(0, 27), Square(x, y)) == 1 <==> x == 3 && y == 3
  {
    SetBitAt(0, 27, Square(x, y));
    ZeroBit(Square(x, y));
    if (x, y) != (3, 3) {
      SquaresDiffer(x, y, 3, 3);
    }
  }

  /** Lions in different columns share a diagonal only on the two corner pairs. */
  lemma SightCorners(b: int, w: int)
    requires 0 <= b < 9 && 0 <= w < 9 && 2 + b % 3 != 2 + w % 3
    ensures Aligned(2 + b % 3, b / 3, 2 + w % 3, 4 + w / 3) <==> (b == 6 && w == 2) || (b == 8 && w == 0)
  {
  }

  /** The squares that `SightColumn` sets. */
  lemma {:induction false} SightColumnBits(x: int, y: int, ty: int, tx: int, sy: int)
    requires 0 <= x < 8 && 0 <= y && ty <= 8 && 0 <= tx < 8 && 0 <= sy < 8
    ensures Bit(SightColumn(x, y, ty), Square(tx, sy)) == 1 <==> tx == x && y <= sy < ty
    decreases ty - y
  {
    if y >= ty {
      ZeroBit(Square(tx, sy));
    } else {
      SightColumnBits(x, y + 1, ty, tx, sy);
      SetBitAt(SightColumn(x, y + 1, ty), Square(x, y), Square(tx, sy));
      if (tx, sy) != (x, y) {
        SquaresDiffer(tx, sy, x, y);
      }
    }
  }

  /** `SightBetween` for any bit of the word. */
  lemma SightSquare(b: int, w: int, j: BitIndex)
    requires 0 <= b < 9 && 0 <= w < 9
    ensures Bit(Sight(b, w), j) == 1 <==> Between(2 + b % 3, b / 3, 2 + w % 3, 4 + w / 3, Number(j) % 8, Number(j) / 8)
  {
    BitOfNumber(j);
    SightBetween(b, w, Number(j) % 8, Number(j) / 8);
  }

  /** An entry is empty exactly when the two castle squares share no column or diagonal. */
  lemma SightNonzero(b: int, w: int)
    requires 0 <= b < 9 && 0 <= w < 9
    ensures Sight(b, w) != 0 <==> Aligned(2 + b % 3, b / 3, 2 + w % 3, 4 + w / 3)
  {
    if Sight(b, w) != 0 {
      SightSquare(b, w, LowestBit(Sight(b, w)));
    }
    SightWitness(b, w);
  }

  lemma SightWitness(b: int, w: int)
    requires 0 <= b < 9 && 0 <= w < 9
    ensures Aligned(2 + b % 3, b / 3, 2 + w % 3, 4 + w / 3) ==> Sight(b, w) != 0
  {
    var blackX, blackY, whiteX, whiteY := 2 + b % 3, b / 3, 2 + w % 3, 4 + w / 3;
    if Aligned(blackX, blackY, whiteX, whiteY) {
      var x := if blackX == whiteX then blackX else 3;
      var y := if blackX == whiteX then blackY + 1 else 3;
      assert Between(blackX, blackY, whiteX, whiteY, x, y);
      SightBetween(b, w, x, y);
      ZeroBit(Square(x, y));
    }
  }
}

