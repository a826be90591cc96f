// Congo (games/congo2.h): the game state and its moves. The state keeps the
// colour and the piece on every square; each bitboard of the source is the
// word that these two arrays determine, and is computed from them.
module CongoState {
  import opened Common
  import opened Bitboard
  import opened Congo
  import Turns = State

  // ---------------------------------------------------------- bitboards ---

  /** Which squares a bitboard holds: all occupied ones, one side's, or one side's pieces of a kind. */
  datatype Select = Anyone | Side(c: Color) | Kind(c: Color, k: Piece)

  /** Whether a square with colour o and piece p belongs to the board s. */
  predicate Picks(s: Select, o: Color, p: Piece)
  {
    match s
    case Anyone => o != None
    case Side(c) => o == c
    case Kind(c, k) => o == c && p == k
  }

  /**
   * The bitboard s of a position: `occupied` for `Anyone`, `occupied_black`
   * and `occupied_white` for the sides, and the boards of `Position` for the
   * kinds.
   */
  function Mask(owner: seq<Color>, square: seq<Piece>, s: Select): bv64
    requires |owner| == NumPositions && |square| == NumPositions
  {
    MaskFrom(owner, square, s, 0)
  }

  /** The squares from bit j upwards that belong to the board s. */
  function MaskFrom(owner: seq<Color>, square: seq<Piece>, s: Select, j: bv8): bv64
    requires |owner| == NumPositions && |square| == NumPositions && j <= 64
    decreases 64 - j
  {
    if j == 64 then 0
    else if j < 55 && Picks(s, owner[Number(j)], square[Number(j)]) then SetBit(MaskFrom(owner, square, s, j + 1), j)
    else MaskFrom(owner, square, s, j + 1)
  }

  /** A bitboard holds exactly the squares that belong to it. */
  lemma MaskBit(owner: seq<Color>, square: seq<Piece>, s: Select, i: BitIndex)
    requires |owner| == NumPositions && |square| == NumPositions
    ensures Bit(Mask(owner, square, s), i) == 1 <==> i < 55 && Picks(s, owner[Number(i)], square[Number(i)])
  {
    MaskFromBit(owner, square, s, 0, i);
  }

  lemma {:induction false} MaskFromBit(owner: seq<Color>, square: seq<Piece>, s: Select, j: bv8, i: BitIndex)
    requires |owner| == NumPositions && |square| == NumPositions && j <= 64
    ensures Bit(MaskFrom(owner, square, s, j), i) == 1 <==> j <= i && i < 55 && Picks(s, owner[Number(i)], square[Number(i)])
    decreases 64 - j
  {
    if j < 64 {
      var next := j + 1;
      MaskFromBit(owner, square, s, next, i);
      if j < 55 && Picks(s, owner[Number(j)], square[Number(j)]) {
        SetBitAt(MaskFrom(owner, square, s, next), j, i);
      }
    }
  }

  /** A bitboard is empty exactly when no square belongs to it. */
  lemma MaskEmpty(owner: seq<Color>, square: seq<Piece>, s: Select)
    requires |owner| == NumPositions && |square| == NumPositions
    ensures Mask(owner, square, s) == 0 <==> forall n :: 0 <= n < NumPositions ==> !Picks(s, owner[n], square[n])
  {
    if Mask(owner, square, s) == 0 {
      forall n | 0 <= n < NumPositions
        ensures !Picks(s, owner[n], square[n])
      {
        MaskBit(owner, square, s, BitOf(n));
      }
    } else {
      MaskNoneFrom(owner, square, s, 0);
    }
  }

  /** When no square from j upwards belongs to s, the board holds none of them. */
  lemma {:induction false} MaskNoneFrom(owner: seq<Color>, square: seq<Piece>, s: Select, j: bv8)
    requires |owner| == NumPositions && |square| == NumPositions && j <= 64
    requires MaskFrom(owner, square, s, j) != 0
    ensures exists n :: 0 <= n < NumPositions && Picks(s, owner[n], square[n])
    decreases 64 - j
  {
    if j < 55 && Picks(s, owner[Number(j)], square[Number(j)]) {
    } else {
      MaskNoneFrom(owner, square, s, j + 1);
    }
  }

  /** `occupied` is the union of the two colour boards, and these are disjoint. */
  lemma Partition(owner: seq<Color>, square: seq<Piece>, i: BitIndex)
    requires |owner| == NumPositions && |square| == NumPositions
    ensures Bit(Mask(owner, square, Anyone), i) == 1
        <==> Bit(Mask(owner, square, Side(Black)), i) == 1 || Bit(Mask(owner, square, Side(White)), i) == 1
    ensures !(Bit(Mask(owner, square, Side(Black)), i) == 1 && Bit(Mask(owner, square, Side(White)), i) == 1)
  {
    MaskBit(owner, square, Anyone, i);
    MaskBit(owner, square, Side(Black), i);
    MaskBit(owner, square, Side(White), i);
  }

  /**
   * Writing colour c and piece p on square i (what `place` and `remove` do
   * to `occupied`, the colour boards and the piece boards): bit i of every
   * board is set exactly when the square now belongs to it, and no other
   * bit of any board changes.
   */
  lemma WriteBits(owner: seq<Color>, square: seq<Piece>, i: BitIndex, c: Color, p: Piece, s: Select, j: BitIndex)
    requires |owner| == NumPositions && |square| == NumPositions && i < 55
    ensures Bit(Mask(owner[Number(i) := c], square[Number(i) := p], s), j)
         == if j == i then (if Picks(s, c, p) then 1 else 0) else Bit(Mask(owner, square, s), j)
  {
    MaskBit(owner[Number(i) := c], square[Number(i) := p], s, j);
    MaskBit(owner, square, s, j);
    BitOfNumber(i);
    BitOfNumber(j);
  }

  // --------------------------------------------------------- the rows ---

  /** The far row where a pawn of colour o is promoted: row 6 for Black, row 0 for White. */
  predicate FarRow(o: Color, n: int)
  {
    (o == Black && 48 <= n < 55) || (o == White && 0 <= n < 7)
  }

  /** `BLACK_PROMOTE`, `WHITE_PROMOTE` and `RIVER` hold exactly rows 6, 0 and 3 of the board. */
  lemma Rows(i: BitIndex)
    ensures Bit(BlackPromote, i) == 1 <==> FarRow(Black, Number(i))
    ensures Bit(WhitePromote, i) == 1 <==> FarRow(White, Number(i))
    ensures Bit(River, i) == 1 <==> 24 <= Number(i) < 31
  {
  }

  // ------------------------------------------------------- move effects ---

  /** The arrays after the piece on square a goes to square b, over whatever stood there. */
  function Shifted<T>(xs: seq<T>, a: int, b: int, blank: T): (r: seq<T>)
    requires 0 <= a < |xs| && 0 <= b < |xs|
    ensures |r| == |xs|
  {
    xs[b := xs[a]][a := blank]
  }

  /** The pieces after `promote()`: each pawn on the far row of its side is now a superpawn. */
  function Promoted(owner: seq<Color>, square: seq<Piece>): (r: seq<Piece>)
    requires |owner| == NumPositions && |square| == NumPositions
    ensures |r| == NumPositions
  {
    seq(NumPositions, n requires 0 <= n < NumPositions =>
      if square[n] == Pawn && FarRow(owner[n], n) then Superpawn else square[n])
  }

  /** A side's pieces on the river, shifted down to bits 0 to 6, as `copy_river` records them. */
  function RiverWord(owner: seq<Color>, square: seq<Piece>, c: Color): bv64
    requires |owner| == NumPositions && |square| == NumPositions
  {
    (Mask(owner, square, Side(c)) & River) >> 24
  }

  /**
   * The colours and pieces after `move` from square a to square b, with the
   * river snapshot (riverSquare, riverBlack, riverWhite) of the position.
   */
  function AfterMove(owner: seq<Color>, square: seq<Piece>, riverSquare: seq<Piece>,
                     riverBlack: bv64, riverWhite: bv64, a: int, b: int): (seq<Color>, seq<Piece>)
    requires |owner| == NumPositions && |square| == NumPositions && |riverSquare| == 8
    requires 0 <= a < NumPositions && 0 <= b < NumPositions
  {
    var moved := Shifted(owner, a, b, None);
    var pieces := Promoted(moved, Shifted(square, a, b, Empty));
    (DrownedOwners(moved, pieces, riverSquare, riverBlack, riverWhite, owner[a]),
     DrownedPieces(moved, pieces, riverSquare, riverBlack, riverWhite, owner[a]))
  }

  /** A side's river board as `drown` shifts it back into place: `river_black << 24` or `river_white << 24`. */
  function RiverBoard(c: Color, riverBlack: bv64, riverWhite: bv64): bv64
  {
    (if c == Black then riverBlack else riverWhite) << 24
  }

  /**
   * Whether `drown(played)` removes the piece on square n: a piece of the
   * side that moved, other than a crocodile, on a river square that the
   * side's river board holds, of the kind the snapshot recorded there.
   */
  predicate Drowns(o: Color, p: Piece, n: int, riverSquare: seq<Piece>, riverBlack: bv64, riverWhite: bv64, played: Color)
    requires |riverSquare| == 8
  {
    24 <= n < 31 && o == played && p != Crocodile &&
    Bit(RiverBoard(played, riverBlack, riverWhite), BitOf(n)) == 1 && riverSquare[n - 24] == p
  }

  /** The colours after `drown(played)`. */
  function DrownedOwners(owner: seq<Color>, square: seq<Piece>, riverSquare: seq<Piece>,
                         riverBlack: bv64, riverWhite: bv64, played: Color): (r: seq<Color>)
    requires |owner| == NumPositions && |square| == NumPositions && |riverSquare| == 8
    ensures |r| == NumPositions
  {
    seq(NumPositions, n requires 0 <= n < NumPositions =>
      if Drowns(owner[n], square[n], n, riverSquare, riverBlack, riverWhite, played) then None else owner[n])
  }

  /** The pieces after `drown(played)`. */
  function DrownedPieces(owner: seq<Color>, square: seq<Piece>, riverSquare: seq<Piece>,
                         riverBlack: bv64, riverWhite: bv64, played: Color): (r: seq<Piece>)
    requires |owner| == NumPositions && |square| == NumPositions && |riverSquare| == 8
    ensures |r| == NumPositions
  {
    seq(NumPositions, n requires 0 <= n < NumPositions =>
      if Drowns(owner[n], square[n], n, riverSquare, riverBlack, riverWhite, played) then Empty else square[n])
  }

  /** Whether a side still has a lion. */
  predicate HasLion(owner: seq<Color>, square: seq<Piece>, c: Color)
    requires |owner| == NumPositions && |square| == NumPositions
  {
    exists n :: 0 <= n < NumPositions && owner[n] == c && square[n] == Lion
  }

  /** With a Black lion on square b and a White lion on square w, both sides have a lion. */
  lemma BothLions(owner: seq<Color>, square: seq<Piece>, b: int, w: int)
    requires |owner| == NumPositions && |square| == NumPositions && 0 <= b < NumPositions && 0 <= w < NumPositions
    requires owner[b] == Black && square[b] == Lion && owner[w] == White && square[w] == Lion
    ensures HasLion(owner, square, Black) && HasLion(owner, square, White)
  {
  }

  /** A side's lion board is empty exactly when the side has no lion. */
  lemma LionBoard(owner: seq<Color>, square: seq<Piece>, c: Color)
    requires |owner| == NumPositions && |square| == NumPositions
    ensures Mask(owner, square, Kind(c, Lion)) == 0 <==> !HasLion(owner, square, c)
  {
    MaskEmpty(owner, square, Kind(c, Lion));
  }

  // --------------------------------------------------------- game state ---

  /**
   * `State`. `owner` stands for `occupied_black` and `occupied_white`, and
   * `square` for `square[]`, both indexed by square number; `river_black`
   * and `river_white` are bytes in the source and hold row 3 shifted down.
   */
  class State {
    var riverBlack: bv64
    var riverWhite: bv64
    var riverSquare: seq<Piece>
    var owner: seq<Color>
    var square: seq<Piece>
    var blackLion: BitIndex
    var whiteLion: BitIndex
    var winner: Color
    var justPlayed: Color

    /** The arrays have their sizes, and a square has a colour exactly when it has a piece. */
    ghost predicate Valid()
      reads this
    {
      |owner| == NumPositions && |square| == NumPositions && |riverSquare| == 8 &&
      forall n :: 0 <= n < NumPositions ==> (owner[n] == None <==> square[n] == Empty)
    }

    /** `occupied`. */
    function Occupied(): bv64
      reads this
      requires |owner| == NumPositions && |square| == NumPositions
    {
      Mask(owner, square, Anyone)
    }

    /** `occupied_black` or `occupied_white`. */
    function OccupiedBy(c: Color): bv64
      reads this
      requires |owner| == NumPositions && |square| == NumPositions
    {
      Mask(owner, square, Side(c))
    }

    /** `black.board(k)` or `white.board(k)`. */
    function Board(c: Color, k: Piece): bv64
      reads this
      requires |owner| == NumPositions && |square| == NumPositions
    {
      Mask(owner, square, Kind(c, k))
    }

    /** `color(i)`: Black when `occupied_black` holds i, else White when `occupied_white` does. */
    function ColorAt(i: BitIndex): (r: Color)
      reads this
      requires |owner| == NumPositions && |square| == NumPositions
      ensures r == if i < 55 then owner[Number(i)] else None
    {
      MaskBit(owner, square, Side(Black), i);
      MaskBit(owner, square, Side(White), i);
      if Bit(OccupiedBy(Black), i) == 1 then Black
      else if Bit(OccupiedBy(White), i) == 1 then White
      else None
    }

    /**
     * `place(c, p, i)`: square i gets colour c and piece p, and the lion
     * index of c follows a lion. The source dies on `NONE` and `EMPTY`;
     * every caller places on an empty square.
     */
    method Place(c: Color, p: Piece, i: BitIndex)
      requires Valid() && c != None && p != Empty && i < 55 && owner[Number(i)] == None
      modifies this`owner, this`square, this`blackLion, this`whiteLion
      ensures Valid()
      ensures owner == old(owner)[Number(i) := c] && square == old(square)[Number(i) := p]
      ensures blackLion == (if c == Black && p == Lion then i else old(blackLion))
      ensures whiteLion == (if c == White && p == Lion then i else old(whiteLion))
    {
      square := square[Number(i) := p];
      owner := owner[Number(i) := c];
      if c == Black {
        blackLion := if p == Lion then i else blackLion;
      } else {
        whiteLion := if p == Lion then i else whiteLion;
      }
    }

    /**
     * `remove(c, p, i)`: square i becomes empty. The source dies on `NONE`
     * and `EMPTY`; every caller passes the colour and piece on square i.
     */
    method Remove(c: Color, p: Piece, i: BitIndex)
      requires Valid() && c != None && p != Empty && i < 55
      requires owner[Number(i)] == c && square[Number(i)] == p
      modifies this`owner, this`square
      ensures Valid()
      ensures owner == old(owner)[Number(i) := None] && square == old(square)[Number(i) := Empty]
    {
      square := square[Number(i) := Empty];
      owner := owner[Number(i) := None];
    }

    /**
     * `promote(c, promo, data, x)`: each square of `data & promo` becomes a
     * superpawn of c, lowest first. Callers pass c's pawn board as data.
     */
    method PromoteSide(c: Color, promo: bv64, data: bv64)
      requires Valid() && c != None && data == Board(c, Pawn)
      modifies this`owner, this`square, this`blackLion, this`whiteLion
      ensures Valid() && owner == old(owner) && blackLion == old(blackLion) && whiteLion == old(whiteLion)
      ensures PromotedBy(square, data & promo, old(square))
    {
      var n := data & promo;
      PromotingStart(owner, square, c, promo);
      while n != 0
        invariant Valid() && owner == old(owner) && blackLion == old(blackLion) && whiteLion == old(whiteLion)
        invariant Promoting(owner, square, c, data & promo, n, old(square))
        decreases Popcount(n)
      {
        n := PromoteLowest(c, data & promo, n, old(square));
      }
      PromotingDone(owner, square, c, data & promo, old(square));
    }

    /** One round of the loop of `promote`: `remove(c, PAWN, i)` and `place(c, SUPERPAWN, i)` on the lowest square i of n. */
    method PromoteLowest(c: Color, n0: bv64, n: bv64, ghost square0: seq<Piece>) returns (rest: bv64)
      requires Valid() && c != None && n != 0 && |square0| == NumPositions
      requires Promoting(owner, square, c, n0, n, square0)
      modifies this`owner, this`square, this`blackLion, this`whiteLion
      ensures Valid() && owner == old(owner) && blackLion == old(blackLion) && whiteLion == old(whiteLion)
      ensures Promoting(owner, square, c, n0, rest, square0)
      ensures Popcount(rest) < Popcount(n)
    {
      var i;
      i, rest := Isolate(n);
      ghost var before := square;
      PendingPawn(owner, square, c, n0, n, i, square0);
      PromoteAt(c, i);
      PromotingStep(owner, before, c, n0, n, i, square0);
    }

    /** `remove(c, PAWN, i)` then `place(c, SUPERPAWN, i)`: the pawn of c on square i becomes a superpawn. */
    method PromoteAt(c: Color, i: BitIndex)
      requires Valid() && c != None && i < 55 && owner[Number(i)] == c && square[Number(i)] == Pawn
      modifies this`owner, this`square, this`blackLion, this`whiteLion
      ensures Valid() && owner == old(owner) && blackLion == old(blackLion) && whiteLion == old(whiteLion)
      ensures square == old(square)[Number(i) := Superpawn]
    {
      Remove(c, Pawn, i);
      Place(c, Superpawn, i);
      assert owner == old(owner);
    }

    /** `promote()`: Black's pawns on row 6 and White's pawns on row 0 become superpawns. */
    method Promote()
      requires Valid()
      modifies this`owner, this`square, this`blackLion, this`whiteLion
      ensures Valid() && owner == old(owner) && blackLion == old(blackLion) && whiteLion == old(whiteLion)
      ensures square == Promoted(owner, old(square))
    {
      ghost var square0 := square;
      PromoteSide(Black, BlackPromote, Board(Black, Pawn));
      ghost var square1 := square;
      PromoteSide(White, WhitePromote, Board(White, Pawn));
      PromotedBoth(owner, square0, square1, square);
    }

    /**
     * `drown(played)`: when the guard finds a piece of either side on a
     * river square that the side's river board holds, the seven river
     * squares are checked in turn and each drowning piece removed; then
     * `copy_river()`.
     */
    method Drown(played: Color)
      requires Valid() && played != None
      modifies this`owner, this`square, this`riverSquare, this`riverBlack, this`riverWhite
      ensures Valid() && Snapshot()
      ensures owner == DrownedOwners(old(owner), old(square), old(riverSquare), old(riverBlack), old(riverWhite), played)
      ensures square == DrownedPieces(old(owner), old(square), old(riverSquare), old(riverBlack), old(riverWhite), played)
    {
      DrownPieces(played);
      CopyRiver();
    }

    /** The part of `drown` before `copy_river()`. */
    method DrownPieces(played: Color)
      requires Valid() && played != None
      modifies this`owner, this`square
      ensures Valid()
      ensures owner == DrownedOwners(old(owner), old(square), riverSquare, riverBlack, riverWhite, played)
      ensures square == DrownedPieces(old(owner), old(square), riverSquare, riverBlack, riverWhite, played)
    {
      var b := riverBlack << 24;
      var w := riverWhite << 24;
      var wet := DrownGuard(played, b, w);
      if wet {
        DrownRiver(played, b, w);
      }
    }

    /**
     * The guard of `drown`: whether a river board of a side meets that
     * side's pieces on the river. When it does not, nothing drowns.
     */
    method DrownGuard(played: Color, b: bv64, w: bv64) returns (wet: bool)
      requires Valid() && played != None
      requires b == riverBlack << 24 && w == riverWhite << 24
      ensures !wet ==> DrownedOwners(owner, square, riverSquare, riverBlack, riverWhite, played) == owner
      ensures !wet ==> DrownedPieces(owner, square, riverSquare, riverBlack, riverWhite, played) == square
    {
      wet := b & (River & OccupiedBy(Black)) != 0 || w & (River & OccupiedBy(White)) != 0;
      if !wet {
        NothingDrowns(owner, square, riverSquare, riverBlack, riverWhite, played);
      }
    }

    /** The loop of `drown` over the seven river squares. */
    method DrownRiver(played: Color, b: bv64, w: bv64)
      requires Valid() && played != None
      requires b == riverBlack << 24 && w == riverWhite << 24
      modifies this`owner, this`square
      ensures Valid()
      ensures owner == DrownedOwners(old(owner), old(square), riverSquare, riverBlack, riverWhite, played)
      ensures square == DrownedPieces(old(owner), old(square), riverSquare, riverBlack, riverWhite, played)
    {
      var i := 0;
      while i < 7
        invariant 0 <= i <= 7 && Valid()
        invariant DrownedUpTo(i, old(owner), old(square), owner, square, riverSquare, riverBlack, riverWhite, played)
      {
        DrownAt(i, played, b, w, old(owner), old(square), riverSquare, riverBlack, riverWhite);
        i := i + 1;
      }
      DrownedAll(old(owner), old(square), owner, square, riverSquare, riverBlack, riverWhite, played);
    }

    /** One round of the loop of `drown`: river square j = 24 + i. */
    method DrownAt(i: int, played: Color, b: bv64, w: bv64, ghost owner0: seq<Color>, ghost square0: seq<Piece>,
                   ghost rs: seq<Piece>, ghost rb: bv64, ghost rw: bv64)
      requires Valid() && played != None && 0 <= i < 7
      requires rs == riverSquare && rb == riverBlack && rw == riverWhite && b == rb << 24 && w == rw << 24
      requires |owner0| == NumPositions && |square0| == NumPositions
      requires DrownedUpTo(i, owner0, square0, owner, square, rs, rb, rw, played)
      modifies this`owner, this`square
      ensures Valid() && DrownedUpTo(i + 1, owner0, square0, owner, square, rs, rb, rw, played)
    {
      ghost var before, was := owner, square;
      ghost var drowns := Drowning(i, played, owner, square, rs, rb, rw);
      DrownSquare(i, played, b, w);
      DrownedNext(i, drowns, owner0, square0, before, was, owner, square, rs, rb, rw, played);
    }

    /** The body of the loop of `drown` for river square j = 24 + i. */
    method DrownSquare(i: int, played: Color, b: bv64, w: bv64)
      requires Valid() && played != None && 0 <= i < 7
      requires b == riverBlack << 24 && w == riverWhite << 24
      modifies this`owner, this`square
      ensures Valid()
      ensures if Drowning(i, played, old(owner), old(square), riverSquare, riverBlack, riverWhite)
              then owner == old(owner)[24 + i := None] && square == old(square)[24 + i := Empty]
              else owner == old(owner) && square == old(square)
    {
      var drowns := DrownTest(i, played, b, w);
      if drowns {
        var j := BitOf(24 + i);
        assert owner[Number(j)] == played && square[Number(j)] != Empty;
        Remove(played, square[24 + i], j);
      }
    }

    /** The test of the loop of `drown`: a non-crocodile of the side that just played, on a river square it occupied before the move, holding the same piece as then. */
    method DrownTest(i: int, played: Color, b: bv64, w: bv64) returns (drowns: bool)
      requires Valid() && played != None && 0 <= i < 7
      requires b == riverBlack << 24 && w == riverWhite << 24
      ensures drowns == Drowning(i, played, owner, square, riverSquare, riverBlack, riverWhite)
    {
      drowns := false;
      var j := BitOf(24 + i);
      var c := ColorAt(j);
      if square[Number(j)] != Crocodile && c == played {
        var tmp := if c == Black then b else w;
        assert tmp == RiverBoard(played, riverBlack, riverWhite);
        if Bit(tmp, j) == 1 && riverSquare[i] == square[Number(j)] {
          drowns := true;
        }
      }
    }

    /**
     * `move(m)`: a piece on square b is captured, the piece on a goes to b,
     * then `promote()`, `drown(ca)` and `check_win_cond()`, and the mover
     * becomes the side that just played. The source reads a colour of
     * `NONE` for an empty square a, and dies when it places it; a == b
     * would place an empty piece, on which it dies as well.
     */
    method Move(m: Congo.Move)
      requires Valid() && m.a < 55 && m.b < 55 && m.a != m.b && owner[Number(m.a)] != None
      modifies this`owner, this`square, this`riverSquare, this`riverBlack, this`riverWhite
      modifies this`blackLion, this`whiteLion, this`winner, this`justPlayed
      ensures Valid() && Snapshot()
      ensures (owner, square) == AfterMove(old(owner), old(square), old(riverSquare), old(riverBlack), old(riverWhite),
                                           Number(m.a), Number(m.b))
      ensures justPlayed == old(owner[Number(m.a)])
      ensures winner == if !HasLion(owner, square, Black) then White
                        else if !HasLion(owner, square, White) then Black
                        else old(winner)
      ensures blackLion == if old(owner[Number(m.a)]) == Black && old(square[Number(m.a)]) == Lion then m.b else old(blackLion)
      ensures whiteLion == if old(owner[Number(m.a)]) == White && old(square[Number(m.a)]) == Lion then m.b else old(whiteLion)
    {
      var ca := Shift(m.a, m.b);
      Promote();
      Drown(ca);
      CheckWinCond();
      justPlayed := ca;
    }

    /** The first part of `move(m)`: the capture on b, then `place` on b and `remove` from a. */
    method Shift(a: BitIndex, b: BitIndex) returns (ca: Color)
      requires Valid() && a < 55 && b < 55 && a != b && owner[Number(a)] != None
      modifies this`owner, this`square, this`blackLion, this`whiteLion
      ensures Valid() && ca == old(owner[Number(a)])
      ensures owner == Shifted(old(owner), Number(a), Number(b), None)
      ensures square == Shifted(old(square), Number(a), Number(b), Empty)
      ensures blackLion == if ca == Black && old(square[Number(a)]) == Lion then b else old(blackLion)
      ensures whiteLion == if ca == White && old(square[Number(a)]) == Lion then b else old(whiteLion)
    {
      NumberDiffer(a, b);
      ca := ColorAt(a);
      Capture(b);
      Place(ca, square[Number(a)], b);
      Remove(ca, square[Number(a)], a);
    }

    /** `if (occupied.iis_set(b)) remove(cb, square[b], b)`: square b is empty afterwards. */
    method Capture(b: BitIndex)
      requires Valid() && b < 55
      modifies this`owner, this`square
      ensures Valid()
      ensures owner == old(owner)[Number(b) := None] && square == old(square)[Number(b) := Empty]
    {
      var cb := ColorAt(b);
      MaskBit(owner, square, Anyone, b);
      if Bit(Occupied(), b) == 1 {
        Remove(cb, square[Number(b)], b);
      } else {
        assert owner == owner[Number(b) := None] && square == square[Number(b) := Empty];
      }
    }

    /**
     * `lion_sight(c)`: the opponent's lion board when the two lions face
     * each other with nothing between them, so that c's lion may take the
     * other; 0 otherwise. The source indexes `LION_SIGHT` with numbers it
     * computes from the lions' squares, which lie in the table only when
     * the lions are in or near their castles.
     */
    function LionSight(c: Color): (r: bv64)
      reads this
      requires Valid() && (SightShut(blackLion, whiteLion) || SightDefined(blackLion, whiteLion))
      ensures r == if Facing(owner, square, blackLion, whiteLion)
                   then (if c == Black then Board(White, Lion) else Board(Black, Lion))
                   else 0
    {
      if whiteLion < 34 || blackLion > 20 then 0
      else
        var p := Sight(BlackSight(blackLion), WhiteSight(whiteLion));
        if p > 0 && Unblocked(owner, square, p) then (if c == Black then Board(White, Lion) else Board(Black, Lion))
        else 0
    }

    /**
     * `check_win_cond()`: White wins when Black has no lion, otherwise Black
     * wins when White has none; otherwise the winner stays as it was.
     */
    method CheckWinCond()
      requires Valid()
      modifies this`winner
      ensures winner == if !HasLion(owner, square, Black) then White
                        else if !HasLion(owner, square, White) then Black
                        else old(winner)
    {
      LionBoard(owner, square, Black);
      LionBoard(owner, square, White);
      if Board(Black, Lion) == 0 {
        winner := White;
      } else if Board(White, Lion) == 0 {
        winner := Black;
      }
    }

    /** `game_over()`: a side has no lion left. */
    function GameOver(): (r: bool)
      reads this
      requires Valid()
      ensures r <==> !HasLion(owner, square, Black) || !HasLion(owner, square, White)
    {
      LionBoard(owner, square, Black);
      LionBoard(owner, square, White);
      Board(Black, Lion) == 0 || Board(White, Lion) == 0
    }

    /** `result(c)`: 1 when c won, 0 when the opponent of c won, 1/2 otherwise. */
    function Result(c: Color): (r: real)
      reads this
      ensures r == Turns.Outcome(winner, c)
    {
      if winner == c then 1.0 else if winner == Other(c) then 0.0 else 0.5
    }

    /** `copy_river()`: the snapshot of row 3 that the next `drown` compares with. */
    method CopyRiver()
      requires Valid()
      modifies this`riverSquare, this`riverBlack, this`riverWhite
      ensures Valid() && Snapshot()
    {
      riverSquare := square[24..32];
      riverBlack := (OccupiedBy(Black) & River) >> 24;
      riverWhite := (OccupiedBy(White) & River) >> 24;
    }

    /** The river fields hold the snapshot of row 3 that `copy_river` takes. */
    ghost predicate Snapshot()
      reads this
      requires |owner| == NumPositions && |square| == NumPositions
    {
      riverSquare == square[24..32] &&
      riverBlack == RiverWord(owner, square, Black) && riverWhite == RiverWord(owner, square, White)
    }

    /** Squares below k hold what `initial()` puts there; the others are empty. */
    ghost predicate LaidOut(k: int)
      reads this
      requires |owner| == NumPositions && |square| == NumPositions
    {
      forall n :: 0 <= n < NumPositions ==>
        owner[n] == (if n < k then SetupColor(n) else None) && square[n] == (if n < k then SetupPiece(n) else Empty)
    }

    /** `State()`: `clear()` followed by `initial()`. */
    constructor ()
      ensures Valid() && LaidOut(NumPositions) && blackLion == 3 && whiteLion == 51
      ensures winner == None && justPlayed == White
      ensures HasLion(owner, square, Black) && HasLion(owner, square, White)
      ensures riverBlack == 0 && riverWhite == 0 && riverSquare == seq(8, _ => Empty)
    {
      owner := seq(NumPositions, _ => None);
      square := seq(NumPositions, _ => Empty);
      riverSquare := seq(8, _ => Empty);
      new;
      Initial();
    }

    /** `clear()`: every square and both rivers empty, no winner, nobody has played. */
    method Clear()
      modifies this
      ensures Valid() && LaidOut(0) && blackLion == 0 && whiteLion == 0
      ensures winner == None && justPlayed == None
      ensures riverBlack == 0 && riverWhite == 0 && riverSquare == seq(8, _ => Empty)
    {
      riverBlack, riverWhite := 0, 0;
      riverSquare := seq(8, _ => Empty);
      owner := seq(NumPositions, _ => None);
      square := seq(NumPositions, _ => Empty);
      blackLion, whiteLion := 0, 0;
      winner, justPlayed := None, None;
    }

    /**
     * `initial()`: the back rows and the pawn rows of both sides, each lion
     * in the middle of its back row, with White to have played last so that
     * Black moves first.
     */
    method Initial()
      modifies this
      ensures Valid() && LaidOut(NumPositions) && blackLion == 3 && whiteLion == 51
      ensures winner == None && justPlayed == White
      ensures HasLion(owner, square, Black) && HasLion(owner, square, White)
      ensures riverBlack == 0 && riverWhite == 0 && riverSquare == seq(8, _ => Empty)
    {
      Clear();
      PlaceBackRow(Black, 0);
      Pawns(Black, 8);
      Pawns(White, 40);
      PlaceBackRow(White, 48);
      winner := None;
      justPlayed := White;
      BothLions(owner, square, 3, 51);
    }

    /** The seven `place` calls of one back row of `initial()`, from square k up, one per column. */
    method PlaceBackRow(c: Color, k: int)
      requires Valid() && (c, k) in {(Black, 0), (White, 48)} && LaidOut(k)
      modifies this`owner, this`square, this`blackLion, this`whiteLion
      ensures Valid() && LaidOut(k + 8)
      ensures blackLion == (if c == Black then 3 else old(blackLion))
      ensures whiteLion == (if c == White then 51 else old(whiteLion))
    {
      for x := 0 to 7
        invariant Valid() && LaidOut(k + x)
        invariant blackLion == (if c == Black && x > 3 then 3 else old(blackLion))
        invariant whiteLion == (if c == White && x > 3 then 51 else old(whiteLion))
      {
        Place(c, BackRow[x], BitOf(k + x));
      }
    }

    /** One pawn loop of `initial()`: squares k to k + 6. */
    method Pawns(c: Color, k: int)
      requires Valid() && (c, k) in {(Black, 8), (White, 40)} && LaidOut(k)
      modifies this`owner, this`square, this`blackLion, this`whiteLion
      ensures Valid() && LaidOut(if c == Black then 40 else 48)
      ensures blackLion == old(blackLion) && whiteLion == old(whiteLion)
    {
      for i := k to k + 7
        invariant Valid() && LaidOut(i)
        invariant blackLion == old(blackLion) && whiteLion == old(whiteLion)
      {
        Place(c, Pawn, BitOf(i));
      }
    }

    /**
     * `moves(c, i)` for the piece on square i, moved by side c: the squares
     * it reaches, friendly ones included, with `lion_sight(c)` asked for
     * only for a lion. The source dies when a lion or a pawn is asked for
     * with no colour.
     */
    function MovesFrom(c: Color, i: BitIndex): bv64
      reads this
      requires Valid() && i < 55 && (SightShut(blackLion, whiteLion) || SightDefined(blackLion, whiteLion))
      requires c == None ==> square[Number(i)] !in {Lion, Pawn, Superpawn}
    {
      SquareWord(owner, square, c, LionSight(c), Number(i))
    }

    /**
     * `moves(l, c)`: walks the occupied squares from the lowest up and, for
     * each piece of side c, appends its moves to squares c does not hold.
     */
    method Moves(l: MoveList, c: Color)
      requires Valid() && (SightShut(blackLion, whiteLion) || SightDefined(blackLion, whiteLion))
      modifies l
      ensures l.items == old(l.items) + AllMoves(owner, square, c, MoveWords(owner, square, c, LionSight(c)))
    {
      var friendly := if c == Black then OccupiedBy(Black) else OccupiedBy(White);
      var n := Occupied();
      MaskTargets(owner, square, Anyone);
      ghost var ws := MoveWords(owner, square, c, LionSight(c));
      ghost var goal := l.items + SideMoves(owner, square, c, ws, Targets(n));
      while n != 0
        invariant OnBoardSquares(Targets(n))
        invariant l.items + SideMoves(owner, square, c, ws, Targets(n)) == goal
        decreases Popcount(n)
      {
        n := MovesRound(l, c, n, friendly, ws, goal);
      }
      NoTargets();
    }

    /** `moves(ml)`: the moves of the side to move, the opponent of the side that played last. */
    method CurrentMoves(l: MoveList)
      requires Valid() && (SightShut(blackLion, whiteLion) || SightDefined(blackLion, whiteLion))
      modifies l
      ensures var c := Other(justPlayed);
              l.items == old(l.items) + AllMoves(owner, square, c, MoveWords(owner, square, c, LionSight(c)))
    {
      Moves(l, Other(justPlayed));
    }

    /** One round of the loop of `moves(l, c)`: the lowest occupied square of n, and n without it. */
    method MovesRound(l: MoveList, c: Color, n: bv64, friendly: bv64, ghost ws: seq<bv64>, ghost goal: seq<Move>) returns (rest: bv64)
      requires Valid() && (SightShut(blackLion, whiteLion) || SightDefined(blackLion, whiteLion))
      requires n != 0 && OnBoardSquares(Targets(n)) && friendly == FriendlyOn(owner, square, c)
      requires ws == MoveWords(owner, square, c, LionSight(c))
      requires l.items + SideMoves(owner, square, c, ws, Targets(n)) == goal
      modifies l
      ensures OnBoardSquares(Targets(rest)) && Popcount(rest) < Popcount(n)
      ensures l.items + SideMoves(owner, square, c, ws, Targets(rest)) == goal
    {
      var i;
      i, rest := Lowest(n);
      OnBoardCons(i, Targets(rest));
      SideMovesCons(owner, square, c, ws, i, Targets(rest));
      ghost var items0 := l.items;
      ghost var tail := SideMoves(owner, square, c, ws, Targets(rest));
      ghost var moves := SquareMoves(owner, square, c, ws, i);
      AddFrom(l, c, i, friendly, ws, moves);
      Regroup(items0, moves, tail, l.items, goal);
    }

    /** The body of the loop of `moves(l, c)` for square i: appends `SquareMoves`, passed as moves. */
    method AddFrom(l: MoveList, c: Color, i: BitIndex, friendly: bv64, ghost ws: seq<bv64>, ghost moves: seq<Move>)
      requires Valid() && (SightShut(blackLion, whiteLion) || SightDefined(blackLion, whiteLion))
      requires i < 55 && friendly == FriendlyOn(owner, square, c)
      requires ws == MoveWords(owner, square, c, LionSight(c)) && moves == SquareMoves(owner, square, c, ws, i)
      modifies l
      ensures l.items == old(l.items) + moves
    {
      if ColorAt(i) == c {
        l.Add(c, Occupied(), i, MovesFrom(c, i) & !friendly);
      }
    }
  }

  // --------------------------------------------------- initial position ---

  /** The back row of `initial()`, from column 0 to column 6. */
  const BackRow: seq<Piece> := [Giraffe, Monkey, Elephant, Lion, Elephant, Crocodile, Zebra]

  /** The colour `initial()` leaves on square n: Black on rows 0 and 1, White on rows 5 and 6. */
  function SetupColor(n: int): Color
  {
    if 0 <= n < 7 || 8 <= n < 15 then Black
    else if 40 <= n < 47 || 48 <= n < 55 then White
    else None
  }

  /** The piece `initial()` leaves on square n: the back row behind a row of pawns, on both sides. */
  function SetupPiece(n: int): Piece
  {
    if 0 <= n < 7 then BackRow[n]
    else if 48 <= n < 55 then BackRow[n - 48]
    else if 8 <= n < 15 || 40 <= n < 47 then Pawn
    else Empty
  }

  /** Square n seen from the other side: the same column, the row counted from the far edge. */
  function Mirror(n: int): (r: int)
    requires 0 <= n < NumPositions && n % 8 < 7
    ensures 0 <= r < NumPositions && r % 8 < 7
  {
    n % 8 + 8 * (6 - n / 8)
  }

  /**
   * The initial position is the same for both sides: each square holds the
   * piece of its mirror square, in the other colour.
   */
  lemma SetupMirrored(n: int)
    requires 0 <= n < NumPositions && n % 8 < 7
    ensures SetupPiece(Mirror(n)) == SetupPiece(n) && SetupColor(Mirror(n)) == Other(SetupColor(n))
  {
    var x, y := n % 8, n / 8;
    assert n == x + 8 * y && 0 <= x < 8 && 0 <= y <= 6;
    assert Mirror(n) == x + 8 * (6 - y);
  }

  /** Each side starts with its lion inside its castle: Black's on square 3, White's on square 51, and no other. */
  lemma SetupLions(n: int)
    requires 0 <= n < NumPositions
    ensures SetupPiece(n) == Lion <==> n == 3 || n == 51
    ensures SetupPiece(n) == Lion ==> (SetupColor(n) == Black <==> n == 3)
    ensures Bit(BlackCastle, 3) == 1 && Bit(WhiteCastle, 51) == 1
  {
    Castles(3);
    Castles(51);
  }

  // ------------------------------------------------------ move listing ---

  /** The colour on square i, read off the array: what `color(i)` answers. */
  function ColorOf(owner: seq<Color>, i: BitIndex): Color
    requires |owner| == NumPositions
  {
    if i < 55 then owner[Number(i)] else None
  }

  /** `friendly` of `moves(l, c)`: Black's pieces for Black, White's otherwise. */
  function FriendlyOn(owner: seq<Color>, square: seq<Piece>, c: Color): bv64
    requires |owner| == NumPositions && |square| == NumPositions
  {
    Mask(owner, square, Side(if c == Black then Black else White))
  }

  /**
   * `moves(c, i)` for the piece on square n, moved by side c, where sight
   * is what `lion_sight(c)` answers (asked for only for a lion).
   */
  function SquareWord(owner: seq<Color>, square: seq<Piece>, c: Color, sight: bv64, n: int): bv64
    requires |owner| == NumPositions && |square| == NumPositions && 0 <= n < NumPositions
  {
    PieceMoves(owner, square, square[n], c, Tables()[n], if square[n] == Lion then sight else 0)
  }

  /** `moves(c, i)` for every square, by side c: the word of square n at index n. */
  function MoveWords(owner: seq<Color>, square: seq<Piece>, c: Color, sight: bv64): (ws: seq<bv64>)
    requires |owner| == NumPositions && |square| == NumPositions
    ensures |ws| == NumPositions
    ensures forall n :: 0 <= n < NumPositions ==> ws[n] == SquareWord(owner, square, c, sight, n)
  {
    seq(NumPositions, n requires 0 <= n < NumPositions => SquareWord(owner, square, c, sight, n))
  }

  /**
   * The moves `moves(l, c)` appends for square i, given the move words ws:
   * when side c has a piece there, one move per square of its word that c
   * does not hold.
   */
  function SquareMoves(owner: seq<Color>, square: seq<Piece>, c: Color, ws: seq<bv64>, i: BitIndex): seq<Move>
    requires |owner| == NumPositions && |square| == NumPositions && |ws| == NumPositions && i < 55
  {
    if ColorOf(owner, i) == c then MovesTo(c, Mask(owner, square, Anyone), i, Targets(ws[Number(i)] & !FriendlyOn(owner, square, c)))
    else []
  }

  /** The moves `moves(l, c)` appends for the squares ts, lowest first. */
  function SideMoves(owner: seq<Color>, square: seq<Piece>, c: Color, ws: seq<bv64>, ts: seq<BitIndex>): seq<Move>
    requires |owner| == NumPositions && |square| == NumPositions && |ws| == NumPositions && OnBoardSquares(ts)
  {
    if ts == [] then [] else SquareMoves(owner, square, c, ws, ts[0]) + SideMoves(owner, square, c, ws, ts[1..])
  }

  /** Everything `moves(l, c)` appends: the moves of every occupied square. */
  function AllMoves(owner: seq<Color>, square: seq<Piece>, c: Color, ws: seq<bv64>): seq<Move>
    requires |owner| == NumPositions && |square| == NumPositions && |ws| == NumPositions
  {
    MaskTargets(owner, square, Anyone);
    SideMoves(owner, square, c, ws, Targets(Mask(owner, square, Anyone)))
  }

  /** The head and the tail of squares on the board are on the board. */
  lemma OnBoardCons(i: BitIndex, ts: seq<BitIndex>)
    requires OnBoardSquares([i] + ts)
    ensures i < 55 && OnBoardSquares(ts)
  {
    assert ([i] + ts)[0] == i;
    forall k | 0 <= k < |ts|
      ensures ts[k] < 55
    {
      assert ([i] + ts)[k + 1] == ts[k];
    }
  }

  /** One square more of `moves(l, c)`. */
  lemma SideMovesCons(owner: seq<Color>, square: seq<Piece>, c: Color, ws: seq<bv64>, i: BitIndex, ts: seq<BitIndex>)
    requires |owner| == NumPositions && |square| == NumPositions && |ws| == NumPositions && i < 55 && OnBoardSquares(ts)
    ensures SideMoves(owner, square, c, ws, [i] + ts) == SquareMoves(owner, square, c, ws, i) + SideMoves(owner, square, c, ws, ts)
  {
    assert ([i] + ts)[1..] == ts;
  }

  /** A move is appended for the squares ts exactly when it is one of the moves of its own square. */
  lemma {:induction false} SideMovesMember(owner: seq<Color>, square: seq<Piece>, c: Color, ws: seq<bv64>, ts: seq<BitIndex>, m: Move)
    requires |owner| == NumPositions && |square| == NumPositions && |ws| == NumPositions && OnBoardSquares(ts)
    ensures m in SideMoves(owner, square, c, ws, ts) <==> m.a in ts && m.a < 55 && m in SquareMoves(owner, square, c, ws, m.a)
  {
    if ts != [] {
      SideMovesMember(owner, square, c, ws, ts[1..], m);
      SquareMovesMember(owner, square, c, ws, ts[0], m, Mask(owner, square, Anyone), FriendlyOn(owner, square, c), ws[Number(ts[0])]);
      assert ts == [ts[0]] + ts[1..];
    }
  }

  /**
   * The moves of square i: from i, by c, when c has a piece there, to each
   * square of its word that c does not hold, a capture exactly when the
   * target is occupied.
   */
  lemma SquareMovesMember(owner: seq<Color>, square: seq<Piece>, c: Color, ws: seq<bv64>, i: BitIndex, m: Move,
                           occupied: bv64, friendly: bv64, w: bv64)
    requires |owner| == NumPositions && |square| == NumPositions && |ws| == NumPositions && i < 55
    requires occupied == Mask(owner, square, Anyone) && friendly == FriendlyOn(owner, square, c) && w == ws[Number(i)]
    ensures m in SquareMoves(owner, square, c, ws, i) <==>
              ColorOf(owner, i) == c && m.a == i && m.c == c && Bit(w, m.b) == 1 && Bit(friendly, m.b) == 0
              && (m.isCapture <==> Bit(occupied, m.b) == 1)
  {
    MovesIfMember(ColorOf(owner, i) == c, c, occupied, i, w, friendly, m);
  }


  /**
   * What `moves(l, c)` lists: a move of side c (a colour) from a square
   * holding a piece of c to every square that piece reaches and c does not
   * hold, a capture exactly when the target is occupied, and nothing else.
   */
  lemma ListedMoves(owner: seq<Color>, square: seq<Piece>, c: Color, sight: bv64, m: Move)
    requires |owner| == NumPositions && |square| == NumPositions
    ensures m in AllMoves(owner, square, c, MoveWords(owner, square, c, sight)) <==>
              c != None && m.c == c && m.a < 55 && owner[Number(m.a)] == c
              && PieceReaches(owner, square[Number(m.a)], c, Tables()[Number(m.a)], if square[Number(m.a)] == Lion then sight else 0, m.b)
              && !(m.b < 55 && owner[Number(m.b)] == c)
              && (m.isCapture <==> m.b < 55 && owner[Number(m.b)] != None)
  {
    var ws := MoveWords(owner, square, c, sight);
    var occupied := Mask(owner, square, Anyone);
    MaskTargets(owner, square, Anyone);
    SideMovesMember(owner, square, c, ws, Targets(occupied), m);
    TargetsAreBits(occupied);
    MaskBit(owner, square, Anyone, m.a);
    MaskBit(owner, square, Anyone, m.b);
    if m.a < 55 && owner[Number(m.a)] != None {
      SquareListed(owner, square, c, ws, m);
      SquareWordBit(owner, square, c, sight, m.a, m.b);
    }
  }

  /** `ListedMoves` for one occupied square m.a, in terms of its move word. */
  lemma SquareListed(owner: seq<Color>, square: seq<Piece>, c: Color, ws: seq<bv64>, m: Move)
    requires |owner| == NumPositions && |square| == NumPositions && |ws| == NumPositions
    requires m.a < 55 && owner[Number(m.a)] != None
    ensures m in SquareMoves(owner, square, c, ws, m.a) <==>
              c != None && m.c == c && owner[Number(m.a)] == c && Bit(ws[Number(m.a)], m.b) == 1
              && !(m.b < 55 && owner[Number(m.b)] == c)
              && (m.isCapture <==> m.b < 55 && owner[Number(m.b)] != None)
  {
    var occupied := Mask(owner, square, Anyone);
    var friendly := FriendlyOn(owner, square, c);
    SquareMovesMember(owner, square, c, ws, m.a, m, occupied, friendly, ws[Number(m.a)]);
    MaskBit(owner, square, Anyone, m.b);
    if c != None {
      FriendlyBit(owner, square, c, m.b);
    }
  }

  /** The word of square i holds j exactly when the piece there reaches j. */
  lemma SquareWordBit(owner: seq<Color>, square: seq<Piece>, c: Color, sight: bv64, i: BitIndex, j: BitIndex)
    requires |owner| == NumPositions && |square| == NumPositions && i < 55
    ensures Bit(MoveWords(owner, square, c, sight)[Number(i)], j) == 1 <==>
              PieceReaches(owner, square[Number(i)], c, Tables()[Number(i)], if square[Number(i)] == Lion then sight else 0, j)
  {
    var n := Number(i);
    PieceMovesBit(owner, square, square[n], c, Tables()[n], if square[n] == Lion then sight else 0, j);
  }

  /** `friendly` holds exactly the squares of side c. */
  lemma FriendlyBit(owner: seq<Color>, square: seq<Piece>, c: Color, j: BitIndex)
    requires |owner| == NumPositions && |square| == NumPositions && c != None
    ensures Bit(FriendlyOn(owner, square, c), j) == 1 <==> j < 55 && owner[Number(j)] == c
  {
    MaskBit(owner, square, Side(Black), j);
    MaskBit(owner, square, Side(White), j);
  }

  /** The moves `add` appends for the targets w without f, or none at all. */
  lemma MovesIfMember(b: bool, c: Color, bb: bv64, k: BitIndex, w: bv64, f: bv64, m: Move)
    ensures m in (if b then MovesTo(c, bb, k, Targets(w & !f)) else []) <==>
              b && m.a == k && m.c == c && Bit(w, m.b) == 1 && Bit(f, m.b) == 0 && (m.isCapture <==> Bit(bb, m.b) == 1)
  {
    if b {
      MovesToMember(c, bb, k, Targets(w & !f), m);
      TargetsAreBits(w & !f);
      AndNotBit(w, f, m.b);
    }
  }

  /** Appending a head and then a tail is appending both at once. */
  lemma Regroup<T>(items0: seq<T>, head: seq<T>, tail: seq<T>, items: seq<T>, goal: seq<T>)
    requires goal == items0 + (head + tail) && items == items0 + head
    ensures items + tail == goal
  {
  }

  /** Squares of the 7x7 board only. */
  predicate OnBoardSquares(ts: seq<BitIndex>)
  {
    forall k :: 0 <= k < |ts| ==> ts[k] < 55
  }

  /** Every target of a board lies on the board. */
  lemma MaskTargets(owner: seq<Color>, square: seq<Piece>, s: Select)
    requires |owner| == NumPositions && |square| == NumPositions
    ensures OnBoardSquares(Targets(Mask(owner, square, s)))
  {
    var ts := Targets(Mask(owner, square, s));
    TargetsAreBits(Mask(owner, square, s));
    forall k | 0 <= k < |ts|
      ensures ts[k] < 55
    {
      MaskBit(owner, square, s, ts[k]);
    }
  }

  /** The loop of `drown` has dealt with the river squares below 24 + k. */
  ghost predicate DrownedUpTo(k: int, owner0: seq<Color>, square0: seq<Piece>, owner: seq<Color>, square: seq<Piece>,
                              riverSquare: seq<Piece>, riverBlack: bv64, riverWhite: bv64, played: Color)
    requires |owner0| == NumPositions && |square0| == NumPositions && |riverSquare| == 8
    requires |owner| == NumPositions && |square| == NumPositions
  {
    forall n :: 0 <= n < NumPositions ==>
      if n < 24 + k && Drowns(owner0[n], square0[n], n, riverSquare, riverBlack, riverWhite, played)
      then owner[n] == None && square[n] == Empty
      else owner[n] == owner0[n] && square[n] == square0[n]
  }

  /** The test of the loop of `drown` on river square 24 + i. */
  predicate Drowning(i: int, played: Color, owner: seq<Color>, square: seq<Piece>, riverSquare: seq<Piece>, riverBlack: bv64, riverWhite: bv64)
    requires 0 <= i < 7 && |owner| == NumPositions && |square| == NumPositions && |riverSquare| == 8
  {
    owner[24 + i] == played && square[24 + i] != Crocodile
    && Bit(RiverBoard(played, riverBlack, riverWhite), BitOf(24 + i)) == 1 && riverSquare[i] == square[24 + i]
  }

  /** One more river square done: square 24 + i loses its piece exactly when `Drowns` says so. */
  lemma DrownedNext(i: int, drowns: bool, owner0: seq<Color>, square0: seq<Piece>, owner1: seq<Color>, square1: seq<Piece>,
                    owner: seq<Color>, square: seq<Piece>, riverSquare: seq<Piece>, riverBlack: bv64, riverWhite: bv64, played: Color)
    requires 0 <= i < 7 && played != None
    requires |owner0| == NumPositions && |square0| == NumPositions && |riverSquare| == 8
    requires |owner1| == NumPositions && |square1| == NumPositions && |owner| == NumPositions && |square| == NumPositions
    requires DrownedUpTo(i, owner0, square0, owner1, square1, riverSquare, riverBlack, riverWhite, played)
    requires drowns == Drowning(i, played, owner1, square1, riverSquare, riverBlack, riverWhite)
    requires if drowns then owner == owner1[24 + i := None] && square == square1[24 + i := Empty]
             else owner == owner1 && square == square1
    ensures DrownedUpTo(i + 1, owner0, square0, owner, square, riverSquare, riverBlack, riverWhite, played)
  {
    assert owner1[24 + i] == owner0[24 + i] && square1[24 + i] == square0[24 + i];
  }

  /** After the seven rounds, the loop of `drown` has done what `Drowns` says. */
  lemma DrownedAll(owner0: seq<Color>, square0: seq<Piece>, owner: seq<Color>, square: seq<Piece>,
                   riverSquare: seq<Piece>, riverBlack: bv64, riverWhite: bv64, played: Color)
    requires |owner0| == NumPositions && |square0| == NumPositions && |riverSquare| == 8
    requires |owner| == NumPositions && |square| == NumPositions
    requires DrownedUpTo(7, owner0, square0, owner, square, riverSquare, riverBlack, riverWhite, played)
    ensures owner == DrownedOwners(owner0, square0, riverSquare, riverBlack, riverWhite, played)
    ensures square == DrownedPieces(owner0, square0, riverSquare, riverBlack, riverWhite, played)
  {
  }

  /**
   * The guard of `drown` loses nothing: when no river board of a side meets
   * that side's pieces on the river, no piece drowns.
   */
  lemma NothingDrowns(owner: seq<Color>, square: seq<Piece>, riverSquare: seq<Piece>,
                      riverBlack: bv64, riverWhite: bv64, played: Color)
    requires |owner| == NumPositions && |square| == NumPositions && |riverSquare| == 8 && played != None
    requires (riverBlack << 24) & (River & Mask(owner, square, Side(Black))) == 0
    requires (riverWhite << 24) & (River & Mask(owner, square, Side(White))) == 0
    ensures DrownedOwners(owner, square, riverSquare, riverBlack, riverWhite, played) == owner
    ensures DrownedPieces(owner, square, riverSquare, riverBlack, riverWhite, played) == square
  {
    forall n | 0 <= n < NumPositions
      ensures !Drowns(owner[n], square[n], n, riverSquare, riverBlack, riverWhite, played)
    {
      DrownsGuarded(owner, square, riverSquare, riverBlack, riverWhite, played, n);
      ZeroBit(BitOf(n));
    }
  }

  /** A drowning piece sits on a square of its side's river board, of the river and of its side's board. */
  lemma DrownsGuarded(owner: seq<Color>, square: seq<Piece>, riverSquare: seq<Piece>,
                      riverBlack: bv64, riverWhite: bv64, played: Color, n: int)
    requires |owner| == NumPositions && |square| == NumPositions && |riverSquare| == 8 && 0 <= n < NumPositions
    ensures Drowns(owner[n], square[n], n, riverSquare, riverBlack, riverWhite, played) ==>
      Bit(RiverBoard(played, riverBlack, riverWhite) & (River & Mask(owner, square, Side(played))), BitOf(n)) == 1
  {
    var j := BitOf(n);
    Rows(j);
    MaskBit(owner, square, Side(played), j);
    AndBit(River, Mask(owner, square, Side(played)), j);
    AndBit(RiverBoard(played, riverBlack, riverWhite), River & Mask(owner, square, Side(played)), j);
  }

  /** Square by square, square holds superpawns on the squares of n and is square0 elsewhere. */
  ghost predicate PromotedBy(square: seq<Piece>, n: bv64, square0: seq<Piece>)
    requires |square| == NumPositions && |square0| == NumPositions
  {
    forall j: BitIndex :: j < 55 ==> square[Number(j)] == if Bit(n, j) == 1 then Superpawn else square0[Number(j)]
  }

  /**
   * Halfway through the loop of `promote`: the squares of n0 that the loop
   * has passed (those no longer in n) hold superpawns, the others are as in
   * square0, and the squares still to do hold pawns of c.
   */
  ghost predicate Promoting(owner: seq<Color>, square: seq<Piece>, c: Color, n0: bv64, n: bv64, square0: seq<Piece>)
    requires |owner| == NumPositions && |square| == NumPositions && |square0| == NumPositions
  {
    (forall j: BitIndex :: Bit(n, j) == 1 ==> Bit(n0, j) == 1 && j < 55 && owner[Number(j)] == c && square0[Number(j)] == Pawn) &&
    forall j: BitIndex :: j < 55 ==>
      square[Number(j)] == if Bit(n0, j) == 1 && Bit(n, j) == 0 then Superpawn else square0[Number(j)]
  }

  lemma PromotingStart(owner: seq<Color>, square: seq<Piece>, c: Color, promo: bv64)
    requires |owner| == NumPositions && |square| == NumPositions
    ensures var n0 := Mask(owner, square, Kind(c, Pawn)) & promo; Promoting(owner, square, c, n0, n0, square)
  {
    var n0 := Mask(owner, square, Kind(c, Pawn)) & promo;
    forall j: BitIndex | Bit(n0, j) == 1
      ensures j < 55 && owner[Number(j)] == c && square[Number(j)] == Pawn
    {
      PawnAt(owner, square, c, promo, j);
    }
  }

  lemma PawnAt(owner: seq<Color>, square: seq<Piece>, c: Color, promo: bv64, j: BitIndex)
    requires |owner| == NumPositions && |square| == NumPositions
    requires Bit(Mask(owner, square, Kind(c, Pawn)) & promo, j) == 1
    ensures j < 55 && owner[Number(j)] == c && square[Number(j)] == Pawn
  {
    AndBit(Mask(owner, square, Kind(c, Pawn)), promo, j);
    MaskBit(owner, square, Kind(c, Pawn), j);
  }

  lemma PromotingStep(owner: seq<Color>, square: seq<Piece>, c: Color, n0: bv64, n: bv64, i: BitIndex, square0: seq<Piece>)
    requires |owner| == NumPositions && |square| == NumPositions && |square0| == NumPositions
    requires Promoting(owner, square, c, n0, n, square0) && Bit(n, i) == 1
    ensures Promoting(owner, square[Number(i) := Superpawn], c, n0, ClearBit(n, i), square0)
  {
    forall j: BitIndex | Bit(ClearBit(n, i), j) == 1
      ensures Bit(n0, j) == 1 && j < 55 && owner[Number(j)] == c && square0[Number(j)] == Pawn
    {
      ClearBitAt(n, i, j);
    }
    forall j: BitIndex | j < 55
      ensures square[Number(i) := Superpawn][Number(j)]
           == if Bit(n0, j) == 1 && Bit(ClearBit(n, i), j) == 0 then Superpawn else square0[Number(j)]
    {
      var was := square[Number(j)];
      assert was == if Bit(n0, j) == 1 && Bit(n, j) == 0 then Superpawn else square0[Number(j)];
      StepAt(square, n, i, j);
    }
  }

  /** Bit j after clearing bit i of n, and the entry of square j after writing square i. */
  lemma StepAt(square: seq<Piece>, n: bv64, i: BitIndex, j: BitIndex)
    requires |square| == NumPositions && i < 55 && j < 55
    ensures Bit(ClearBit(n, i), j) == if j == i then 0 else Bit(n, j)
    ensures square[Number(i) := Superpawn][Number(j)] == if j == i then Superpawn else square[Number(j)]
  {
    ClearBitAt(n, i, j);
    BitOfNumber(i);
    BitOfNumber(j);
  }

  /** A square the loop of `promote` has still to do holds a pawn of c. */
  lemma PendingPawn(owner: seq<Color>, square: seq<Piece>, c: Color, n0: bv64, n: bv64, i: BitIndex, square0: seq<Piece>)
    requires |owner| == NumPositions && |square| == NumPositions && |square0| == NumPositions
    requires Promoting(owner, square, c, n0, n, square0) && Bit(n, i) == 1
    ensures i < 55 && owner[Number(i)] == c && square[Number(i)] == Pawn
  {
  }

  lemma PromotingDone(owner: seq<Color>, square: seq<Piece>, c: Color, n0: bv64, square0: seq<Piece>)
    requires |owner| == NumPositions && |square| == NumPositions && |square0| == NumPositions
    requires Promoting(owner, square, c, n0, 0, square0)
    ensures PromotedBy(square, n0, square0)
  {
    forall j: BitIndex
      ensures Bit(0, j) == 0
    {
      ZeroBit(j);
    }
  }

  /** The two rounds of `promote()`, Black's then White's, give `Promoted`. */
  lemma PromotedBoth(owner: seq<Color>, square0: seq<Piece>, square1: seq<Piece>, square2: seq<Piece>)
    requires |owner| == NumPositions && |square0| == NumPositions && |square1| == NumPositions && |square2| == NumPositions
    requires PromotedBy(square1, Mask(owner, square0, Kind(Black, Pawn)) & BlackPromote, square0)
    requires PromotedBy(square2, Mask(owner, square1, Kind(White, Pawn)) & WhitePromote, square1)
    ensures square2 == Promoted(owner, square0)
  {
    PromotedRounds(owner, square0, square1, square2,
                   Mask(owner, square0, Kind(Black, Pawn)) & BlackPromote, Mask(owner, square1, Kind(White, Pawn)) & WhitePromote);
  }

  /** `PromotedBoth`, with the squares each round promotes as nb and nw. */
  lemma PromotedRounds(owner: seq<Color>, square0: seq<Piece>, square1: seq<Piece>, square2: seq<Piece>, nb: bv64, nw: bv64)
    requires |owner| == NumPositions && |square0| == NumPositions && |square1| == NumPositions && |square2| == NumPositions
    requires nb == Mask(owner, square0, Kind(Black, Pawn)) & BlackPromote
    requires nw == Mask(owner, square1, Kind(White, Pawn)) & WhitePromote
    requires PromotedBy(square1, nb, square0) && PromotedBy(square2, nw, square1)
    ensures square2 == Promoted(owner, square0)
  {
    forall n | 0 <= n < NumPositions
      ensures square2[n] == Promoted(owner, square0)[n]
    {
      var j := BitOf(n);
      assert square1[n] == if Bit(nb, j) == 1 then Superpawn else square0[n];
      assert square2[n] == if Bit(nw, j) == 1 then Superpawn else square1[n];
      PromotedOne(owner, square0, square1, j, nb, nw);
    }
  }

  /** Square j is promoted in the black round or in the white round exactly when `Promoted` says so. */
  lemma PromotedOne(owner: seq<Color>, square0: seq<Piece>, square1: seq<Piece>, j: BitIndex, nb: bv64, nw: bv64)
    requires |owner| == NumPositions && |square0| == NumPositions && |square1| == NumPositions && j < 55
    requires nb == Mask(owner, square0, Kind(Black, Pawn)) & BlackPromote
    requires nw == Mask(owner, square1, Kind(White, Pawn)) & WhitePromote
    requires square1[Number(j)] == if Bit(nb, j) == 1 then Superpawn else square0[Number(j)]
    ensures Bit(nb, j) == 1 <==> square0[Number(j)] == Pawn && owner[Number(j)] == Black && FarRow(Black, Number(j))
    ensures Bit(nw, j) == 1 <==> square0[Number(j)] == Pawn && owner[Number(j)] == White && FarRow(White, Number(j))
  {
    Rows(j);
    PromoteBit(owner, square0, Black, BlackPromote, nb, j);
    PromoteBit(owner, square1, White, WhitePromote, nw, j);
  }

  /** n, c's pawns within promo, holds j exactly when j is in promo and holds a pawn of c. */
  lemma PromoteBit(owner: seq<Color>, square: seq<Piece>, c: Color, promo: bv64, n: bv64, j: BitIndex)
    requires |owner| == NumPositions && |square| == NumPositions
    requires n == Mask(owner, square, Kind(c, Pawn)) & promo
    ensures Bit(n, j) == 1 <==> Bit(promo, j) == 1 && j < 55 && owner[Number(j)] == c && square[Number(j)] == Pawn
  {
    AndBit(Mask(owner, square, Kind(c, Pawn)), promo, j);
    MaskBit(owner, square, Kind(c, Pawn), j);
  }

  // ------------------------------------------------- what a move does ---

  /** No pawn stands on its side's far row: what `promote()` leaves behind. */
  predicate NoPendingPawn(owner: seq<Color>, square: seq<Piece>)
    requires |owner| == NumPositions && |square| == NumPositions
  {
    forall n :: 0 <= n < NumPositions ==> !(square[n] == Pawn && FarRow(owner[n], n))
  }

  /** The square a piece moves from is empty after the move. */
  lemma MoveVacates(owner: seq<Color>, square: seq<Piece>, riverSquare: seq<Piece>,
                    riverBlack: bv64, riverWhite: bv64, a: int, b: int)
    requires |owner| == NumPositions && |square| == NumPositions && |riverSquare| == 8
    requires 0 <= a < NumPositions && 0 <= b < NumPositions && a != b
    ensures var (o, p) := AfterMove(owner, square, riverSquare, riverBlack, riverWhite, a, b); o[a] == None && p[a] == Empty
  {
  }

  /**
   * The moving piece stands on square b after the move, a superpawn when it
   * is a pawn that reached its far row, unless it drowns there.
   */
  lemma MoveLands(owner: seq<Color>, square: seq<Piece>, riverSquare: seq<Piece>,
                  riverBlack: bv64, riverWhite: bv64, a: int, b: int)
    requires |owner| == NumPositions && |square| == NumPositions && |riverSquare| == 8
    requires 0 <= a < NumPositions && 0 <= b < NumPositions && a != b
    ensures var (o, p) := AfterMove(owner, square, riverSquare, riverBlack, riverWhite, a, b);
            var c := owner[a];
            var q := if square[a] == Pawn && FarRow(c, b) then Superpawn else square[a];
            var drowned := Drowns(c, q, b, riverSquare, riverBlack, riverWhite, c);
            o[b] == (if drowned then None else c) && p[b] == (if drowned then Empty else q)
  {
  }

  /**
   * Every other square keeps its colour and piece, except that a piece of
   * the mover on the river drowns when `drown` finds it there. Pieces of
   * the opponent and squares off the river never change.
   */
  lemma MoveKeeps(owner: seq<Color>, square: seq<Piece>, riverSquare: seq<Piece>,
                  riverBlack: bv64, riverWhite: bv64, a: int, b: int, n: int)
    requires |owner| == NumPositions && |square| == NumPositions && |riverSquare| == 8
    requires 0 <= a < NumPositions && 0 <= b < NumPositions && a != b
    requires 0 <= n < NumPositions && n != a && n != b && NoPendingPawn(owner, square)
    ensures var (o, p) := AfterMove(owner, square, riverSquare, riverBlack, riverWhite, a, b);
            var drowned := Drowns(owner[n], square[n], n, riverSquare, riverBlack, riverWhite, owner[a]);
            o[n] == (if drowned then None else owner[n]) && p[n] == (if drowned then Empty else square[n])
    ensures owner[n] != owner[a] || !(24 <= n < 31) ==>
            AfterMove(owner, square, riverSquare, riverBlack, riverWhite, a, b).0[n] == owner[n] &&
            AfterMove(owner, square, riverSquare, riverBlack, riverWhite, a, b).1[n] == square[n]
  {
  }

  /** After any move no pawn is left on its far row. */
  lemma MoveLeavesNoPendingPawn(owner: seq<Color>, square: seq<Piece>, riverSquare: seq<Piece>,
                                riverBlack: bv64, riverWhite: bv64, a: int, b: int)
    requires |owner| == NumPositions && |square| == NumPositions && |riverSquare| == 8
    requires 0 <= a < NumPositions && 0 <= b < NumPositions
    ensures var (o, p) := AfterMove(owner, square, riverSquare, riverBlack, riverWhite, a, b); NoPendingPawn(o, p)
  {
  }

  /**
   * What drowning means once the river fields hold the snapshot that
   * `copy_river` took of the position before (owner0, square0): a piece
   * drowns exactly when it is a non-crocodile of the side that played, on a
   * river square where that side had a piece of the same kind one move ago.
   */
  lemma DrownsMeaning(owner0: seq<Color>, square0: seq<Piece>, o: Color, p: Piece, n: int, played: Color)
    requires |owner0| == NumPositions && |square0| == NumPositions && 0 <= n < NumPositions && played != None
    ensures Drowns(o, p, n, square0[24..32], RiverWord(owner0, square0, Black), RiverWord(owner0, square0, White), played)
        <==> 24 <= n < 31 && o == played && p != Crocodile && owner0[n] == played && square0[n] == p
  {
    if 24 <= n < 31 {
      RiverBit(owner0, square0, n, played);
    }
  }

  /** On a river square, the river board of the snapshot holds exactly the squares where the side had a piece. */
  lemma RiverBit(owner0: seq<Color>, square0: seq<Piece>, n: int, played: Color)
    requires |owner0| == NumPositions && |square0| == NumPositions && 24 <= n < 31 && played != None
    ensures Bit(RiverBoard(played, RiverWord(owner0, square0, Black), RiverWord(owner0, square0, White)), BitOf(n)) == 1
        <==> owner0[n] == played
  {
    var i := BitOf(n);
    var m := Mask(owner0, square0, Side(played));
    assert RiverBoard(played, RiverWord(owner0, square0, Black), RiverWord(owner0, square0, White)) == ((m & River) >> 24) << 24;
    RiverWordBack(m, i);
    MaskBit(owner0, square0, Side(played), i);
  }

  /** Shifting a river word back up gives the side's board on the river: bit i is kept on row 3. */
  lemma RiverWordBack(m: bv64, i: BitIndex)
    requires 24 <= Number(i) < 31
    ensures Bit(((m & River) >> 24) << 24, i) == Bit(m, i)
  {
    Rows(i);
    assert ((m & River) >> 24) << 24 == m & River;
    AndBit(m, River, i);
  }

  // ------------------------------------------------------- lion sight ---

  /** Column and row of a square: `i % 8` and `i >> 3`. */
  function Col(i: BitIndex): int { Uncoord(i & 7) }
  function Row(i: BitIndex): int { Uncoord(i >> 3) }

  /** The index into `LION_SIGHT` that `lion_sight` computes from the black lion's square. */
  function BlackSight(blackLion: BitIndex): int
  {
    (Col(blackLion) - 2) + Row(blackLion) * 3
  }

  /**
   * The index into `LION_SIGHT` that `lion_sight` computes from the white
   * lion's square; `(white_lion - 32) >> 3` is the row less 4.
   */
  function WhiteSight(whiteLion: BitIndex): int
  {
    (Col(whiteLion) - 2) + (Row(whiteLion) - 4) * 3
  }

  /** The test with which `lion_sight` gives up at once. */
  predicate SightShut(blackLion: BitIndex, whiteLion: BitIndex)
  {
    whiteLion < 34 || blackLion > 20
  }

  /** Both indices lie inside the 9 by 9 table. */
  predicate SightDefined(blackLion: BitIndex, whiteLion: BitIndex)
  {
    0 <= BlackSight(blackLion) < 9 && 0 <= WhiteSight(whiteLion) < 9
  }

  /** The lions face each other: the sight entry is not empty and none of its squares is occupied. */
  ghost predicate Facing(owner: seq<Color>, square: seq<Piece>, blackLion: BitIndex, whiteLion: BitIndex)
    requires |owner| == NumPositions && |square| == NumPositions
    requires SightShut(blackLion, whiteLion) || SightDefined(blackLion, whiteLion)
  {
    !SightShut(blackLion, whiteLion) &&
    var p := Sight(BlackSight(blackLion), WhiteSight(whiteLion));
    p != 0 && PathFree(owner, p)
  }

  /**
   * The test `p == (~occupied.data & p)` of `lion_sight` and `moves(c, i)`,
   * written as `p & occupied == 0`, which `AndNotSelf` shows to be the
   * same: no square of p is occupied.
   */
  function Unblocked(owner: seq<Color>, square: seq<Piece>, p: bv64): (r: bool)
    requires |owner| == NumPositions && |square| == NumPositions
    ensures r <==> PathFree(owner, p)
  {
    ClearPath(owner, square, p);
    p & Mask(owner, square, Anyone) == 0
  }

  /** No square of p is occupied. */
  ghost predicate PathFree(owner: seq<Color>, p: bv64)
    requires |owner| == NumPositions
  {
    forall j: BitIndex :: Bit(p, j) == 1 && j < 55 ==> owner[Number(j)] == None
  }

  /** `p == (~occupied & p)`: no square of p is occupied. */
  lemma ClearPath(owner: seq<Color>, square: seq<Piece>, p: bv64)
    requires |owner| == NumPositions && |square| == NumPositions
    ensures p & Mask(owner, square, Anyone) == 0 <==> PathFree(owner, p)
  {
    ClearPathFree(owner, square, p);
    ClearPathBlocked(owner, square, p);
  }

  /** `p == (~o & p)` holds exactly when p and o share no bit. */
  lemma AndNotSelf(p: bv64, o: bv64)
    ensures p == (!o & p) <==> p & o == 0
  {
    if p & o == 0 {
      AndNotKeeps(p, o);
    } else {
      AndNotDrops(p, o);
    }
  }

  lemma AndNotKeeps(p: bv64, o: bv64)
    requires p & o == 0
    ensures p == (!o & p)
  {
  }

  lemma AndNotDrops(p: bv64, o: bv64)
    requires p & o != 0
    ensures p != (!o & p)
  {
  }

  lemma ClearPathFree(owner: seq<Color>, square: seq<Piece>, p: bv64)
    requires |owner| == NumPositions && |square| == NumPositions
    ensures p & Mask(owner, square, Anyone) == 0 ==> PathFree(owner, p)
  {
    if p & Mask(owner, square, Anyone) == 0 {
      forall j: BitIndex | Bit(p, j) == 1 && j < 55
        ensures owner[Number(j)] == None
      {
        FreeSquare(owner, square, p, j);
      }
    }
  }

  lemma ClearPathBlocked(owner: seq<Color>, square: seq<Piece>, p: bv64)
    requires |owner| == NumPositions && |square| == NumPositions
    ensures p & Mask(owner, square, Anyone) != 0 ==> !PathFree(owner, p)
  {
    BlockedBy(owner, square, p, Mask(owner, square, Anyone));
  }

  lemma BlockedBy(owner: seq<Color>, square: seq<Piece>, p: bv64, o: bv64)
    requires |owner| == NumPositions && |square| == NumPositions && o == Mask(owner, square, Anyone)
    ensures p & o != 0 ==> !PathFree(owner, p)
  {
    if p & o != 0 {
      var j := LowestBit(p & o);
      AndBit(p, o, j);
      MaskBit(owner, square, Anyone, j);
    }
  }

  lemma FreeSquare(owner: seq<Color>, square: seq<Piece>, p: bv64, j: BitIndex)
    requires |owner| == NumPositions && |square| == NumPositions
    requires p & Mask(owner, square, Anyone) == 0 && Bit(p, j) == 1 && j < 55
    ensures owner[Number(j)] == None
  {
    AndBit(p, Mask(owner, square, Anyone), j);
    ZeroBit(j);
    MaskBit(owner, square, Anyone, j);
  }

  /** `BLACK_CASTLE` and `WHITE_CASTLE` hold columns 2 to 4 of rows 0 to 2 and of rows 4 to 6. */
  lemma Castles(i: BitIndex)
    ensures Bit(BlackCastle, i) == 1 <==> 2 <= Col(i) <= 4 && Row(i) <= 2
    ensures Bit(WhiteCastle, i) == 1 <==> 2 <= Col(i) <= 4 && 4 <= Row(i) <= 6
  {
  }

  /** With each lion in its castle, `lion_sight` reaches the table, at the entry for the lions' squares. */
  lemma SightIndices(blackLion: BitIndex, whiteLion: BitIndex)
    requires Bit(BlackCastle, blackLion) == 1 && Bit(WhiteCastle, whiteLion) == 1
    ensures !SightShut(blackLion, whiteLion) && SightDefined(blackLion, whiteLion)
    ensures 2 + BlackSight(blackLion) % 3 == Col(blackLion) && BlackSight(blackLion) / 3 == Row(blackLion)
    ensures 2 + WhiteSight(whiteLion) % 3 == Col(whiteLion) && 4 + WhiteSight(whiteLion) / 3 == Row(whiteLion)
  {
    Castles(blackLion);
    Castles(whiteLion);
    Digits(Col(blackLion) - 2, Row(blackLion));
    Digits(Col(whiteLion) - 2, Row(whiteLion) - 4);
  }

  /** A two-digit number in base 3, split back into its digits. */
  lemma Digits(r: int, q: int)
    requires 0 <= r < 3 && 0 <= q < 3
    ensures (r + q * 3) % 3 == r && (r + q * 3) / 3 == q
  {
  }

  /**
   * The squares of the sight entry for two lions in their castles are
   * exactly those strictly between the lions on a column or diagonal they
   * share.
   */
  lemma SightBit(blackLion: BitIndex, whiteLion: BitIndex, j: BitIndex)
    requires Bit(BlackCastle, blackLion) == 1 && Bit(WhiteCastle, whiteLion) == 1
    ensures SightDefined(blackLion, whiteLion)
    ensures Bit(Sight(BlackSight(blackLion), WhiteSight(whiteLion)), j) == 1
        <==> Between(Col(blackLion), Row(blackLion), Col(whiteLion), Row(whiteLion), Number(j) % 8, Number(j) / 8)
  {
    SightIndices(blackLion, whiteLion);
    SightSquare(BlackSight(blackLion), WhiteSight(whiteLion), j);
  }

  /** The sight entry of two lions in their castles is empty exactly when they share no column or diagonal. */
  lemma SightAligned(blackLion: BitIndex, whiteLion: BitIndex)
    requires Bit(BlackCastle, blackLion) == 1 && Bit(WhiteCastle, whiteLion) == 1
    ensures SightDefined(blackLion, whiteLion)
    ensures Sight(BlackSight(blackLion), WhiteSight(whiteLion)) != 0
        <==> Aligned(Col(blackLion), Row(blackLion), Col(whiteLion), Row(whiteLion))
  {
    SightIndices(blackLion, whiteLion);
    SightNonzero(BlackSight(blackLion), WhiteSight(whiteLion));
  }

  /** Every square strictly between (blackX, blackY) and (whiteX, whiteY) on the line they share is empty. */
  ghost predicate BetweenEmpty(owner: seq<Color>, blackX: int, blackY: int, whiteX: int, whiteY: int)
    requires |owner| == NumPositions
  {
    forall x, y :: 0 <= x < 7 && 0 <= y < 7 && Between(blackX, blackY, whiteX, whiteY, x, y) ==> owner[Index(x, y)] == None
  }

  /**
   * For two lions in their castles, the squares of the sight entry are
   * free exactly when every square strictly between the lions is empty.
   */
  lemma SightFree(owner: seq<Color>, blackLion: BitIndex, whiteLion: BitIndex)
    requires |owner| == NumPositions
    requires Bit(BlackCastle, blackLion) == 1 && Bit(WhiteCastle, whiteLion) == 1
    ensures SightDefined(blackLion, whiteLion)
    ensures PathFree(owner, Sight(BlackSight(blackLion), WhiteSight(whiteLion)))
        <==> BetweenEmpty(owner, Col(blackLion), Row(blackLion), Col(whiteLion), Row(whiteLion))
  {
    SightIndices(blackLion, whiteLion);
    FreeThenEmpty(owner, blackLion, whiteLion);
    EmptyThenFree(owner, blackLion, whiteLion);
  }

  lemma FreeThenEmpty(owner: seq<Color>, blackLion: BitIndex, whiteLion: BitIndex)
    requires |owner| == NumPositions
    requires Bit(BlackCastle, blackLion) == 1 && Bit(WhiteCastle, whiteLion) == 1
    requires SightDefined(blackLion, whiteLion)
    ensures PathFree(owner, Sight(BlackSight(blackLion), WhiteSight(whiteLion)))
        ==> BetweenEmpty(owner, Col(blackLion), Row(blackLion), Col(whiteLion), Row(whiteLion))
  {
    if PathFree(owner, Sight(BlackSight(blackLion), WhiteSight(whiteLion))) {
      forall x, y | 0 <= x < 7 && 0 <= y < 7 && Between(Col(blackLion), Row(blackLion), Col(whiteLion), Row(whiteLion), x, y)
        ensures owner[Index(x, y)] == None
      {
        FreeSquareBetween(owner, blackLion, whiteLion, x, y);
      }
    }
  }

  lemma FreeSquareBetween(owner: seq<Color>, blackLion: BitIndex, whiteLion: BitIndex, x: int, y: int)
    requires |owner| == NumPositions
    requires Bit(BlackCastle, blackLion) == 1 && Bit(WhiteCastle, whiteLion) == 1
    requires SightDefined(blackLion, whiteLion) && PathFree(owner, Sight(BlackSight(blackLion), WhiteSight(whiteLion)))
    requires 0 <= x < 7 && 0 <= y < 7 && Between(Col(blackLion), Row(blackLion), Col(whiteLion), Row(whiteLion), x, y)
    ensures owner[Index(x, y)] == None
  {
    var j := BitOf(Index(x, y));
    SightBit(blackLion, whiteLion, j);
    assert Bit(Sight(BlackSight(blackLion), WhiteSight(whiteLion)), j) == 1 && j < 55;
  }

  lemma EmptyThenFree(owner: seq<Color>, blackLion: BitIndex, whiteLion: BitIndex)
    requires |owner| == NumPositions
    requires Bit(BlackCastle, blackLion) == 1 && Bit(WhiteCastle, whiteLion) == 1
    requires SightDefined(blackLion, whiteLion)
    ensures BetweenEmpty(owner, Col(blackLion), Row(blackLion), Col(whiteLion), Row(whiteLion))
        ==> PathFree(owner, Sight(BlackSight(blackLion), WhiteSight(whiteLion)))
  {
    if BetweenEmpty(owner, Col(blackLion), Row(blackLion), Col(whiteLion), Row(whiteLion)) {
      forall j: BitIndex | Bit(Sight(BlackSight(blackLion), WhiteSight(whiteLion)), j) == 1 && j < 55
        ensures owner[Number(j)] == None
      {
        EmptySquareOnSight(owner, blackLion, whiteLion, j);
      }
    }
  }

  lemma EmptySquareOnSight(owner: seq<Color>, blackLion: BitIndex, whiteLion: BitIndex, j: BitIndex)
    requires |owner| == NumPositions
    requires Bit(BlackCastle, blackLion) == 1 && Bit(WhiteCastle, whiteLion) == 1
    requires BetweenEmpty(owner, Col(blackLion), Row(blackLion), Col(whiteLion), Row(whiteLion))
    requires SightDefined(blackLion, whiteLion) && Bit(Sight(BlackSight(blackLion), WhiteSight(whiteLion)), j) == 1 && j < 55
    ensures owner[Number(j)] == None
  {
    SightBit(blackLion, whiteLion, j);
    var x, y := Number(j) % 8, Number(j) / 8;
    Castles(blackLion);
    Castles(whiteLion);
    assert 0 <= x < 7 && 0 <= y < 7 && Index(x, y) == Number(j);
  }

  /**
   * What `lion_sight` tests, for two lions in their castles: they share a
   * column or a diagonal, and every square strictly between them is empty.
   */
  lemma FacingMeans(owner: seq<Color>, square: seq<Piece>, blackLion: BitIndex, whiteLion: BitIndex)
    requires |owner| == NumPositions && |square| == NumPositions
    requires Bit(BlackCastle, blackLion) == 1 && Bit(WhiteCastle, whiteLion) == 1
    ensures SightDefined(blackLion, whiteLion)
    ensures Facing(owner, square, blackLion, whiteLion)
        <==> Aligned(Col(blackLion), Row(blackLion), Col(whiteLion), Row(whiteLion)) &&
             BetweenEmpty(owner, Col(blackLion), Row(blackLion), Col(whiteLion), Row(whiteLion))
  {
    SightIndices(blackLion, whiteLion);
    SightAligned(blackLion, whiteLion);
    SightFree(owner, blackLion, whiteLion);
  }

  // ------------------------------------------------------------- moves ---

  /** Square j holds no piece; squares past the last one never do. */
  predicate Free(owner: seq<Color>, j: BitIndex)
    requires |owner| == NumPositions
  {
    j >= 55 || owner[Number(j)] == None
  }

  /** The lion table of side c in entry e. */
  function LionTable(c: Color, e: Entry): bv64
  {
    if c == Black then e.blackLion else e.whiteLion
  }

  /** The forward table of a pawn (or, with `super`, a superpawn) of side c in entry e. */
  function PawnTable(c: Color, super: bool, e: Entry): bv64
  {
    if super then (if c == Black then e.blackSpawn else e.whiteSpawn)
    else if c == Black then e.blackPawn else e.whitePawn
  }

  /** The retreat table of a pawn (or, with `super`, a superpawn) of side c in entry e. */
  function BackTable(c: Color, super: bool, e: Entry): bv64
  {
    if super then (if c == Black then e.blackSpawnBack else e.whiteSpawnBack)
    else if c == Black then e.blackPawnBack else e.whitePawnBack
  }

  /** `tmp` after `if (tmp != (tmp & ~occupied.data)) tmp = 0`: a slide kept only while nothing stands on it. */
  function Slide(d: bv64, occupied: bv64): bv64
  {
    if d != (!occupied & d) then 0 else d
  }

  /**
   * `moves(c, i)` over the words it reads: the occupied board, `lion_sight(c)`
   * as sight, and the tables of square i, with lion, forward and back already
   * chosen for side c and for pawn or superpawn. The squares the piece may
   * move to, friendly ones included.
   */
  function MoveWord(p: Piece, occupied: bv64, sight: bv64, adjacent: bv64, giraffe: bv64, elephant: bv64,
                    zebra: bv64, croc: bv64, lion: bv64, forward: bv64, back: bv64): bv64
  {
    match p
    case Giraffe => (adjacent & !occupied) | giraffe
    case Monkey => adjacent & !occupied
    case Elephant => elephant
    case Lion => sight | lion
    case Crocodile => Slide(croc, occupied) | adjacent
    case Zebra => zebra
    case Pawn => forward | Slide(back, occupied)
    case Superpawn => forward | Slide(back, occupied)
    case Empty => 0
  }

  /** `moves(c, i)` for a piece p of side c on a square with table entry e, given `lion_sight(c)`. */
  function PieceMoves(owner: seq<Color>, square: seq<Piece>, p: Piece, c: Color, e: Entry, sight: bv64): bv64
    requires |owner| == NumPositions && |square| == NumPositions
  {
    var super := p == Superpawn;
    MoveWord(p, Mask(owner, square, Anyone), sight, e.adjacent, e.giraffe, e.elephant, e.zebra, e.croc,
             LionTable(c, e), PawnTable(c, super, e), BackTable(c, super, e))
  }

  /** Bit j of a move word, read off its tables and the occupied board. */
  predicate WordReaches(p: Piece, occupied: bv64, sight: bv64, adjacent: bv64, giraffe: bv64, elephant: bv64,
                        zebra: bv64, croc: bv64, lion: bv64, forward: bv64, back: bv64, j: BitIndex)
  {
    match p
    case Giraffe => (Bit(adjacent, j) == 1 && Bit(occupied, j) == 0) || Bit(giraffe, j) == 1
    case Monkey => Bit(adjacent, j) == 1 && Bit(occupied, j) == 0
    case Elephant => Bit(elephant, j) == 1
    case Lion => Bit(sight, j) == 1 || Bit(lion, j) == 1
    case Crocodile => (Bit(croc, j) == 1 && croc & occupied == 0) || Bit(adjacent, j) == 1
    case Zebra => Bit(zebra, j) == 1
    case Pawn => Bit(forward, j) == 1 || (Bit(back, j) == 1 && back & occupied == 0)
    case Superpawn => Bit(forward, j) == 1 || (Bit(back, j) == 1 && back & occupied == 0)
    case Empty => false
  }

  /**
   * Square j is a target of piece p of side c, square by square: a giraffe
   * steps to a free neighbour or jumps two squares; a monkey steps to a free
   * neighbour; a lion moves inside its castle or along its sight; a
   * crocodile steps to any neighbour, and slides only when its whole slide
   * is free; a pawn or superpawn moves forward, and retreats only when its
   * whole retreat is free; an elephant and a zebra move by their tables.
   */
  ghost predicate Reaches(owner: seq<Color>, p: Piece, sight: bv64, adjacent: bv64, giraffe: bv64, elephant: bv64,
                         zebra: bv64, croc: bv64, lion: bv64, forward: bv64, back: bv64, j: BitIndex)
    requires |owner| == NumPositions
  {
    match p
    case Giraffe => (Bit(adjacent, j) == 1 && Free(owner, j)) || Bit(giraffe, j) == 1
    case Monkey => Bit(adjacent, j) == 1 && Free(owner, j)
    case Elephant => Bit(elephant, j) == 1
    case Lion => Bit(sight, j) == 1 || Bit(lion, j) == 1
    case Crocodile => (Bit(croc, j) == 1 && PathFree(owner, croc)) || Bit(adjacent, j) == 1
    case Zebra => Bit(zebra, j) == 1
    case Pawn => Bit(forward, j) == 1 || (Bit(back, j) == 1 && PathFree(owner, back))
    case Superpawn => Bit(forward, j) == 1 || (Bit(back, j) == 1 && PathFree(owner, back))
    case Empty => false
  }

  /** `Reaches` for piece p of side c on a square with table entry e. */
  ghost predicate PieceReaches(owner: seq<Color>, p: Piece, c: Color, e: Entry, sight: bv64, j: BitIndex)
    requires |owner| == NumPositions
  {
    var super := p == Superpawn;
    Reaches(owner, p, sight, e.adjacent, e.giraffe, e.elephant, e.zebra, e.croc,
            LionTable(c, e), PawnTable(c, super, e), BackTable(c, super, e), j)
  }

  /** `PieceMovesBit` for every square at once. */
  lemma PieceMovesBits(owner: seq<Color>, square: seq<Piece>, p: Piece, c: Color, e: Entry, sight: bv64)
    requires |owner| == NumPositions && |square| == NumPositions
    ensures forall j: BitIndex :: Bit(PieceMoves(owner, square, p, c, e, sight), j) == 1 <==> PieceReaches(owner, p, c, e, sight, j)
  {
    forall j: BitIndex
      ensures Bit(PieceMoves(owner, square, p, c, e, sight), j) == 1 <==> PieceReaches(owner, p, c, e, sight, j)
    {
      PieceMovesBit(owner, square, p, c, e, sight, j);
    }
  }

  /** The word `moves(c, i)` computes holds exactly the squares the piece reaches. */
  lemma PieceMovesBit(owner: seq<Color>, square: seq<Piece>, p: Piece, c: Color, e: Entry, sight: bv64, j: BitIndex)
    requires |owner| == NumPositions && |square| == NumPositions
    ensures Bit(PieceMoves(owner, square, p, c, e, sight), j) == 1 <==> PieceReaches(owner, p, c, e, sight, j)
  {
    var super := p == Superpawn;
    MoveWordBit(p, Mask(owner, square, Anyone), sight, e.adjacent, e.giraffe, e.elephant, e.zebra, e.croc,
                LionTable(c, e), PawnTable(c, super, e), BackTable(c, super, e), j);
    WordMeaning(owner, square, p, sight, e.adjacent, e.giraffe, e.elephant, e.zebra, e.croc,
                LionTable(c, e), PawnTable(c, super, e), BackTable(c, super, e), j);
  }

  /** Read on the board, the word-level test is the square-by-square one. */
  lemma WordMeaning(owner: seq<Color>, square: seq<Piece>, p: Piece, sight: bv64, adjacent: bv64, giraffe: bv64, elephant: bv64,
                    zebra: bv64, croc: bv64, lion: bv64, forward: bv64, back: bv64, j: BitIndex)
    requires |owner| == NumPositions && |square| == NumPositions
    ensures WordReaches(p, Mask(owner, square, Anyone), sight, adjacent, giraffe, elephant, zebra, croc, lion, forward, back, j)
        <==> Reaches(owner, p, sight, adjacent, giraffe, elephant, zebra, croc, lion, forward, back, j)
  {
    match p
    case Giraffe => GiraffeMeaning(owner, square, sight, adjacent, giraffe, elephant, zebra, croc, lion, forward, back, j);
    case Monkey => MonkeyMeaning(owner, square, sight, adjacent, giraffe, elephant, zebra, croc, lion, forward, back, j);
    case Crocodile => CrocodileMeaning(owner, square, sight, adjacent, giraffe, elephant, zebra, croc, lion, forward, back, j);
    case Pawn => PawnMeaning(owner, square, sight, adjacent, giraffe, elephant, zebra, croc, lion, forward, back, j);
    case Superpawn => SuperpawnMeaning(owner, square, sight, adjacent, giraffe, elephant, zebra, croc, lion, forward, back, j);
    case _ =>
  }

  lemma GiraffeMeaning(owner: seq<Color>, square: seq<Piece>, sight: bv64, adjacent: bv64, giraffe: bv64, elephant: bv64,
                        zebra: bv64, croc: bv64, lion: bv64, forward: bv64, back: bv64, j: BitIndex)
    requires |owner| == NumPositions && |square| == NumPositions
    ensures WordReaches(Giraffe, Mask(owner, square, Anyone), sight, adjacent, giraffe, elephant, zebra, croc, lion, forward, back, j) <==> Reaches(owner, Giraffe, sight, adjacent, giraffe, elephant, zebra, croc, lion, forward, back, j)
  {
    OccupiedBit(owner, square, j);
  }

  lemma MonkeyMeaning(owner: seq<Color>, square: seq<Piece>, sight: bv64, adjacent: bv64, giraffe: bv64, elephant: bv64,
                       zebra: bv64, croc: bv64, lion: bv64, forward: bv64, back: bv64, j: BitIndex)
    requires |owner| == NumPositions && |square| == NumPositions
    ensures WordReaches(Monkey, Mask(owner, square, Anyone), sight, adjacent, giraffe, elephant, zebra, croc, lion, forward, back, j) <==> Reaches(owner, Monkey, sight, adjacent, giraffe, elephant, zebra, croc, lion, forward, back, j)
  {
    OccupiedBit(owner, square, j);
  }

  lemma CrocodileMeaning(owner: seq<Color>, square: seq<Piece>, sight: bv64, adjacent: bv64, giraffe: bv64, elephant: bv64,
                          zebra: bv64, croc: bv64, lion: bv64, forward: bv64, back: bv64, j: BitIndex)
    requires |owner| == NumPositions && |square| == NumPositions
    ensures WordReaches(Crocodile, Mask(owner, square, Anyone), sight, adjacent, giraffe, elephant, zebra, croc, lion, forward, back, j) <==> Reaches(owner, Crocodile, sight, adjacent, giraffe, elephant, zebra, croc, lion, forward, back, j)
  {
    ClearPath(owner, square, croc);
  }

  lemma PawnMeaning(owner: seq<Color>, square: seq<Piece>, sight: bv64, adjacent: bv64, giraffe: bv64, elephant: bv64,
                     zebra: bv64, croc: bv64, lion: bv64, forward: bv64, back: bv64, j: BitIndex)
    requires |owner| == NumPositions && |square| == NumPositions
    ensures WordReaches(Pawn, Mask(owner, square, Anyone), sight, adjacent, giraffe, elephant, zebra, croc, lion, forward, back, j) <==> Reaches(owner, Pawn, sight, adjacent, giraffe, elephant, zebra, croc, lion, forward, back, j)
  {
    ClearPath(owner, square, back);
  }

  lemma SuperpawnMeaning(owner: seq<Color>, square: seq<Piece>, sight: bv64, adjacent: bv64, giraffe: bv64, elephant: bv64,
                          zebra: bv64, croc: bv64, lion: bv64, forward: bv64, back: bv64, j: BitIndex)
    requires |owner| == NumPositions && |square| == NumPositions
    ensures WordReaches(Superpawn, Mask(owner, square, Anyone), sight, adjacent, giraffe, elephant, zebra, croc, lion, forward, back, j) <==> Reaches(owner, Superpawn, sight, adjacent, giraffe, elephant, zebra, croc, lion, forward, back, j)
  {
    ClearPath(owner, square, back);
  }

  /** Bit j of a move word is set exactly when its tables and the occupied board say so. */
  lemma MoveWordBit(p: Piece, occupied: bv64, sight: bv64, adjacent: bv64, giraffe: bv64, elephant: bv64,
                    zebra: bv64, croc: bv64, lion: bv64, forward: bv64, back: bv64, j: BitIndex)
    ensures Bit(MoveWord(p, occupied, sight, adjacent, giraffe, elephant, zebra, croc, lion, forward, back), j) == 1 <==> WordReaches(p, occupied, sight, adjacent, giraffe, elephant, zebra, croc, lion, forward, back, j)
  {
    match p
    case Giraffe => GiraffeBit(occupied, sight, adjacent, giraffe, elephant, zebra, croc, lion, forward, back, j);
    case Monkey => MonkeyBit(occupied, sight, adjacent, giraffe, elephant, zebra, croc, lion, forward, back, j);
    case Elephant => ElephantBit(occupied, sight, adjacent, giraffe, elephant, zebra, croc, lion, forward, back, j);
    case Lion => LionBit(occupied, sight, adjacent, giraffe, elephant, zebra, croc, lion, forward, back, j);
    case Crocodile => CrocodileBit(occupied, sight, adjacent, giraffe, elephant, zebra, croc, lion, forward, back, j);
    case Zebra => ZebraBit(occupied, sight, adjacent, giraffe, elephant, zebra, croc, lion, forward, back, j);
    case Pawn => PawnBit(occupied, sight, adjacent, giraffe, elephant, zebra, croc, lion, forward, back, j);
    case Superpawn => SuperpawnBit(occupied, sight, adjacent, giraffe, elephant, zebra, croc, lion, forward, back, j);
    case Empty => EmptyBit(occupied, sight, adjacent, giraffe, elephant, zebra, croc, lion, forward, back, j);
  }

  lemma GiraffeBit(occupied: bv64, sight: bv64, adjacent: bv64, giraffe: bv64, elephant: bv64,
                    zebra: bv64, croc: bv64, lion: bv64, forward: bv64, back: bv64, j: BitIndex)
    ensures Bit(MoveWord(Giraffe, occupied, sight, adjacent, giraffe, elephant, zebra, croc, lion, forward, back), j) == 1 <==> WordReaches(Giraffe, occupied, sight, adjacent, giraffe, elephant, zebra, croc, lion, forward, back, j)
  {
    BitOfEqual(MoveWord(Giraffe, occupied, sight, adjacent, giraffe, elephant, zebra, croc, lion, forward, back), (adjacent & !occupied) | giraffe, j);
    StepBits(adjacent, occupied, giraffe, j);
  }

  lemma MonkeyBit(occupied: bv64, sight: bv64, adjacent: bv64, giraffe: bv64, elephant: bv64,
                   zebra: bv64, croc: bv64, lion: bv64, forward: bv64, back: bv64, j: BitIndex)
    ensures Bit(MoveWord(Monkey, occupied, sight, adjacent, giraffe, elephant, zebra, croc, lion, forward, back), j) == 1 <==> WordReaches(Monkey, occupied, sight, adjacent, giraffe, elephant, zebra, croc, lion, forward, back, j)
  {
    BitOfEqual(MoveWord(Monkey, occupied, sight, adjacent, giraffe, elephant, zebra, croc, lion, forward, back), adjacent & !occupied, j);
    StepOnly(adjacent, occupied, j);
  }

  lemma ElephantBit(occupied: bv64, sight: bv64, adjacent: bv64, giraffe: bv64, elephant: bv64,
                     zebra: bv64, croc: bv64, lion: bv64, forward: bv64, back: bv64, j: BitIndex)
    ensures Bit(MoveWord(Elephant, occupied, sight, adjacent, giraffe, elephant, zebra, croc, lion, forward, back), j) == 1 <==> WordReaches(Elephant, occupied, sight, adjacent, giraffe, elephant, zebra, croc, lion, forward, back, j)
  {
  }

  lemma LionBit(occupied: bv64, sight: bv64, adjacent: bv64, giraffe: bv64, elephant: bv64,
                 zebra: bv64, croc: bv64, lion: bv64, forward: bv64, back: bv64, j: BitIndex)
    ensures Bit(MoveWord(Lion, occupied, sight, adjacent, giraffe, elephant, zebra, croc, lion, forward, back), j) == 1 <==> WordReaches(Lion, occupied, sight, adjacent, giraffe, elephant, zebra, croc, lion, forward, back, j)
  {
    BitOfEqual(MoveWord(Lion, occupied, sight, adjacent, giraffe, elephant, zebra, croc, lion, forward, back), sight | lion, j);
    OrBit(sight, lion, j);
  }

  lemma CrocodileBit(occupied: bv64, sight: bv64, adjacent: bv64, giraffe: bv64, elephant: bv64,
                      zebra: bv64, croc: bv64, lion: bv64, forward: bv64, back: bv64, j: BitIndex)
    ensures Bit(MoveWord(Crocodile, occupied, sight, adjacent, giraffe, elephant, zebra, croc, lion, forward, back), j) == 1 <==> WordReaches(Crocodile, occupied, sight, adjacent, giraffe, elephant, zebra, croc, lion, forward, back, j)
  {
    BitOfEqual(MoveWord(Crocodile, occupied, sight, adjacent, giraffe, elephant, zebra, croc, lion, forward, back), Slide(croc, occupied) | adjacent, j);
    SlideBits(croc, occupied, adjacent, j);
  }

  lemma ZebraBit(occupied: bv64, sight: bv64, adjacent: bv64, giraffe: bv64, elephant: bv64,
                  zebra: bv64, croc: bv64, lion: bv64, forward: bv64, back: bv64, j: BitIndex)
    ensures Bit(MoveWord(Zebra, occupied, sight, adjacent, giraffe, elephant, zebra, croc, lion, forward, back), j) == 1 <==> WordReaches(Zebra, occupied, sight, adjacent, giraffe, elephant, zebra, croc, lion, forward, back, j)
  {
  }

  lemma PawnBit(occupied: bv64, sight: bv64, adjacent: bv64, giraffe: bv64, elephant: bv64,
                 zebra: bv64, croc: bv64, lion: bv64, forward: bv64, back: bv64, j: BitIndex)
    ensures Bit(MoveWord(Pawn, occupied, sight, adjacent, giraffe, elephant, zebra, croc, lion, forward, back), j) == 1 <==> WordReaches(Pawn, occupied, sight, adjacent, giraffe, elephant, zebra, croc, lion, forward, back, j)
  {
    BitOfEqual(MoveWord(Pawn, occupied, sight, adjacent, giraffe, elephant, zebra, croc, lion, forward, back), Slide(back, occupied) | forward, j);
    SlideBits(back, occupied, forward, j);
  }

  lemma SuperpawnBit(occupied: bv64, sight: bv64, adjacent: bv64, giraffe: bv64, elephant: bv64,
                      zebra: bv64, croc: bv64, lion: bv64, forward: bv64, back: bv64, j: BitIndex)
    ensures Bit(MoveWord(Superpawn, occupied, sight, adjacent, giraffe, elephant, zebra, croc, lion, forward, back), j) == 1 <==> WordReaches(Superpawn, occupied, sight, adjacent, giraffe, elephant, zebra, croc, lion, forward, back, j)
  {
    BitOfEqual(MoveWord(Superpawn, occupied, sight, adjacent, giraffe, elephant, zebra, croc, lion, forward, back), Slide(back, occupied) | forward, j);
    SlideBits(back, occupied, forward, j);
  }

  lemma EmptyBit(occupied: bv64, sight: bv64, adjacent: bv64, giraffe: bv64, elephant: bv64,
                  zebra: bv64, croc: bv64, lion: bv64, forward: bv64, back: bv64, j: BitIndex)
    ensures Bit(MoveWord(Empty, occupied, sight, adjacent, giraffe, elephant, zebra, croc, lion, forward, back), j) == 1 <==> WordReaches(Empty, occupied, sight, adjacent, giraffe, elephant, zebra, croc, lion, forward, back, j)
  {
    ZeroBit(j);
  }

  /** Equal words have equal bits. */
  lemma BitOfEqual(x: bv64, y: bv64, j: BitIndex)
    requires x == y
    ensures Bit(x, j) == Bit(y, j)
  {
  }

  /** A step to a neighbour lands only on an empty square; a jump lands anywhere. */
  lemma StepBits(a: bv64, occupied: bv64, g: bv64, j: BitIndex)
    ensures Bit((a & !occupied) | g, j) == 1 <==> (Bit(a, j) == 1 && Bit(occupied, j) == 0) || Bit(g, j) == 1
  {
  }

  /** A step without a jump. */
  lemma StepOnly(a: bv64, occupied: bv64, j: BitIndex)
    ensures Bit(a & !occupied, j) == 1 <==> Bit(a, j) == 1 && Bit(occupied, j) == 0
  {
  }

  /** A slide survives only when it crosses no piece. */
  lemma SlideBits(d: bv64, occupied: bv64, g: bv64, j: BitIndex)
    ensures Bit(Slide(d, occupied) | g, j) == 1 <==> (Bit(d, j) == 1 && d & occupied == 0) || Bit(g, j) == 1
  {
    if d & occupied == 0 {
      SlideKept(d, occupied);
      BitOfEqual(Slide(d, occupied) | g, d | g, j);
      OrBit(d, g, j);
    } else {
      SlideDropped(d, occupied);
      BitOfEqual(Slide(d, occupied) | g, g, j);
    }
  }

  lemma SlideKept(d: bv64, occupied: bv64)
    requires d & occupied == 0
    ensures Slide(d, occupied) == d
  {
    AndNotKeeps(d, occupied);
  }

  lemma SlideDropped(d: bv64, occupied: bv64)
    requires d & occupied != 0
    ensures Slide(d, occupied) == 0
  {
    AndNotDrops(d, occupied);
  }

  /** The occupied board is clear at exactly the free squares. */
  lemma OccupiedBit(owner: seq<Color>, square: seq<Piece>, j: BitIndex)
    requires |owner| == NumPositions && |square| == NumPositions
    ensures Bit(Mask(owner, square, Anyone), j) == 0 <==> Free(owner, j)
  {
    MaskBit(owner, square, Anyone, j);
  }
}
