// The Tetris stub (games/tetris.h): the seven pieces, how many distinct
// rotations each has, the random piece draw and a new game. The draw is
// the value of `random()`, passed in as a parameter.
module Tetris {

  /** `Piece`, in declaration order: `Empty` is 0 and `Z` is 7. */
  datatype Piece = Empty | I | J | L | O | S | T | Z

  /** The enumerator value of a piece. */
  function Code(p: Piece): (k: nat)
    ensures k <= 7
  {
    match p
    case Empty => 0 case I => 1 case J => 2 case L => 3
    case O => 4 case S => 5 case T => 6 case Z => 7
  }

  /** The piece an enumerator value 0 .. 7 names: the cast `(Piece) k`. */
  function PieceOf(k: nat): (p: Piece)
    requires k <= 7
    ensures Code(p) == k
  {
    [Empty, I, J, L, O, S, T, Z][k]
  }

  /** `rand_piece()`: `1 + random() % T`, where T is 6. */
  function RandPiece(r: nat): (p: Piece)
    ensures Code(p) == 1 + r % Code(T)
  {
    PieceOf(1 + r % Code(T))
  }

  /** A drawn piece is never `Empty` and never `Z`: the draw stops one short of the last piece. */
  lemma RandPieceRange(r: nat)
    ensures RandPiece(r) != Empty && RandPiece(r) != Z
    ensures 1 <= Code(RandPiece(r)) <= 6
  {
  }

  /** Every piece from `I` to `T` is the draw of some `random()` value, namely its own value less one. */
  lemma RandPieceReaches(p: Piece)
    requires p != Empty && p != Z
    ensures RandPiece(Code(p) - 1) == p
  {
    var k := Code(p);
    assert PieceOf(k) == p by {
      match p
      case I => case J => case L => case O => case S => case T =>
    }
  }

  /** `rotations(p)`: the number of distinct orientations of a piece. */
  function Rotations(p: Piece): (n: nat)
    ensures p == Empty <==> n == 0
    ensures p == O <==> n == 1
    ensures p == I <==> n == 2
    ensures p in {J, L, S, T, Z} <==> n == 4
  {
    match p
    case Empty => 0
    case O => 1
    case I => 2
    case J => 4 case L => 4 case S => 4 case T => 4 case Z => 4
  }

  /** Turning any real piece a quarter turn four times brings it back: its rotation count divides 4. */
  lemma RotationsDivideFour(p: Piece)
    requires p != Empty
    ensures Rotations(p) > 0 && 4 % Rotations(p) == 0
  {
  }

  /** The fields of `Tetris`. */
  datatype Game = Game(width: nat, height: nat, score: nat, pileHeight: nat,
                       current: Piece, next: Piece, pieceMatrix: seq<Piece>)

  /**
   * `Tetris(w, h)`: no score and no pile, the current and the next piece
   * drawn by `rand_piece` from the two `random()` values r1 and r2, and a
   * w by h matrix of empty cells.
   */
  function NewGame(w: nat, h: nat, r1: nat, r2: nat): (g: Game)
    ensures g.width == w && g.height == h && g.score == 0 && g.pileHeight == 0
    ensures g.current == RandPiece(r1) && g.next == RandPiece(r2)
    ensures |g.pieceMatrix| == w * h && forall k :: 0 <= k < |g.pieceMatrix| ==> g.pieceMatrix[k] == Empty
  {
    Game(w, h, 0, 0, RandPiece(r1), RandPiece(r2), seq(w * h, _ => Empty))
  }

  /** A new game never starts with an empty or a `Z` piece, in either slot. */
  lemma NewGamePieces(w: nat, h: nat, r1: nat, r2: nat)
    ensures var g := NewGame(w, h, r1, r2);
            g.current !in {Empty, Z} && g.next !in {Empty, Z} && Rotations(g.current) > 0
  {
    RandPieceRange(r1);
    RandPieceRange(r2);
  }
}
