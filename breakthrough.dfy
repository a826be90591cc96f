// The parts of Breakthrough (games/breakthrough.h) whose code is in the
// header: the move and board renderings, the mapping of the terminal code
// and the turn to colours, and `copy_from`. A board and a move are 64-bit
// words, one bit per square, square k in column k % 8 and row k / 8. The
// terminal test `isTerminal` lives in a file that is not part of this
// model, so its result is a parameter here.
module Breakthrough {
  import opened Common
  import Bitboard
  import Turns = State

  /** `BTPiece` codes: empty, white pawn, black pawn, capture; also the values of `turn`. */
  const EmptyCell: nat := 0
  const WhitePawn: nat := 1
  const BlackPawn: nat := 2
  const CaptureCell: nat := 3

  /** `BTScore` codes returned by `isTerminal`. */
  const NotOver: nat := 0
  const WhiteWins: nat := 1
  const BlackWins: nat := 2
  const Draw: nat := 3

  // ------------------------------------------------------------ squares ---

  /** `BTBoard` and `BTMove`: an unsigned 64-bit word. */
  type Word = w: nat | w < 0x1_0000_0000_0000_0000

  /** The word shifted right n times: what `temp` holds after n steps of `temp = temp >> 1`. */
  function Shifted(w: nat, n: nat): nat
  {
    if n == 0 then w else Shifted(w / 2, n - 1)
  }

  /** One more shift halves what n shifts left. */
  lemma {:induction false} ShiftedStep(w: nat, n: nat)
    ensures Shifted(w, n + 1) == Shifted(w, n) / 2
  {
    if n > 0 {
      ShiftedStep(w / 2, n - 1);
    }
  }

  /** Bit k of a word, as `temp & mask` with `mask = 1` tests it after k shifts. */
  predicate IsSet(w: nat, k: nat)
  {
    Shifted(w, k) % 2 == 1
  }

  /** The lowest set bit of w at k or above, or 64 when there is none below 64. */
  function FirstFrom(w: nat, k: nat): (r: nat)
    requires k <= 64
    ensures k <= r <= 64
    ensures r < 64 ==> IsSet(w, r)
    ensures forall j :: k <= j < r ==> !IsSet(w, j)
    decreases 64 - k
  {
    if k == 64 then 64 else if IsSet(w, k) then k else FirstFrom(w, k + 1)
  }

  /** The lowest set bit of a move, then the next one above it; 64 stands for "not found". */
  function Squares(move: Word): (r: (nat, nat))
    ensures r.0 <= 64 && r.1 <= 64
  {
    var first := FirstFrom(move, 0);
    (first, if first < 64 then FirstFrom(move, first + 1) else 64)
  }

  /** The column letter of square k: 'a' for column 0 up to 'h' for column 7. */
  function ColumnChar(k: nat): (c: char)
    ensures 'a' <= c <= 'h'
  {
    ('a' as int + k % 8) as char
  }

  /** The decimal digit of a number below 10, as `operator<<` prints it. */
  function Digit(n: nat): (c: char)
    requires n < 10
    ensures '0' <= c <= '9'
  {
    ('0' as int + n) as char
  }

  /**
   * The column letter and the row digit the renderings use for a found
   * square k: `'a' + k % 8` and `k / 8 + 1`; a square that was not found
   * (k = 64) keeps the initial 'a' and 0.
   */
  function Label(k: nat): (s: seq<char>)
    requires k <= 64
    ensures |s| == 2
  {
    if k < 64 then [ColumnChar(k), Digit(k / 8 + 1)] else ['a', '0']
  }

  /** The separator: 'x' for a capture and '-' otherwise. */
  function Separator(capture: bool): char
  {
    if capture then 'x' else '-'
  }

  /**
   * `moveToString(move, turn, capture)`: White's moves name the lower
   * square first, every other turn names the higher square first, with the
   * separator between them.
   */
  function MoveString(move: Word, turn: nat, capture: bool): (s: seq<char>)
    ensures |s| == 5
  {
    var (first, second) := Squares(move);
    if turn == WhitePawn then Label(first) + [Separator(capture)] + Label(second)
    else Label(second) + [Separator(capture)] + Label(first)
  }

  /** `moveToPlayString(move, turn)`: the same two squares without a separator. */
  function PlayString(move: Word, turn: nat): (s: seq<char>)
    ensures |s| == 4
  {
    var (first, second) := Squares(move);
    if turn == WhitePawn then Label(first) + Label(second) else Label(second) + Label(first)
  }

  /** The play string is the move string with its separator taken out. */
  lemma PlayStringDropsSeparator(move: Word, turn: nat, capture: bool)
    ensures var s := MoveString(move, turn, capture);
            PlayString(move, turn) == s[..2] + s[3..] && s[2] == Separator(capture)
  {
  }

  /** A move from square lo to square hi: of the 64 bits, exactly those two are set. */
  predicate Spans(move: Word, lo: nat, hi: nat)
  {
    lo < hi < 64 && forall k :: 0 <= k < 64 ==> (IsSet(move, k) <==> k == lo || k == hi)
  }

  /** The scans find the two squares of a move that spans them, the lower one first. */
  lemma SpanSquares(move: Word, lo: nat, hi: nat)
    requires Spans(move, lo, hi)
    ensures Squares(move) == (lo, hi)
  {
    var first := FirstFrom(move, 0);
    assert IsSet(move, lo);
    assert first == lo;
    assert IsSet(move, hi);
    assert FirstFrom(move, lo + 1) == hi;
  }

  /** A square's label names it: the letter gives the column and the digit the row. */
  lemma LabelNames(k: nat, k': nat)
    requires k < 64 && k' < 64 && Label(k) == Label(k')
    ensures k == k'
  {
    assert ColumnChar(k) == ColumnChar(k') && Digit(k / 8 + 1) == Digit(k' / 8 + 1);
    assert k % 8 == k' % 8 && k / 8 == k' / 8;
  }

  /** A move from lo to hi renders as the lower square's label, then the higher's, for White, and the other way round otherwise. */
  lemma SpanString(move: Word, lo: nat, hi: nat, turn: nat, capture: bool)
    requires Spans(move, lo, hi)
    ensures turn == WhitePawn ==> MoveString(move, turn, capture) == Label(lo) + [Separator(capture)] + Label(hi)
    ensures turn != WhitePawn ==> MoveString(move, turn, capture) == Label(hi) + [Separator(capture)] + Label(lo)
  {
    SpanSquares(move, lo, hi);
  }

  /**
   * Two moves that each join two squares and render alike for the same
   * turn and capture flag join the same two squares: the rendering loses
   * nothing about such a move.
   */
  lemma MoveStringNamesMove(m: Word, lo: nat, hi: nat, m': Word, lo': nat, hi': nat, turn: nat, capture: bool)
    requires Spans(m, lo, hi) && Spans(m', lo', hi')
    requires MoveString(m, turn, capture) == MoveString(m', turn, capture)
    ensures lo == lo' && hi == hi'
  {
    SpanString(m, lo, hi, turn, capture);
    SpanString(m', lo', hi', turn, capture);
    if turn == WhitePawn {
      SplitRendering(Label(lo), Label(hi), Label(lo'), Label(hi'), Separator(capture));
    } else {
      SplitRendering(Label(hi), Label(lo), Label(hi'), Label(lo'), Separator(capture));
    }
    LabelNames(lo, lo');
    LabelNames(hi, hi');
  }

  /** Two renderings with the same separator agree square by square. */
  lemma SplitRendering(x: seq<char>, y: seq<char>, x': seq<char>, y': seq<char>, sep: char)
    requires |x| == |x'| == 2 && x + [sep] + y == x' + [sep] + y'
    ensures x == x' && y == y'
  {
    assert x == (x + [sep] + y)[..2] && x' == (x' + [sep] + y')[..2];
    assert y == (x + [sep] + y)[3..] && y' == (x' + [sep] + y')[3..];
  }

  // ------------------------------------------------------ the renderers ---

  /** The first loop of the renderers: the lowest set bit, with `temp` shifted down to it. */
  method ScanFirst(move: Word) returns (i: nat, temp: nat)
    ensures i == FirstFrom(move, 0) && temp == Shifted(move, i)
  {
    temp := move;
    i := 0;
    while i < 64
      invariant i <= 64 && temp == Shifted(move, i)
      invariant FirstFrom(move, 0) == FirstFrom(move, i)
    {
      if temp % 2 == 1 {
        return;
      }
      ShiftedStep(move, i);
      temp := temp / 2;
      i := i + 1;
    }
  }

  /** The second loop: from the square after `start`, with `temp` already shifted past `start`. */
  method ScanNext(move: Word, start: nat, temp0: nat) returns (i: nat)
    requires start < 64 && temp0 == Shifted(move, start + 1)
    ensures i == FirstFrom(move, start + 1)
  {
    var temp := temp0;
    i := start + 1;
    while i < 64
      invariant start + 1 <= i <= 64 && temp == Shifted(move, i)
      invariant FirstFrom(move, start + 1) == FirstFrom(move, i)
    {
      if temp % 2 == 1 {
        return;
      }
      ShiftedStep(move, i);
      temp := temp / 2;
      i := i + 1;
    }
  }

  /** The two loops both renderers share. */
  method FindSquares(move: Word) returns (first: nat, second: nat)
    ensures (first, second) == Squares(move)
  {
    var temp;
    first, temp := ScanFirst(move);
    if first < 64 {
      ShiftedStep(move, first);
      second := ScanNext(move, first, temp / 2);
    } else {
      second := 64;
    }
  }

  /** `moveToString(move, turn, capture)`. */
  method MoveToString(move: Word, turn: nat, capture: bool) returns (s: string)
    ensures s == MoveString(move, turn, capture)
  {
    var first, second := FindSquares(move);
    if turn == WhitePawn {
      s := Label(first) + [Separator(capture)] + Label(second);
    } else {
      s := Label(second) + [Separator(capture)] + Label(first);
    }
  }

  /** `moveToPlayString(move, turn)`. */
  method MoveToPlayString(move: Word, turn: nat) returns (s: string)
    ensures s == PlayString(move, turn)
  {
    var first, second := FindSquares(move);
    if turn == WhitePawn {
      s := Label(first) + Label(second);
    } else {
      s := Label(second) + Label(first);
    }
  }

  // ---------------------------------------------------------- bit string ---

  /** The bit string of the first `len` squares, least significant first. */
  function BitString(board: Word, len: nat): (s: seq<char>)
    ensures |s| == len
  {
    seq(len, n requires 0 <= n < len => if IsSet(board, n) then '1' else '0')
  }

  /**
   * `boardToBitString(board)` as written: the loop stops after 63 bits, so
   * square 63, the last of the board, is never shown.
   */
  method BoardToBitString(board: Word) returns (s: string)
    ensures s == BitString(board, 63)
  {
    s := BitLoop(board, 63);
  }

  /** `boardToBitString` as meant: all 64 squares. */
  method FullBitString(board: Word) returns (s: string)
    ensures s == BitString(board, 64)
  {
    s := BitLoop(board, 64);
  }

  /** The loop of `boardToBitString`, run for `len` bits. */
  method BitLoop(board: Word, len: nat) returns (s: string)
    ensures s == BitString(board, len)
  {
    var temp: nat := board;
    s := "";
    var n := 0;
    while n < len
      invariant n <= len && temp == Shifted(board, n)
      invariant s == BitString(board, n)
    {
      s := s + [if temp % 2 == 1 then '1' else '0'];
      ShiftedStep(board, n);
      temp := temp / 2;
      n := n + 1;
    }
  }

  /** Adding 2^k to a word adds 2^(k-n) after n <= k shifts. */
  lemma {:induction false} ShiftedAdd(w: nat, k: nat, n: nat)
    requires n <= k
    ensures Shifted(w + Bitboard.Pow2(k), n) == Shifted(w, n) + Bitboard.Pow2(k - n)
  {
    if n > 0 {
      ShiftedAdd(w, k, n - 1);
      ShiftedStep(w + Bitboard.Pow2(k), n - 1);
      ShiftedStep(w, n - 1);
    }
  }

  /** 2^63 and 2^64 written out. */
  lemma Pow2Of63()
    ensures Bitboard.Pow2(63) == 0x8000_0000_0000_0000
    ensures Bitboard.Pow2(64) == 0x1_0000_0000_0000_0000
  {
    assert Bitboard.Pow2(2) == 4;
    Pow2Add(2, 2);
    assert Bitboard.Pow2(4) == 16;
    Pow2Add(4, 4);
    assert Bitboard.Pow2(8) == 256;
    Pow2Add(8, 8);
    assert Bitboard.Pow2(16) == 0x1_0000;
    Pow2Add(16, 16);
    assert Bitboard.Pow2(32) == 0x1_0000_0000;
    Pow2Add(32, 32);
    assert Bitboard.Pow2(64) == 2 * Bitboard.Pow2(63);
  }

  lemma {:induction false} Pow2Add(a: nat, b: nat)
    ensures Bitboard.Pow2(a + b) == Bitboard.Pow2(a) * Bitboard.Pow2(b)
  {
    if b > 0 {
      Pow2Add(a, b - 1);
    }
  }

  /** A word below 2^k is below 2^(k-n) after n <= k shifts. */
  lemma {:induction false} ShiftedBelow(w: nat, k: nat, n: nat)
    requires w < Bitboard.Pow2(k) && n <= k
    ensures Shifted(w, n) < Bitboard.Pow2(k - n)
  {
    if n > 0 {
      ShiftedBelow(w, k, n - 1);
      ShiftedStep(w, n - 1);
    }
  }

  /**
   * As written, a board with square 63 empty and the same board with
   * square 63 taken print the same string.
   */
  lemma LastSquareHidden(board: Word)
    requires board < 0x8000_0000_0000_0000
    ensures board + 0x8000_0000_0000_0000 < 0x1_0000_0000_0000_0000
    ensures !IsSet(board, 63) && IsSet(board + 0x8000_0000_0000_0000, 63)
    ensures BitString(board, 63) == BitString(board + 0x8000_0000_0000_0000, 63)
  {
    Pow2Of63();
    ShiftedAdd(board, 63, 63);
    ShiftedBelow(board, 63, 63);
    forall n | 0 <= n < 63
      ensures IsSet(board, n) == IsSet(board + 0x8000_0000_0000_0000, n)
    {
      LowBitKept(board, n);
    }
  }

  /** Adding 2^63 leaves every bit below 63 as it was. */
  lemma LowBitKept(board: nat, n: nat)
    requires n < 63 && Bitboard.Pow2(63) == 0x8000_0000_0000_0000
    ensures IsSet(board, n) == IsSet(board + 0x8000_0000_0000_0000, n)
  {
    ShiftedAdd(board, 63, n);
    assert Bitboard.Pow2(63 - n) % 2 == 0;
  }

  /** As meant, the full string gives every bit back: different boards print differently. */
  lemma FullBitStringInjective(board: Word, board': Word)
    requires BitString(board, 64) == BitString(board', 64)
    ensures board == board'
  {
    forall n | 0 <= n < 64
      ensures IsSet(board, n) == IsSet(board', n)
    {
      assert BitString(board, 64)[n] == BitString(board', 64)[n];
    }
    Pow2Of63();
    BitsDetermineWord(board, board', 64);
  }

  /** Two numbers below 2^k with the same k low bits are equal. */
  lemma {:induction false} BitsDetermineWord(w: nat, w': nat, k: nat)
    requires w < Bitboard.Pow2(k) && w' < Bitboard.Pow2(k)
    requires forall n :: 0 <= n < k ==> IsSet(w, n) == IsSet(w', n)
    ensures w == w'
  {
    if k > 0 {
      assert IsSet(w, 0) == IsSet(w', 0);
      forall n | 0 <= n < k - 1
        ensures IsSet(w / 2, n) == IsSet(w' / 2, n)
      {
        assert IsSet(w, n + 1) == IsSet(w', n + 1);
      }
      BitsDetermineWord(w / 2, w' / 2, k - 1);
    }
  }

  // ------------------------------------------------------------ outcome ---

  /** `winner()` on the code `isTerminal` returned: White or Black for a win, nobody otherwise. */
  function Winner(score: nat): (c: Color)
    ensures c == White <==> score == WhiteWins
    ensures c == Black <==> score == BlackWins
  {
    if score == WhiteWins then White else if score == BlackWins then Black else None
  }

  /**
   * `result(c)` on the code `isTerminal` returned: a decided game is 1 for
   * the winner and 0 for the loser, and it is fatal to ask for nobody;
   * anything else is 0.5.
   */
  function Result(score: nat, c: Color): (r: real)
    requires score == WhiteWins || score == BlackWins ==> IsPlayer(c)
    ensures IsPlayer(c) ==> r == Turns.Outcome(Winner(score), c)
    ensures c == None ==> r == 0.5
  {
    if score == BlackWins then (if c == Black then 1.0 else 0.0)
    else if score == WhiteWins then (if c == Black then 0.0 else 1.0)
    else 0.5
  }

  /** `current()`: the colour whose pawn code `turn` holds, nobody for any other code. */
  function Current(turn: nat): (c: Color)
    ensures c == White <==> turn == WhitePawn
    ensures c == Black <==> turn == BlackPawn
  {
    if turn == WhitePawn then White else if turn == BlackPawn then Black else None
  }

  /** `game_over()`: any code other than "not over". */
  predicate GameOver(score: nat)
  {
    score > NotOver
  }

  /** A won game is over, and an unfinished one has no winner. */
  lemma WinnerOnlyWhenOver(score: nat)
    ensures Winner(score) != None ==> GameOver(score)
    ensures !GameOver(score) ==> Winner(score) == None
  {
  }

  /** `BTStateID`: both boards and the turn. */
  datatype StateId = StateId(white: bv64, black: bv64, turn: nat)

  /** `BTState`: the two boards, the turn, and the history of earlier positions. */
  class BTState {
    var whiteboard: bv64
    var blackboard: bv64
    var turn: nat
    var history: seq<StateId>

    constructor (white: bv64, black: bv64, t: nat)
      ensures whiteboard == white && blackboard == black && turn == t && history == []
    {
      whiteboard, blackboard, turn, history := white, black, t, [];
    }

    /** `copy_from(s)`: the boards and the turn of s; the history stays this state's own. */
    method CopyFrom(s: BTState)
      modifies this
      ensures whiteboard == old(s.whiteboard) && blackboard == old(s.blackboard) && turn == old(s.turn)
      ensures history == old(history)
    {
      whiteboard := s.whiteboard;
      blackboard := s.blackboard;
      turn := s.turn;
    }

    /** `set_game_over()`: the turn becomes the draw code, so nobody is to move. */
    method SetGameOver()
      modifies this`turn
      ensures turn == Draw && Current(turn) == None
    {
      turn := Draw;
    }
  }
}
