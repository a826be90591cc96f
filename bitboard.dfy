// 64-bit sets of board squares (engine/bitboard.h): single-bit updates and
// queries, the 7x7 board inside an 8x8 layout, and the bit-counting helpers.
module Bitboard {

  /** A bit position of a 64-bit word. */
  type BitIndex = i: bv8 | i < 64

  /** Bit `i` of `b`, as 0 or 1: `iis_set(i)`. */
  function Bit(b: bv64, i: BitIndex): (r: nat)
    ensures r <= 1
  {
    if (b >> i) & 1 == 1 then 1 else 0
  }

  /** `b` with bit i set: `data |= 1ULL << i`. */
  function SetBit(b: bv64, i: BitIndex): bv64
  {
    b | (1 << i)
  }

  /** `b` with bit i cleared: `data &= ~(1ULL << i)`. */
  function ClearBit(b: bv64, i: BitIndex): bv64
  {
    b & !(1 << i)
  }

  /** Setting bit i makes it 1 and leaves every other bit alone. */
  lemma SetBitSpec(b: bv64, i: BitIndex)
    ensures Bit(SetBit(b, i), i) == 1
    ensures forall j: BitIndex :: j != i ==> Bit(SetBit(b, i), j) == Bit(b, j)
  {
    forall j: BitIndex | j != i
      ensures Bit(SetBit(b, i), j) == Bit(b, j)
    {
      SetBitOther(b, i, j);
    }
  }

  lemma SetBitOther(b: bv64, i: BitIndex, j: BitIndex)
    requires j != i
    ensures Bit(SetBit(b, i), j) == Bit(b, j)
  {
  }

  /** Clearing bit i makes it 0 and leaves every other bit alone. */
  lemma ClearBitSpec(b: bv64, i: BitIndex)
    ensures Bit(ClearBit(b, i), i) == 0
    ensures forall j: BitIndex :: j != i ==> Bit(ClearBit(b, i), j) == Bit(b, j)
  {
    forall j: BitIndex | j != i
      ensures Bit(ClearBit(b, i), j) == Bit(b, j)
    {
      ClearBitOther(b, i, j);
    }
  }

  lemma ClearBitOther(b: bv64, i: BitIndex, j: BitIndex)
    requires j != i
    ensures Bit(ClearBit(b, i), j) == Bit(b, j)
  {
  }

  /** Bit j after setting bit i. */
  lemma SetBitAt(b: bv64, i: BitIndex, j: BitIndex)
    ensures Bit(SetBit(b, i), j) == if j == i then 1 else Bit(b, j)
  {
    if j == i {
      SetBitSpec(b, i);
    } else {
      SetBitOther(b, i, j);
    }
  }

  /** Bit j after clearing bit i. */
  lemma ClearBitAt(b: bv64, i: BitIndex, j: BitIndex)
    ensures Bit(ClearBit(b, i), j) == if j == i then 0 else Bit(b, j)
  {
    if j == i {
      ClearBitSpec(b, i);
    } else {
      ClearBitOther(b, i, j);
    }
  }

  /** Bit j of a conjunction, a disjunction and a complement. */
  lemma AndBit(b: bv64, c: bv64, j: BitIndex)
    ensures Bit(b & c, j) == 1 <==> Bit(b, j) == 1 && Bit(c, j) == 1
  {
  }

  lemma OrBit(b: bv64, c: bv64, j: BitIndex)
    ensures Bit(b | c, j) == 1 <==> Bit(b, j) == 1 || Bit(c, j) == 1
  {
  }

  lemma NotBit(b: bv64, j: BitIndex)
    ensures Bit(!b, j) == 1 <==> Bit(b, j) == 0
  {
  }

  lemma AndNotBit(b: bv64, c: bv64, j: BitIndex)
    ensures Bit(b & !c, j) == 1 <==> Bit(b, j) == 1 && Bit(c, j) == 0
  {
  }

  /** `invert` flips every bit, so doing it twice changes nothing. */
  lemma InvertSpec(b: bv64)
    ensures forall j: BitIndex :: Bit(!b, j) == 1 - Bit(b, j)
    ensures !!b == b
  {
  }

  /** `index(x, y) = x + (y << 3)`: rows of 8 squares. */
  function Index(x: int, y: int): (r: int)
    ensures 0 <= x < 8 ==> r % 8 == x && r / 8 == y
  {
    x + y * 8
  }

  /** `valid(x, y)`: the 7x7 board of the 8x8 layout. */
  predicate OnBoard(x: int, y: int)
  {
    0 <= x < 7 && 0 <= y < 7
  }

  /** Column 7 and row 7: the bits outside the 7x7 board (`INVALID` in Congo). */
  const OffBoard: bv64 := 0xFF80_8080_8080_8080

  /** A column or row number below 8, as three bits of a bit position. */
  function Coord(x: int): (c: bv8)
    requires 0 <= x < 8
    ensures c < 8
  {
    if x == 0 then 0 else if x == 1 then 1 else if x == 2 then 2 else if x == 3 then 3
    else if x == 4 then 4 else if x == 5 then 5 else if x == 6 then 6 else 7
  }

  /** `index(x, y)` as a bit position: column x, row y. */
  function Square(x: int, y: int): (i: BitIndex)
    requires 0 <= x < 8 && 0 <= y < 8
  {
    Coord(x) + 8 * Coord(y)
  }

  /** Different squares of the layout have different bits. */
  lemma SquaresDiffer(x: int, y: int, x': int, y': int)
    requires 0 <= x < 8 && 0 <= y < 8 && 0 <= x' < 8 && 0 <= y' < 8 && (x, y) != (x', y')
    ensures Square(x, y) != Square(x', y')
  {
  }

  /** Three bits of a bit position, as a column or row number. */
  function Uncoord(c: bv8): (n: int)
    requires c < 8
    ensures 0 <= n < 8
  {
    if c == 0 then 0 else if c == 1 then 1 else if c == 2 then 2 else if c == 3 then 3
    else if c == 4 then 4 else if c == 5 then 5 else if c == 6 then 6 else 7
  }

  /** A bit position as the number of its square, to index the arrays kept per square. */
  function Number(i: BitIndex): (n: int)
    ensures 0 <= n < 64
    ensures i < 55 <==> n < 55
  {
    Uncoord(i & 7) + 8 * Uncoord(i >> 3)
  }

  /** Different bit positions are different square numbers. */
  lemma NumberInjective(i: BitIndex, j: BitIndex)
    requires Number(i) == Number(j)
    ensures i == j
  {
    assert Uncoord(i & 7) == Uncoord(j & 7) && Uncoord(i >> 3) == Uncoord(j >> 3);
  }

  /** Different bit positions have different square numbers. */
  lemma NumberDiffer(i: BitIndex, j: BitIndex)
    requires i != j
    ensures Number(i) != Number(j)
  {
    if Number(i) == Number(j) {
      NumberInjective(i, j);
    }
  }

  /** The bit position of square (x, y) has the number `index(x, y)`. */
  lemma NumberSquare(x: int, y: int)
    requires 0 <= x < 8 && 0 <= y < 8
    ensures Number(Square(x, y)) == Index(x, y)
  {
    assert Square(x, y) & 7 == Coord(x) && Square(x, y) >> 3 == Coord(y);
  }

  /** The bit of square number n, the inverse of `Number`. */
  function BitOf(n: int): (i: BitIndex)
    requires 0 <= n < 64
    ensures Number(i) == n
  {
    NumberSquare(n % 8, n / 8);
    Square(n % 8, n / 8)
  }

  /** Bits and square numbers are in one-to-one correspondence. */
  lemma BitOfNumber(i: BitIndex)
    ensures BitOf(Number(i)) == i
  {
    NumberInjective(BitOf(Number(i)), i);
  }

  /** `OffBoard` holds exactly the squares in column 7 or in row 7. */
  lemma OffBoardSquares(x: int, y: int)
    requires 0 <= x < 8 && 0 <= y < 8
    ensures Bit(OffBoard, Square(x, y)) == 1 <==> x == 7 || y == 7
  {
  }

  /** `bitfield<uint64_t>` with the square accessors of `bitboard`. */
  class Bits {
    var data: bv64

    /** `bitfield(T n)`; the default constructor is `Bits(0)`. */
    constructor (n: bv64)
      ensures data == n
    {
      data := n;
    }

    /** `iis_set(i)`. */
    function IsSet(i: BitIndex): nat
      reads this
    {
      Bit(data, i)
    }

    /** `iset(i)`. */
    method ISet(i: BitIndex)
      modifies this
      ensures data == SetBit(old(data), i)
    {
      data := data | (1 << i);
    }

    /** `iclear(i)`. */
    method IClear(i: BitIndex)
      modifies this
      ensures data == ClearBit(old(data), i)
    {
      data := data & !(1 << i);
    }

    /** `invert`: exclusive or with all ones. */
    method Invert()
      modifies this
      ensures data == !old(data)
    {
      data := data ^ 0xFFFF_FFFF_FFFF_FFFF;
    }

    /** `set(x, y)`. */
    method Set(x: int, y: int)
      requires 0 <= Index(x, y) < 64
      modifies this
      ensures data == SetBit(old(data), Index(x, y) as BitIndex)
    {
      ISet(Index(x, y) as BitIndex);
    }

    /** `clear(x, y)`. */
    method Clear(x: int, y: int)
      requires 0 <= Index(x, y) < 64
      modifies this
      ensures data == ClearBit(old(data), Index(x, y) as BitIndex)
    {
      IClear(Index(x, y) as BitIndex);
    }

    /** `try_set(x, y)`: sets the square only when it is on the 7x7 board. */
    method TrySet(x: int, y: int)
      modifies this
      ensures OnBoard(x, y) ==> data == SetBit(old(data), Square(x, y))
      ensures !OnBoard(x, y) ==> data == old(data)
      ensures data & OffBoard == old(data) & OffBoard
    {
      if OnBoard(x, y) {
        ISet(Square(x, y));
        TrySetStaysOnBoard(old(data), x, y);
      }
    }

    /**
     * `bin_str`: one '0' or '1' per bit, from bit 63 down to bit 0.
     */
    method BinStr() returns (s: string)
      ensures |s| == 64
      ensures forall k :: 0 <= k < 64 ==> s[k] == BitChar(data, (63 - k) as BitIndex)
    {
      s := "";
      var i := 63;
      while i >= 0
        invariant -1 <= i <= 63 && |s| == 63 - i
        invariant forall k :: 0 <= k < |s| ==> s[k] == BitChar(data, (63 - k) as BitIndex)
      {
        s := s + [BitChar(data, i as BitIndex)];
        i := i - 1;
      }
    }
  }

  /** The digit that `bin_str` writes for bit i. */
  function BitChar(b: bv64, i: BitIndex): (c: char)
    ensures c == '1' <==> Bit(b, i) == 1
    ensures c == '0' || c == '1'
  {
    if Bit(b, i) == 1 then '1' else '0'
  }

  /** Setting an on-board square leaves every bit of `OffBoard` as it was. */
  lemma TrySetStaysOnBoard(b: bv64, x: int, y: int)
    requires OnBoard(x, y)
    ensures SetBit(b, Square(x, y)) & OffBoard == b & OffBoard
  {
    var i := Square(x, y);
    OffBoardSquares(x, y);
    assert Bit(OffBoard, i) == 0;
    assert (1 << i) & OffBoard == 0;
  }

  // ------------------------------------------------------------ counting ---

  function Pow2(k: nat): (r: nat)
    ensures r >= 1
  {
    if k == 0 then 1 else 2 * Pow2(k - 1)
  }

  /** `Log2<I>::result`: one more for every halving until 1 is reached. */
  function Log2(i: nat): nat
    requires i >= 1
  {
    if i == 1 then 0 else 1 + Log2(i / 2)
  }

  /** `Log2<I>::result` is the floor of the base-2 logarithm. */
  lemma {:induction false} Log2IsFloor(i: nat)
    requires i >= 1
    ensures Pow2(Log2(i)) <= i < Pow2(Log2(i) + 1)
  {
    if i > 1 {
      Log2IsFloor(i / 2);
    }
  }

  /** No bit above k is set. */
  predicate ClearAbove(x: bv64, k: BitIndex)
  {
    x >> (k + 1) == 0
  }

  /** No bit below k is set. */
  predicate ClearBelow(x: bv64, k: BitIndex)
  {
    x & ((1 << k) - 1) == 0
  }

  lemma ClearAboveSpec(x: bv64, k: BitIndex)
    requires ClearAbove(x, k)
    ensures forall j: BitIndex :: k < j ==> Bit(x, j) == 0
  {
  }

  lemma ClearBelowSpec(x: bv64, k: BitIndex)
    requires ClearBelow(x, k)
    ensures forall j: BitIndex :: j < k ==> Bit(x, j) == 0
  {
  }

  lemma AboveStep(x: bv64, k: BitIndex)
    requires 0 < k && ClearAbove(x, k) && Bit(x, k) == 0
    ensures ClearAbove(x, k - 1)
  {
  }

  lemma BelowStep(x: bv64, k: BitIndex)
    requires k < 63 && ClearBelow(x, k) && Bit(x, k) == 0
    ensures ClearBelow(x, k + 1)
  {
  }

  /** The last bit left to look at in a non-zero word is set. */
  lemma LastAbove(x: bv64)
    requires x != 0 && ClearAbove(x, 0)
    ensures Bit(x, 0) == 1
  {
  }

  lemma LastBelow(x: bv64)
    requires x != 0 && ClearBelow(x, 63)
    ensures Bit(x, 63) == 1
  {
  }

  /** The index of the highest set bit of a non-zero word: what `bsrq` computes. */
  function HighestBit(x: bv64): (r: BitIndex)
    requires x != 0
    ensures HighestAt(x, r)
  {
    HighestFrom(x, 63)
  }

  /** Bit r is set and no higher one is. */
  predicate HighestAt(x: bv64, r: BitIndex)
  {
    Bit(x, r) == 1 && ClearAbove(x, r)
  }

  /** Bit r is set and no lower one is. */
  predicate LowestAt(x: bv64, r: BitIndex)
  {
    Bit(x, r) == 1 && ClearBelow(x, r)
  }

  function HighestFrom(x: bv64, k: BitIndex): (r: BitIndex)
    requires x != 0 && ClearAbove(x, k)
    ensures HighestAt(x, r)
    decreases k
  {
    if k == 0 then LastAbove(x); 0
    else if Bit(x, k) == 1 then k
    else AboveStep(x, k); HighestFrom(x, k - 1)
  }

  /** The index of the lowest set bit of a non-zero word: what `__builtin_ctzl` computes. */
  function LowestBit(x: bv64): (r: BitIndex)
    requires x != 0
    ensures LowestAt(x, r)
  {
    LowestFrom(x, 0)
  }

  function LowestFrom(x: bv64, k: BitIndex): (r: BitIndex)
    requires x != 0 && ClearBelow(x, k)
    ensures LowestAt(x, r)
    decreases 63 - k
  {
    if k == 63 then LastBelow(x); 63
    else if Bit(x, k) == 1 then k
    else BelowStep(x, k); LowestFrom(x, k + 1)
  }

  /**
   * `log2` is commented as the least significant bit index but computes the
   * most significant one; on a single-bit word, the only kind its callers
   * pass, the two agree.
   */
  lemma HighestIsLowestOnSingleBit(k: BitIndex)
    ensures HighestBit(1 << k) == k && LowestBit(1 << k) == k
  {
    SingleHighest(k, HighestBit(1 << k));
    SingleLowest(k, LowestBit(1 << k));
  }

  lemma SingleHighest(k: BitIndex, r: BitIndex)
    requires HighestAt(1 << k, r)
    ensures r == k
  {
  }

  lemma SingleLowest(k: BitIndex, r: BitIndex)
    requires LowestAt(1 << k, r)
    ensures r == k
  {
  }

  /** `n & (~n + 1)`: the lowest set bit of a non-zero word, on its own. */
  lemma IsolateLowest(n: bv64)
    requires n != 0
    ensures n & (!n + 1) == 1 << LowestBit(n)
  {
    IsolateAt(n, LowestBit(n));
  }

  lemma IsolateAt(n: bv64, r: BitIndex)
    requires LowestAt(n, r)
    ensures n & (!n + 1) == 1 << r
  {
  }

  /** `popcount`: the number of set bits. */
  function Popcount(x: bv64): (r: nat)
    ensures r <= 64
  {
    CountFrom(x, 0)
  }

  /** The number of set bits at positions k and above. */
  function CountFrom(x: bv64, k: bv8): (r: nat)
    requires k <= 64
    ensures r <= 64 - k as int
    decreases 64 - k
  {
    if k == 64 then 0 else Bit(x, k) + CountFrom(x, k + 1)
  }

  /** Clearing bit i leaves the count of the bits above it alone. */
  lemma {:induction false} CountClearAbove(x: bv64, i: BitIndex, k: bv8)
    requires i < k <= 64
    ensures CountFrom(ClearBit(x, i), k) == CountFrom(x, k)
    decreases 64 - k
  {
    if k < 64 {
      CountClearAbove(x, i, k + 1);
      ClearBitOther(x, i, k);
    }
  }

  /** Clearing a set bit i lowers the count from any k <= i by exactly one. */
  lemma {:induction false} CountClearBelow(x: bv64, i: BitIndex, k: bv8)
    requires k <= i && Bit(x, i) == 1
    ensures CountFrom(ClearBit(x, i), k) + 1 == CountFrom(x, k)
    decreases 64 - k
  {
    if k == i {
      ClearBitSpec(x, i);
      CountClearAbove(x, i, k + 1);
    } else {
      CountClearBelow(x, i, k + 1);
      ClearBitOther(x, i, k);
    }
  }

  lemma PopcountClear(x: bv64, i: BitIndex)
    requires Bit(x, i) == 1
    ensures Popcount(ClearBit(x, i)) == Popcount(x) - 1
  {
    CountClearBelow(x, i, 0);
  }
}
