// Colours of the two players, shared by the whole engine (engine/common.h),
// and the 32-bit integer bounds the search code uses as sentinels.
module Common {

  /** The three colours: no player, the first player and the second player. */
  datatype Color = None | Black | White

  /** INT_MIN and INT_MAX of a 32-bit `int`. */
  const IntMin: int := -0x8000_0000
  const IntMax: int := 0x7FFF_FFFF

  predicate IsPlayer(c: Color) { c != None }

  /** The opponent of a player; `None` has no opponent and stays `None`. */
  function Other(c: Color): (r: Color)
    ensures c == Black <==> r == White
    ensures c == White <==> r == Black
    ensures c == None <==> r == None
  {
    match c
    case Black => White
    case White => Black
    case None => None
  }

  lemma OtherInvolution(c: Color)
    ensures Other(Other(c)) == c
  {
  }

  /** A player's opponent is a player again, and never the player itself. */
  lemma OtherOfPlayer(c: Color)
    requires IsPlayer(c)
    ensures IsPlayer(Other(c)) && Other(c) != c
  {
  }

  /** The lower-case name printed for a colour. */
  function ColorStr(c: Color): (r: string)
    ensures |r| == 4 || |r| == 5
    ensures r[0] == (match c case None => 'n' case Black => 'b' case White => 'w')
  {
    match c
    case None => "none"
    case Black => "black"
    case White => "white"
  }

  /** Different colours get different names, so a name identifies its colour. */
  lemma ColorStrInjective(c: Color, d: Color)
    requires ColorStr(c) == ColorStr(d)
    ensures c == d
  {
    assert ColorStr(c)[0] == ColorStr(d)[0];
  }

  /** Unary minus on a 32-bit `int`: -INT_MIN wraps to INT_MIN. */
  function Neg32(x: int): (r: int)
    requires IntMin <= x <= IntMax
    ensures IntMin <= r <= IntMax
    ensures x != IntMin ==> r == -x
    ensures x == IntMin ==> r == IntMin
  {
    if x == IntMin then IntMin else -x
  }

  /** A value narrowed to a 32-bit `int`: the value modulo 2^32, in the signed range. */
  function Int32(x: int): (r: int)
    ensures IntMin <= r <= IntMax
    ensures (r - x) % 0x1_0000_0000 == 0
    ensures IntMin <= x <= IntMax ==> r == x
  {
    (x - IntMin) % 0x1_0000_0000 + IntMin
  }
}
