// The C library text conversions the games' move parsers rely on: `atoi`,
// and the narrowing of an `int` into a `uint8_t` coordinate.
module Text {

  datatype Option<T> = Nothing | Some(value: T)

  predicate IsDigit(ch: char) { '0' <= ch <= '9' }

  function DigitValue(ch: char): (d: nat)
    requires IsDigit(ch)
    ensures d < 10
  {
    (ch - '0') as nat
  }

  /** The value of the digits at the front of s, read after `acc`. */
  function Digits(s: string, acc: nat): nat
    decreases |s|
  {
    if |s| == 0 || !IsDigit(s[0]) then acc
    else Digits(s[1..], acc * 10 + DigitValue(s[0]))
  }

  predicate IsSpace(ch: char) { ch == ' ' || ch == '\t' || ch == '\n' || ch == '\r' }

  function SkipSpace(s: string): (r: string)
    ensures |r| <= |s| && (|r| > 0 ==> !IsSpace(r[0]))
    decreases |s|
  {
    if |s| > 0 && IsSpace(s[0]) then SkipSpace(s[1..]) else s
  }

  /**
   * `atoi(s)`: leading blanks, an optional sign, then as many decimal digits
   * as there are; anything else ends the number, and no digits at all give 0.
   * The C function's behaviour on overflow is undefined; here it is unbounded.
   */
  function Atoi(s: string): int
  {
    var t := SkipSpace(s);
    if |t| > 0 && t[0] == '-' then -(Digits(t[1..], 0) as int)
    else if |t| > 0 && t[0] == '+' then Digits(t[1..], 0)
    else Digits(t, 0)
  }

  /** The conversion of an `int` to `uint8_t`: the value modulo 256. */
  function Byte(v: int): (r: nat)
    ensures r < 256 && (r - v) % 256 == 0
  {
    v % 256
  }

  /** A value that fits in a byte is left alone. */
  lemma ByteOfSmall(v: int)
    requires 0 <= v < 256
    ensures Byte(v) == v
  {
  }

  /** The decimal digits of v, most significant first, with no leading zero. */
  function Decimal(v: nat): (r: string)
    ensures |r| >= 1 && forall i :: 0 <= i < |r| ==> IsDigit(r[i])
    decreases v
  {
    if v < 10 then [('0' as int + v) as char]
    else Decimal(v / 10) + [('0' as int + v % 10) as char]
  }

  /** Reading digits goes on through a concatenation. */
  lemma {:induction false} DigitsAppend(s: string, t: string, acc: nat)
    requires forall i :: 0 <= i < |s| ==> IsDigit(s[i])
    ensures Digits(s + t, acc) == Digits(t, Digits(s, acc))
    decreases |s|
  {
    if |s| == 0 {
      assert s + t == t;
    } else {
      assert (s + t)[1..] == s[1..] + t;
      DigitsAppend(s[1..], t, acc * 10 + DigitValue(s[0]));
    }
  }

  /** The digits of v read back as v. */
  lemma {:induction false} DigitsOfDecimal(v: nat)
    ensures Digits(Decimal(v), 0) == v
    decreases v
  {
    var d := ('0' as int + v % 10) as char;
    assert DigitValue(d) == v % 10;
    if v < 10 {
      assert Digits([d], 0) == Digits([], v);
    } else {
      DigitsAppend(Decimal(v / 10), [d], 0);
      DigitsOfDecimal(v / 10);
      assert Digits([d], v / 10) == Digits([], v / 10 * 10 + v % 10);
    }
  }

  /** `atoi` reads back what `Decimal` writes. */
  lemma AtoiDecimal(v: nat)
    ensures Atoi(Decimal(v)) == v
  {
    DigitsOfDecimal(v);
    assert SkipSpace(Decimal(v)) == Decimal(v);
  }

  /** A text with no digit at its front reads as 0. */
  lemma AtoiNoDigits(s: string)
    requires |s| > 0 && !IsDigit(s[0]) && !IsSpace(s[0]) && s[0] != '-' && s[0] != '+'
    ensures Atoi(s) == 0
  {
  }
}
