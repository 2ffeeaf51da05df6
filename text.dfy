/** Decimal rendering of integers as Python's `str()` and `f"{n:02d}"` write
    them, and the truncating and rounding conversions from reals. */
module Text {

  predicate IsDigit(c: char) {
    '0' <= c <= '9'
  }

  function DigitChar(d: int): (c: char)
    requires 0 <= d < 10
    ensures IsDigit(c) && c as int - '0' as int == d
  {
    (d + '0' as int) as char
  }

  /** `str(n)` for n >= 0: the shortest decimal numeral, no leading zero. */
  function NatToString(n: nat): (s: string)
    ensures 1 <= |s|
    ensures AllDigits(s)
    ensures |s| > 1 ==> s[0] != '0'
    decreases n
  {
    if n < 10 then [DigitChar(n)] else NatToString(n / 10) + [DigitChar(n % 10)]
  }

  function DigitValue(c: char): nat
    requires IsDigit(c)
  {
    c as int - '0' as int
  }

  predicate AllDigits(s: string) {
    forall i :: 0 <= i < |s| ==> IsDigit(s[i])
  }

  /** The value of a numeral: the inverse of NatToString. */
  function ParseNat(s: string): nat
    requires AllDigits(s)
  {
    if s == [] then 0
    else ParseNat(s[..|s| - 1]) * 10 + DigitValue(s[|s| - 1])
  }

  /** Reading back a rendered natural number gives the number. */
  lemma {:induction false} ParseNatToString(n: nat)
    ensures ParseNat(NatToString(n)) == n
    decreases n
  {
    var s := NatToString(n);
    if n >= 10 {
      ParseNatToString(n / 10);
      assert s[..|s| - 1] == NatToString(n / 10);
    }
  }

  /** NatToString is one-to-one: distinct numbers are printed differently. */
  lemma NatToStringInjective(m: nat, n: nat)
    requires NatToString(m) == NatToString(n)
    ensures m == n
  {
    ParseNatToString(m);
    ParseNatToString(n);
  }

  /** `str(i)` for any integer. */
  function IntToString(i: int): (s: string)
    ensures 1 <= |s|
    ensures i < 0 <==> s[0] == '-'
  {
    if i < 0 then "-" + NatToString(-i) else NatToString(i)
  }

  /** `f"{i:02d}"`: zero-padded to two characters; a sign counts towards
      the width, so -5 stays "-5". */
  function Pad2(i: int): (s: string)
    ensures 2 <= |s|
    ensures 0 <= i < 100 ==> |s| == 2 && AllDigits(s) && ParseNat(s) == i
  {
    if 0 <= i < 10 then
      ParseNatToString(i);
      "0" + NatToString(i)
    else
      if 0 <= i then ParseNatToString(i); IntToString(i) else IntToString(i)
  }

  /** Python's `int(x)` on a float: truncation toward zero. */
  function Trunc(x: real): (n: int)
    ensures 0.0 <= x ==> n as real <= x < n as real + 1.0
    ensures x < 0.0 ==> n as real - 1.0 < x <= n as real
  {
    if x >= 0.0 then x.Floor else -((-x).Floor)
  }

  /** Python's `round(x)`: the nearest integer, a tie going to the even
      neighbour. */
  function RoundHalfEven(x: real): (n: int)
    ensures x - 0.5 <= n as real <= x + 0.5
    ensures x - 0.5 < n as real < x + 0.5 || n % 2 == 0
  {
    var f := x.Floor;
    var r := x - f as real;
    if r < 0.5 then f
    else if r > 0.5 then f + 1
    else if f % 2 == 0 then f
    else f + 1
  }

  /** Adding an even integer commutes with rounding: the tie rule looks only
      at parity. */
  lemma RoundHalfEvenShift(k: int, x: real)
    requires k % 2 == 0
    ensures RoundHalfEven(k as real + x) == k + RoundHalfEven(x)
  {
    assert (k as real + x).Floor == k + x.Floor;
  }

  /** Python's `round(x, 1)`, on exact values: the nearest tenth, a tie
      going to the even number of tenths. */
  function Round1(x: real): (r: real)
    ensures x - 0.05 <= r <= x + 0.05
    ensures r * 10.0 == RoundHalfEven(x * 10.0) as real
  {
    RoundHalfEven(x * 10.0) as real / 10.0
  }

  /** A number rounds to at least `k` tenths exactly when it is at least
      half a tenth below `k` tenths, for an even `k`: the tie goes up. */
  lemma Round1AtLeast(x: real, k: int)
    requires k % 2 == 0
    ensures Round1(x) * 10.0 >= k as real <==> x * 10.0 >= k as real - 0.5
  {
    RoundHalfEvenAtLeast(x * 10.0, k);
  }

  /** Rounding reaches an even `k` exactly from half below it, the tie at
      `k - 0.5` going to `k`. */
  lemma RoundHalfEvenAtLeast(y: real, k: int)
    requires k % 2 == 0
    ensures RoundHalfEven(y) >= k <==> y >= k as real - 0.5
  {
    var n := RoundHalfEven(y);
    if y > k as real - 0.5 {
      assert n as real > (k - 1) as real;
    } else if y == k as real - 0.5 {
      assert k - 1 <= n <= k;
      assert n % 2 == 0;
      assert n == k;
    } else {
      assert n as real < k as real;
    }
  }
}
