/** Java's 32-bit `int` and its decimal rendering, which the services use
    when they build error messages (`"..." + productId` and `%d`). */
module Text {

  const MinInt32: int := -0x8000_0000
  const MaxInt32: int := 0x7fff_ffff

  /** The values of a Java `int`. */
  type Int32 = x: int | MinInt32 <= x <= MaxInt32

  /** The decimal digit character for `d`. */
  function Digit(d: nat): (c: char)
    requires d < 10
    ensures '0' <= c <= '9'
    ensures c as int - '0' as int == d
  {
    "0123456789"[d]
  }

  predicate IsDigits(s: string) {
    forall i :: 0 <= i < |s| ==> '0' <= s[i] <= '9'
  }

  /** The number a string of decimal digits denotes, most significant first. */
  function DigitsValue(s: string): (n: nat)
    requires IsDigits(s)
  {
    if |s| == 0 then 0 else DigitsValue(s[..|s| - 1]) * 10 + (s[|s| - 1] as int - '0' as int)
  }

  /** A rendering `IntToString` can produce: digits, after an optional minus. */
  predicate IsDecimal(s: string) {
    |s| > 0 && (if s[0] == '-' then IsDigits(s[1..]) else IsDigits(s))
  }

  /** The number a decimal rendering denotes. */
  function DecimalValue(s: string): int
    requires IsDecimal(s)
  {
    if s[0] == '-' then 0 - DigitsValue(s[1..]) else DigitsValue(s) as int
  }

  /** The decimal digits of `n`, most significant first, without leading zeros. */
  function NatToString(n: nat): (s: string)
    ensures |s| > 0 && IsDigits(s)
    ensures n > 0 ==> s[0] != '0'
    ensures DigitsValue(s) == n
    decreases n
  {
    if n < 10 then
      assert [Digit(n)][..0] == [];
      [Digit(n)]
    else
      var high := NatToString(n / 10);
      assert (high + [Digit(n % 10)])[..|high|] == high;
      high + [Digit(n % 10)]
  }

  /** `Integer.toString(i)`: an optional minus sign, then the digits of `|i|`.
      The rendering denotes `i` again, and holds no character but the sign and
      digits. */
  function IntToString(i: int): (s: string)
    ensures |s| > 0
    ensures s[0] == '-' <==> i < 0
    ensures i >= 0 ==> IsDigits(s)
    ensures IsDecimal(s) && DecimalValue(s) == i
    ensures forall k :: 0 <= k < |s| ==> s[k] == '-' || '0' <= s[k] <= '9'
  {
    if i < 0 then
      var digits := NatToString(-i);
      assert ("-" + digits)[1..] == digits;
      "-" + digits
    else NatToString(i)
  }

  /** Different numbers render differently. */
  lemma IntToStringInjective(i: int, j: int)
    requires IntToString(i) == IntToString(j)
    ensures i == j
  {
  }

  /** A pair of numbers rendered as `"(%d, %d)"`. */
  function Pair(x: int, y: int): (s: string)
    ensures |s| > 0 && s[0] == '(' && s[|s| - 1] == ')'
  {
    "(" + (IntToString(x) + ", " + IntToString(y)) + ")"
  }

  /** Two strings joined by `", "`, where the left part holds no comma,
      split back at one place only. */
  lemma SplitAtSeparator(a1: string, b1: string, a2: string, b2: string)
    requires forall k :: 0 <= k < |a1| ==> a1[k] != ','
    requires forall k :: 0 <= k < |a2| ==> a2[k] != ','
    requires a1 + ", " + b1 == a2 + ", " + b2
    ensures a1 == a2 && b1 == b2
  {
    var u := a1 + ", " + b1;
    var v := a2 + ", " + b2;
    assert u[|a1|] == ',' && v[|a2|] == ',';
    assert |a1| == |a2|;
    assert a1 == u[..|a1|] && a2 == v[..|a2|];
    assert b1 == u[|a1| + 2..] && b2 == v[|a2| + 2..];
  }

  /** Text between a matching pair of parentheses. */
  lemma Unparenthesise(u1: string, u2: string)
    requires "(" + u1 + ")" == "(" + u2 + ")"
    ensures u1 == u2
  {
    assert ("(" + u1 + ")")[1..|u1| + 1] == u1;
    assert ("(" + u2 + ")")[1..|u2| + 1] == u2;
  }

  /** The rendered pair determines both numbers: the first number's rendering
      holds no comma, so the separator is found at one place only. */
  lemma {:induction false} PairInjective(x1: int, y1: int, x2: int, y2: int)
    requires Pair(x1, y1) == Pair(x2, y2)
    ensures x1 == x2 && y1 == y2
  {
    var a1, b1, a2, b2 := IntToString(x1), IntToString(y1), IntToString(x2), IntToString(y2);
    Unparenthesise(a1 + ", " + b1, a2 + ", " + b2);
    SplitAtSeparator(a1, b1, a2, b2);
    IntToStringInjective(x1, x2);
    IntToStringInjective(y1, y2);
  }
}
