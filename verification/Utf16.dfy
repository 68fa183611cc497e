/** Texts as the program sees them, in UTF-16 code units (RFC 2781), and the order in which units compare. */
module Utf16 {

  /** The code units of a character. */
  function CodeUnits(c: char): seq<int> {
    var code := c as int;
    if code < 0x1_0000 then [code]
    else [0xD800 + (code - 0x1_0000) / 0x400, 0xDC00 + (code - 0x1_0000) % 0x400]
  }

  function Units(s: string): seq<int> {
    if s == [] then [] else CodeUnits(s[0]) + Units(s[1..])
  }

  predicate IsHigh(unit: int) {
    0xD800 <= unit < 0xDC00
  }

  predicate IsLow(unit: int) {
    0xDC00 <= unit < 0xE000
  }

  /** The character that a surrogate pair stands for. */
  function PairValue(high: int, low: int): int {
    0x1_0000 + (high - 0xD800) * 0x400 + (low - 0xDC00)
  }

  /** One unit that is no surrogate, or a pair that stands for the character. */
  lemma UnitsOfChar(c: char)
    ensures var u := CodeUnits(c);
      || (u == [c as int] && 0 <= u[0] < 0x1_0000 && !IsHigh(u[0]) && !IsLow(u[0]))
      || (|u| == 2 && IsHigh(u[0]) && IsLow(u[1]) && PairValue(u[0], u[1]) == c as int)
  {
  }

  lemma CharUnitsDetermine(c: char, d: char, x: seq<int>, y: seq<int>)
    requires CodeUnits(c) + x == CodeUnits(d) + y
    ensures c == d && x == y
  {
    var u, w := CodeUnits(c) + x, CodeUnits(d) + y;
    UnitsOfChar(c);
    UnitsOfChar(d);
    assert u[0] == CodeUnits(c)[0] && w[0] == CodeUnits(d)[0];
    if |CodeUnits(c)| == 2 { assert u[1] == CodeUnits(c)[1] && w[1] == CodeUnits(d)[1]; }
    assert x == u[|CodeUnits(c)|..] && y == w[|CodeUnits(d)|..];
  }

  /** Different texts have different code units. */
  lemma {:induction false} UnitsDetermine(s: string, t: string)
    ensures Units(s) == Units(t) <==> s == t
  {
    if s != [] && t != [] && Units(s) == Units(t) {
      CharUnitsDetermine(s[0], t[0], Units(s[1..]), Units(t[1..]));
      UnitsDetermine(s[1..], t[1..]);
      assert s == [s[0]] + s[1..] && t == [t[0]] + t[1..];
    }
  }

  /** A proper prefix, or the smaller unit at the first place where they differ. */
  ghost predicate Before(x: seq<int>, y: seq<int>) {
    || (|x| < |y| && SameUpTo(x, y, |x|))
    || (exists k :: FirstDifference(x, y, k) && x[k] < y[k])
  }

  ghost predicate SameUpTo(x: seq<int>, y: seq<int>, k: int)
    requires k <= |x| && k <= |y|
  {
    forall i | 0 <= i < k :: x[i] == y[i]
  }

  ghost predicate FirstDifference(x: seq<int>, y: seq<int>, k: int) {
    0 <= k < |x| && k < |y| && SameUpTo(x, y, k) && x[k] != y[k]
  }

  lemma BeforeAtDifference(x: seq<int>, y: seq<int>, k: nat)
    requires FirstDifference(x, y, k)
    ensures Before(x, y) <==> x[k] < y[k]
  {
  }

  lemma BeforeAfterPrefix(p: seq<int>, x: seq<int>, y: seq<int>)
    ensures Before(p + x, p + y) <==> Before(x, y)
  {
    var u, w := p + x, p + y;
    assert forall i | 0 <= i < |x| :: u[|p| + i] == x[i];
    assert forall i | 0 <= i < |y| :: w[|p| + i] == y[i];
    if k :| FirstDifference(x, y, k) && x[k] < y[k] { assert FirstDifference(u, w, |p| + k); }
    if k :| FirstDifference(u, w, k) && u[k] < w[k] { assert FirstDifference(x, y, k - |p|); }
  }
}
