/** The few C conventions that the modelled programs depend on: strcmp ordering, integer
    division that truncates toward zero, and the truncating conversion of a double. */
module CLib {

  /** The sign of strcmp(a, b). */
  function StrCmp(a: string, b: string): (r: int)
    ensures -1 <= r <= 1
    ensures r == 0 <==> a == b
  {
    if a == [] then (if b == [] then 0 else -1)
    else if b == [] then 1
    else if a[0] < b[0] then -1
    else if a[0] > b[0] then 1
    else
      assert a == [a[0]] + a[1..] && b == [b[0]] + b[1..];
      StrCmp(a[1..], b[1..])
  }

  /** The first place where two strings differ decides, and a string comes before those that it begins. */
  lemma {:induction false} FirstDifferenceDecides(p: string, c: char, x: string, d: char, y: string)
    ensures c < d ==> StrCmp(p + ([c] + x), p + ([d] + y)) == -1
    ensures StrCmp(p, p + ([d] + y)) == -1
  {
    if p == [] {
      assert p + ([c] + x) == [c] + x && p + ([d] + y) == [d] + y;
    } else {
      FirstDifferenceDecides(p[1..], c, x, d, y);
      assert (p + ([c] + x))[1..] == p[1..] + ([c] + x) && (p + ([d] + y))[1..] == p[1..] + ([d] + y);
    }
  }

  lemma {:induction false} StrCmpAntisymmetric(a: string, b: string)
    ensures StrCmp(a, b) == -StrCmp(b, a)
  {
    if a != [] && b != [] && a[0] == b[0] {
      StrCmpAntisymmetric(a[1..], b[1..]);
    }
  }

  lemma {:induction false} StrCmpTransitive(a: string, b: string, c: string)
    requires StrCmp(a, b) <= 0 && StrCmp(b, c) <= 0
    ensures StrCmp(a, c) <= 0
    ensures StrCmp(a, b) < 0 || StrCmp(b, c) < 0 ==> StrCmp(a, c) < 0
  {
    if a != [] && b != [] && c != [] && a[0] == b[0] == c[0] {
      StrCmpTransitive(a[1..], b[1..], c[1..]);
    }
  }

  /** C's a / b on ints. */
  function CDiv(a: int, b: int): int
    requires b != 0
  {
    if a >= 0 then a / b else -((-a) / b)
  }

  /** C's (int) x on a double. */
  function CToInt(x: real): int {
    if x >= 0.0 then x.Floor else -((-x).Floor)
  }

  function Abs(x: real): real {
    if x >= 0.0 then x else -x
  }

  // ---- quotients ----

  lemma MulGap(h: int, d: int)
    requires h > 0
    ensures d >= 1 ==> h * d >= h
    ensures d <= -1 ==> h * d <= -h
  {
  }

  lemma QuotientIs(a: int, h: int, q: int)
    requires h > 0 && h * q <= a < h * q + h
    ensures a / h == q
  {
    var p := a / h;
    assert h * p <= a < h * p + h;
    assert h * (p - q) == h * p - h * q;
    MulGap(h, p - q);
  }
}
