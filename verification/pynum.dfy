/** The Python number operations the source relies on, stated exactly:
    floor division, int() truncation of a float, round() (round half to
    even) and float remainder. */
module PyNum {

  function Abs(x: real): real {
    if x < 0.0 then -x else x
  }

  /** Python `a // b` on ints: the floor of the quotient. */
  function FloorDiv(a: int, b: int): (q: int)
    requires b != 0
    ensures b > 0 ==> q * b <= a < q * b + b
    ensures b < 0 ==> q * b >= a > q * b + b
  {
    if b > 0 || a % b == 0 then a / b else a / b - 1
  }

  /** int(x) for a float x: truncation toward zero. */
  function Trunc(x: real): (r: int)
    ensures x >= 0.0 ==> r as real <= x < r as real + 1.0
    ensures x < 0.0 ==> r as real - 1.0 < x <= r as real
    ensures Abs(r as real) <= Abs(x)
  {
    if x >= 0.0 then x.Floor else -((-x).Floor)
  }

  /** round(x): the nearest integer, ties to the even one. */
  function Round(x: real): (r: int)
    ensures Abs(r as real - x) <= 0.5
    ensures Abs(r as real - x) == 0.5 ==> r % 2 == 0
  {
    var f := x.Floor;
    var frac := x - f as real;
    if frac < 0.5 then f
    else if frac > 0.5 then f + 1
    else if f % 2 == 0 then f
    else f + 1
  }

  /** The nearest-integer property pins round() down uniquely away from
      ties: any integer strictly closer than one half is the result. */
  lemma RoundUnique(x: real, n: int)
    requires Abs(n as real - x) < 0.5
    ensures Round(x) == n
  {
  }

  /** The floor of x / m, the quotient Python pairs with `x % m`. */
  function FloorQuot(x: real, m: real): int
    requires m > 0.0
  {
    (x / m).Floor
  }

  lemma ScaleBelowOne(t: real, m: real)
    requires 0.0 <= t < 1.0 && m > 0.0
    ensures 0.0 <= t * m < m
  {
  }

  /** Python float remainder `x % m` for m > 0: in [0, m), and x is the
      quotient times m plus the remainder. */
  function FloatMod(x: real, m: real): (r: real)
    requires m > 0.0
    ensures 0.0 <= r < m
    ensures x == FloorQuot(x, m) as real * m + r
  {
    var k := FloorQuot(x, m);
    var t := x / m - k as real;
    ScaleBelowOne(t, m);
    assert t * m == x - k as real * m;
    x - k as real * m
  }
}
