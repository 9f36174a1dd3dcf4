/** The bone thresholds the file converters derive from a scan's
    calibration: 3000 and 10000 Scanco units expressed in Hounsfield units,
    rounded to multiples of 10 and 100. FileConverterLogic and the AIM
    converter hold the same two functions. Arithmetic is exact here; the
    Python floating point is not modelled. */
module Thresholds {
  import opened Wrappers
  import PyNum
  import ScancoRescale

  /** roundNearest: `int(num - num % roundTo + round(num % roundTo /
      roundTo) * roundTo)`, with Python's float remainder and round half to
      even. The result is a multiple of roundTo at least as near to num as
      any other multiple; at a tie (num halfway between two multiples) the
      lower multiple is taken, because round(0.5) is 0. */
  function RoundNearest(num: real, roundTo: int): (res: int)
    requires roundTo > 0
    ensures NearestMultiple(res, num, roundTo)
  {
    var r := roundTo as real;
    var m := PyNum.FloatMod(num, r);
    var b := PyNum.Round(m / r);
    var res := PyNum.Trunc(num - m + b as real * r);
    RoundingSteps(num, roundTo, m, b, res);
    res
  }

  /** res is a multiple of c at least as near to num as any other
      multiple, within c / 2 of it, and below num at a tie. */
  ghost predicate NearestMultiple(res: int, num: real, c: int)
    requires c > 0
  {
    res % c == 0 &&
    PyNum.Abs(res as real - num) <= c as real / 2.0 &&
    (forall k: int :: PyNum.Abs(res as real - num) <= Gap(num, c, k)) &&
    (PyNum.Abs(res as real - num) == c as real / 2.0 ==> res as real < num)
  }

  /** The steps of roundNearest: num - num % roundTo is q roundTo with q
      the floored quotient, the rounded share b of the remainder picks q
      roundTo or the next multiple, and that multiple is a nearest one. */
  lemma RoundingSteps(num: real, roundTo: int, m: real, b: int, res: int)
    requires roundTo > 0
    requires m == PyNum.FloatMod(num, roundTo as real)
    requires b == PyNum.Round(m / roundTo as real)
    requires res == PyNum.Trunc(num - m + b as real * roundTo as real)
    ensures NearestMultiple(res, num, roundTo)
  {
    var n := PickedMultiple(num, roundTo, m, b);
    NearestFrom(num, roundTo, n);
  }

  /** The formula picks the multiple n roundTo, with n the floored quotient
      or the next integer as the remainder's rounded share says. */
  lemma PickedMultiple(num: real, roundTo: int, m: real, b: int) returns (n: int)
    requires roundTo > 0
    requires m == PyNum.FloatMod(num, roundTo as real)
    requires b == PyNum.Round(m / roundTo as real)
    ensures PyNum.Trunc(num - m + b as real * roundTo as real) == n * roundTo
    ensures PyNum.Abs((n * roundTo) as real - num) <= roundTo as real / 2.0
    ensures PyNum.Abs((n * roundTo) as real - num) == roundTo as real / 2.0 ==> (n * roundTo) as real < num
  {
    var q := PyNum.FloorQuot(num, roundTo as real);
    RoundedShare(m, roundTo as real, b);
    RoundedMultiple(num, roundTo, q, m, b);
    n := q + b;
  }

  /** A multiple n c within c / 2 of num, below num at a tie, is the
      nearest multiple roundNearest promises. */
  lemma NearestFrom(num: real, c: int, n: int)
    requires c > 0 && PyNum.Abs((n * c) as real - num) <= c as real / 2.0
    requires PyNum.Abs((n * c) as real - num) == c as real / 2.0 ==> ((n * c) as real) < num
    ensures NearestMultiple(n * c, num, c)
  {
    MultipleOf(n, c);
    NearestOfAll(num, c, n);
  }

  /** With num = q c + m, taking the multiple q c or (q + 1) c by the
      rounded share b gives a multiple within c / 2 of num, below num at a
      tie, and int() returns it unchanged. */
  lemma RoundedMultiple(num: real, c: int, q: int, m: real, b: int)
    requires c > 0 && num == q as real * c as real + m && 0.0 <= m < c as real
    requires (b == 0 || b == 1) && (b == 0 <==> m <= c as real / 2.0)
    ensures PyNum.Trunc(num - m + b as real * c as real) == (q + b) * c
    ensures PyNum.Abs(((q + b) * c) as real - num) <= c as real / 2.0
    ensures PyNum.Abs(((q + b) * c) as real - num) == c as real / 2.0 ==> ((q + b) * c) as real < num
  {
    MulCast(q, c);
    if b == 0 {
      assert num - m + b as real * c as real == (q * c) as real;
    } else {
      assert (q + b) * c == q * c + c;
      assert num - m + b as real * c as real == (q * c + c) as real;
    }
  }

  /** The distance from num to the multiple k c. */
  function Gap(num: real, c: int, k: int): real
    requires c > 0
  {
    PyNum.Abs((k * c) as real - num)
  }

  /** The rounded share b = round(m / r) of a remainder m in [0, r) is 0
      when m is at most r / 2, at the tie included, and 1 otherwise. */
  lemma RoundedShare(m: real, r: real, b: int)
    requires r > 0.0 && 0.0 <= m < r
    requires PyNum.Abs(b as real - m / r) <= 0.5
    requires PyNum.Abs(b as real - m / r) == 0.5 ==> b % 2 == 0
    ensures b == 0 || b == 1
    ensures b == 0 <==> m <= r / 2.0
  {
    var t := m / r;
    assert t * r == m;
    HalfShare(t, r, m);
  }

  lemma HalfShare(t: real, r: real, m: real)
    requires r > 0.0 && t * r == m
    ensures t < 0.5 <==> m < r / 2.0
    ensures t == 0.5 <==> m == r / 2.0
    ensures 0.0 <= t <==> 0.0 <= m
    ensures t < 1.0 <==> m < r
  {
    ScaleSign(t - 0.5, r);
    assert (t - 0.5) * r == m - r / 2.0;
    ScaleSign(t, r);
    ScaleSign(t - 1.0, r);
    assert (t - 1.0) * r == m - r;
  }

  /** Scaling by r > 0 keeps the sign. */
  lemma ScaleSign(d: real, r: real)
    requires r > 0.0
    ensures d * r > 0.0 <==> d > 0.0
    ensures d * r == 0.0 <==> d == 0.0
  {
  }

  /** Two distinct multiples of c lie at least c apart, so one within c /
      2 of num is at least as near as the other. */
  lemma NoNearerMultiple(num: real, c: int, n: int, k: int)
    requires c > 0 && PyNum.Abs((n * c) as real - num) <= c as real / 2.0
    ensures PyNum.Abs((n * c) as real - num) <= Gap(num, c, k)
  {
    if k > n {
      MulAtLeast(k - n, c);
      assert k * c == n * c + (k - n) * c;
    } else if k < n {
      MulAtLeast(n - k, c);
      assert n * c == k * c + (n - k) * c;
    }
  }

  /** A multiple of c within c / 2 of num is a nearest one. */
  lemma NearestOfAll(num: real, c: int, n: int)
    requires c > 0 && PyNum.Abs((n * c) as real - num) <= c as real / 2.0
    ensures forall k: int :: PyNum.Abs((n * c) as real - num) <= Gap(num, c, k)
  {
    forall k: int
      ensures PyNum.Abs((n * c) as real - num) <= Gap(num, c, k)
    {
      NoNearerMultiple(num, c, n, k);
    }
  }

  /** n c is a multiple of c. */
  lemma MultipleOf(n: int, c: int)
    requires c > 0
    ensures (n * c) % c == 0
  {
    var q := (n * c) / c;
    var rem := (n * c) % c;
    assert n * c == q * c + rem;
    assert (n - q) * c == rem;
    if n - q >= 1 {
      MulAtLeast(n - q, c);
    } else if n - q <= -1 {
      MulAtLeast(q - n, c);
    }
  }

  lemma MulAtLeast(d: int, c: int)
    requires d >= 1 && c > 0
    ensures d * c >= c
  {
  }

  lemma MulCast(n: int, c: int)
    ensures (n * c) as real == n as real * c as real
  {
  }

  /** getThreshold: lower = roundNearest(1000 (3000 / mu_scaling / mu_water
      - 1), 10) and upper = roundNearest(1000 (10000 / mu_scaling / mu_water
      - 1), 100). A zero calibration constant divides by zero (None). The
      thresholds are 3000 and 10000 Scanco units converted to HU, rounded
      to the nearest 10 and 100. */
  function GetThreshold(muWater: real, muScaling: real): (r: Option<(int, int)>)
    ensures r.None? <==> muWater == 0.0 || muScaling == 0.0
    ensures r.Some? ==>
      var lowerHu := ScancoRescale.ScancoToHu(3000.0, muScaling, muWater).value;
      var upperHu := ScancoRescale.ScancoToHu(10000.0, muScaling, muWater).value;
      r.value.0 % 10 == 0 && PyNum.Abs(r.value.0 as real - lowerHu) <= 5.0 &&
      r.value.1 % 100 == 0 && PyNum.Abs(r.value.1 as real - upperHu) <= 50.0 &&
      (forall k: int :: PyNum.Abs(r.value.0 as real - lowerHu) <= Gap(lowerHu, 10, k)) &&
      (forall k: int :: PyNum.Abs(r.value.1 as real - upperHu) <= Gap(upperHu, 100, k))
  {
    if muScaling == 0.0 || muWater == 0.0 then None
    else
      var lower := 1000.0 * (3000.0 / muScaling / muWater - 1.0);
      var upper := 1000.0 * (10000.0 / muScaling / muWater - 1.0);
      ScancoInHu(3000.0, muScaling, muWater);
      ScancoInHu(10000.0, muScaling, muWater);
      Some((RoundNearest(lower, 10), RoundNearest(upper, 100)))
  }

  /** The converters' expression is the Scanco-to-HU conversion. */
  lemma ScancoInHu(s: real, muScaling: real, muWater: real)
    requires muScaling != 0.0 && muWater != 0.0
    ensures ScancoRescale.ScancoToHu(s, muScaling, muWater) == Some(1000.0 * (s / muScaling / muWater - 1.0))
  {
    var l := ScancoRescale.ScancoToLinatt(s, muScaling).value;
    ScancoRescale.CancelFactor(l, s / muScaling, muScaling);
    var h := ScancoRescale.ScancoToHu(s, muScaling, muWater).value;
    var x := l / muWater;
    assert (h + 1000.0) * muWater == (1000.0 * x) * muWater;
    ScancoRescale.CancelFactor(h + 1000.0, 1000.0 * x, muWater);
  }

  /** Ties go down on both sides of zero: 15 rounds to 10 and -15 to -20,
      while 16 rounds to 20. */
  lemma TiesRoundDown()
    ensures RoundNearest(15.0, 10) == 10
    ensures RoundNearest(-15.0, 10) == -20
    ensures RoundNearest(16.0, 10) == 20
  {
    RoundsTo(15.0, 10, 1, 5.0, 0);
    RoundsTo(-15.0, 10, -2, 5.0, 0);
    RoundsTo(16.0, 10, 1, 6.0, 1);
  }

  /** roundNearest on a num with floored quotient q and remainder m whose
      share rounds to b. */
  lemma RoundsTo(num: real, roundTo: int, q: int, m: real, b: int)
    requires roundTo > 0 && 0.0 <= m < roundTo as real
    requires num == q as real * roundTo as real + m
    requires PyNum.Round(m / roundTo as real) == b
    ensures RoundNearest(num, roundTo) == (q + b) * roundTo
  {
    var r := roundTo as real;
    QuotientSplit(num, r, q, m);
    assert PyNum.FloorQuot(num, r) == q;
    assert PyNum.FloatMod(num, r) == m;
    RoundedMultipleValue(num, roundTo, q, m, b);
  }

  /** num = q r + m with 0 <= m < r has floored quotient q. */
  lemma QuotientSplit(num: real, r: real, q: int, m: real)
    requires r > 0.0 && 0.0 <= m < r && num == q as real * r + m
    ensures num / r == q as real + m / r
    ensures 0.0 <= m / r < 1.0
  {
    var t := m / r;
    assert t * r == m;
    HalfShare(t, r, m);
    assert (q as real + t) * r == num;
  }

  lemma RoundedMultipleValue(num: real, c: int, q: int, m: real, b: int)
    requires c > 0 && num == q as real * c as real + m
    ensures PyNum.Trunc(num - m + b as real * c as real) == (q + b) * c
  {
    MulCast(q + b, c);
    assert num - m + b as real * c as real == (q + b) as real * c as real;
  }
}
