/** The intensity checks that guess whether a scan is in Hounsfield units:
    the mean within (-1000, 1000), the standard deviation within (500, 1000)
    and fewer than a tenth of the voxels outside a plausible range. The
    scan is its array of voxel values. The standard deviation is compared
    through the variance: std > 500 and std < 1000 hold exactly when the
    variance lies between 500^2 and 1000^2, std being its non-negative
    root. */
module Intensity {
  import opened Wrappers

  function Sum(arr: seq<int>): int {
    if |arr| == 0 then 0 else Sum(arr[..|arr| - 1]) + arr[|arr| - 1]
  }

  /** np.average. */
  function Mean(arr: seq<int>): real
    requires |arr| > 0
  {
    Sum(arr) as real / |arr| as real
  }

  function SquaredDeviations(arr: seq<int>, m: real): (r: real)
    ensures r >= 0.0
  {
    if |arr| == 0 then 0.0
    else
      var d := arr[|arr| - 1] as real - m;
      SquaredDeviations(arr[..|arr| - 1], m) + d * d
  }

  /** np.std squared: the population variance. */
  function Variance(arr: seq<int>): (r: real)
    requires |arr| > 0
    ensures r >= 0.0
  {
    SquaredDeviations(arr, Mean(arr)) / |arr| as real
  }

  /** How many values lie above t (np.count_nonzero of np.where(arr > t, arr, 0)
      for t >= 0). */
  function CountAbove(arr: seq<int>, t: int): (n: nat)
    ensures n <= |arr|
    ensures n == 0 <==> forall i :: 0 <= i < |arr| ==> arr[i] <= t
  {
    if |arr| == 0 then 0
    else
      var n := CountAbove(arr[..|arr| - 1], t) + (if arr[|arr| - 1] > t then 1 else 0);
      assert n == 0 ==> forall i :: 0 <= i < |arr| ==> arr[i] <= t by {
        if n == 0 {
          forall i | 0 <= i < |arr|
            ensures arr[i] <= t
          {
            if i < |arr| - 1 {
              assert arr[i] == arr[..|arr| - 1][i];
            }
          }
        }
      }
      n
  }

  /** How many values lie below t (for t <= 0). */
  function CountBelow(arr: seq<int>, t: int): (n: nat)
    ensures n <= |arr|
    ensures n == 0 <==> forall i :: 0 <= i < |arr| ==> arr[i] >= t
  {
    if |arr| == 0 then 0
    else
      var n := CountBelow(arr[..|arr| - 1], t) + (if arr[|arr| - 1] < t then 1 else 0);
      assert n == 0 ==> forall i :: 0 <= i < |arr| ==> arr[i] >= t by {
        if n == 0 {
          forall i | 0 <= i < |arr|
            ensures arr[i] >= t
          {
            if i < |arr| - 1 {
              assert arr[i] == arr[..|arr| - 1][i];
            }
          }
        }
      }
      n
  }

  /** The three tests on the statistics. */
  predicate Plausible(mean: real, variance: real, outside: real) {
    -1000.0 < mean < 1000.0 && 250000.0 < variance < 1000000.0 && outside < 0.1
  }

  /** The check with the out-of-range counts taken above hi and below lo;
      an empty scan makes np.average raise (None). */
  function Check(arr: seq<int>, lo: int, hi: int): (r: Option<bool>)
    ensures r.None? <==> |arr| == 0
  {
    if |arr| == 0 then None
    else
      var n := |arr| as real;
      Some(Plausible(Mean(arr), Variance(arr), CountAbove(arr, hi) as real / n + CountBelow(arr, lo) as real / n))
  }

  /** The check in whole numbers: a nonempty scan is taken for Hounsfield
      units exactly when its mean and variance are in range and fewer than
      a tenth of its voxels lie above hi or below lo. */
  lemma CheckShares(arr: seq<int>, lo: int, hi: int)
    requires |arr| > 0
    ensures Check(arr, lo, hi) == Some(-1000.0 < Mean(arr) < 1000.0 && 250000.0 < Variance(arr) < 1000000.0 &&
                                       10 * (CountAbove(arr, hi) + CountBelow(arr, lo)) < |arr|)
  {
    ShareRule(CountAbove(arr, hi), CountBelow(arr, lo), |arr|);
  }

  /** Two shares of m add up to less than a tenth exactly when ten times
      their counts stay below m. */
  lemma ShareRule(a: nat, b: nat, m: nat)
    requires m > 0
    ensures a as real / m as real + b as real / m as real < 0.1 <==> 10 * (a + b) < m
  {
    var n := m as real;
    AddShares(a as real, b as real, n);
    TenthShare((a + b) as real, n);
  }

  lemma AddShares(p: real, q: real, n: real)
    requires n > 0.0
    ensures p / n + q / n == (p + q) / n
  {
    assert (p + q) / n == p * (1.0 / n) + q * (1.0 / n);
  }

  lemma TenthShare(s: real, n: real)
    requires n > 0.0
    ensures s / n < 0.1 <==> 10.0 * s < n
  {
    var x := s / n;
    assert x * n == s;
    if x < 0.1 {
      assert x * n < 0.1 * n;
    } else {
      assert x * n >= 0.1 * n;
    }
  }

  /** A scan whose values all lie in lo..hi passes the range test: the
      check then rests on the mean and the variance alone. */
  lemma CheckWithinRange(arr: seq<int>, lo: int, hi: int)
    requires |arr| > 0 && forall i :: 0 <= i < |arr| ==> lo <= arr[i] <= hi
    ensures Check(arr, lo, hi) == Some(-1000.0 < Mean(arr) < 1000.0 && 250000.0 < Variance(arr) < 1000000.0)
  {
    assert CountAbove(arr, hi) == 0 && CountBelow(arr, lo) == 0;
  }

  /** A scan with a tenth or more of its voxels above hi is never taken
      for Hounsfield units. */
  lemma ManyAboveRejected(arr: seq<int>, lo: int, hi: int)
    requires |arr| > 0 && 10 * CountAbove(arr, hi) >= |arr|
    ensures Check(arr, lo, hi) == Some(false)
  {
    var n := |arr| as real;
    TenthOrMore(CountAbove(arr, hi) as real, n);
    NonNegativeShare(CountBelow(arr, lo) as real, n);
  }

  lemma TenthOrMore(a: real, n: real)
    requires n > 0.0 && 10.0 * a >= n
    ensures a / n >= 0.1
  {
    assert a / n * n == a;
  }

  lemma NonNegativeShare(b: real, n: real)
    requires n > 0.0 && b >= 0.0
    ensures b / n >= 0.0
  {
    assert b / n * n == b;
  }

  lemma {:induction false} SumConstant(arr: seq<int>, c: int)
    requires forall i :: 0 <= i < |arr| ==> arr[i] == c
    ensures Sum(arr) == |arr| * c
  {
    if |arr| > 0 {
      SumConstant(arr[..|arr| - 1], c);
    }
  }

  lemma {:induction false} NoDeviation(arr: seq<int>, c: int)
    requires forall i :: 0 <= i < |arr| ==> arr[i] == c
    ensures SquaredDeviations(arr, c as real) == 0.0
  {
    if |arr| > 0 {
      NoDeviation(arr[..|arr| - 1], c);
    }
  }

  /** A uniform scan has no spread, so it is never taken for Hounsfield
      units. */
  lemma UniformRejected(arr: seq<int>, c: int, lo: int, hi: int)
    requires |arr| > 0 && forall i :: 0 <= i < |arr| ==> arr[i] == c
    ensures Mean(arr) == c as real && Variance(arr) == 0.0
    ensures Check(arr, lo, hi) == Some(false)
  {
    SumConstant(arr, c);
    assert Mean(arr) == c as real by {
      assert Sum(arr) as real == |arr| as real * c as real;
    }
    NoDeviation(arr, c);
  }

  /** A scan of -600 and 600: mean 0, standard deviation 600 and nothing out
      of range under either set of bounds, a plain Hounsfield scan. */
  lemma TwoValueScan()
    ensures Mean([-600, 600]) == 0.0 && Variance([-600, 600]) == 360000.0
    ensures Check([-600, 600], -2000, 5000) == Some(true)
    ensures Check([-600, 600], -1000, 4000) == Some(true)
  {
    var arr := [-600, 600];
    assert arr[..1] == [-600] && arr[..1][..0] == [];
    assert Sum(arr) == 0;
    assert SquaredDeviations(arr, 0.0) == 720000.0;
    assert CountAbove(arr, 5000) == 0 && CountBelow(arr, -2000) == 0;
    assert CountAbove(arr, 4000) == 0 && CountBelow(arr, -1000) == 0;
  }
}
