/** segmentation_evaluation: comparing a predicted segmentation with a
    reference one. Images are their flattened voxel arrays. The two copies
    of the file (under AutomaticContour and AutoMask) hold the same code.
    Distance maps and surface extraction are SimpleITK filters and are not
    computed: the surface-to-surface distance image enters as its array. */
module SegmentationEvaluation {
  import opened Wrappers

  /** binarize_numpy_array: `abs(arr) > 0` as integers, so every nonzero
      value becomes 1, negative ones included. */
  function Binarize(arr: seq<int>): (r: seq<int>)
    ensures |r| == |arr|
    ensures forall k :: 0 <= k < |r| ==> (r[k] == 1 <==> arr[k] != 0) && (r[k] == 0 <==> arr[k] == 0)
  {
    seq(|arr|, k requires 0 <= k < |arr| => if arr[k] < 0 || arr[k] > 0 then 1 else 0)
  }

  /** Binarizing a binarized array changes nothing. */
  lemma BinarizeIdempotent(arr: seq<int>)
    ensures Binarize(Binarize(arr)) == Binarize(arr)
  {
  }

  /** The voxels above 0 in a. */
  function CountPos(a: seq<int>): (n: nat)
    ensures n <= |a|
  {
    if |a| == 0 then 0 else CountPos(a[..|a| - 1]) + (if a[|a| - 1] > 0 then 1 else 0)
  }

  /** `(ref & seg).sum()` after thresholding at 0. */
  function CountBoth(a: seq<int>, b: seq<int>): nat
    requires |a| == |b|
  {
    if |a| == 0 then 0
    else CountBoth(a[..|a| - 1], b[..|b| - 1]) + (if a[|a| - 1] > 0 && b[|b| - 1] > 0 then 1 else 0)
  }

  /** `(ref | seg).sum()` after thresholding at 0. */
  function CountEither(a: seq<int>, b: seq<int>): nat
    requires |a| == |b|
  {
    if |a| == 0 then 0
    else CountEither(a[..|a| - 1], b[..|b| - 1]) + (if a[|a| - 1] > 0 || b[|b| - 1] > 0 then 1 else 0)
  }

  /** The union counts each voxel of the intersection once: |A ∪ B| +
      |A ∩ B| == |A| + |B|, and the intersection lies in each mask. */
  lemma {:induction false} InclusionExclusion(a: seq<int>, b: seq<int>)
    requires |a| == |b|
    ensures CountEither(a, b) + CountBoth(a, b) == CountPos(a) + CountPos(b)
    ensures CountBoth(a, b) <= CountPos(a) && CountBoth(a, b) <= CountPos(b)
  {
    if |a| > 0 {
      InclusionExclusion(a[..|a| - 1], b[..|b| - 1]);
    }
  }

  /** The counts do not depend on the order of the masks. */
  lemma {:induction false} CountsSymmetric(a: seq<int>, b: seq<int>)
    requires |a| == |b|
    ensures CountBoth(a, b) == CountBoth(b, a) && CountEither(a, b) == CountEither(b, a)
  {
    if |a| > 0 {
      CountsSymmetric(a[..|a| - 1], b[..|b| - 1]);
    }
  }

  /** A mask against itself: intersection and union are the mask. */
  lemma {:induction false} CountsSelf(a: seq<int>)
    ensures CountBoth(a, a) == CountPos(a) && CountEither(a, a) == CountPos(a)
  {
    if |a| > 0 {
      CountsSelf(a[..|a| - 1]);
    }
  }

  /** calculate_dice_and_jaccard: Dice 2|A ∩ B| / (|A| + |B|) and Jaccard
      |A ∩ B| / |A ∪ B| over the voxels above 0. Two empty masks divide 0
      by 0, giving NaN (None). Both scores lie in [0, 1]. */
  function DiceAndJaccard(ref: seq<int>, seg: seq<int>): (r: Option<(real, real)>)
    requires |ref| == |seg|
    ensures r.None? <==> CountPos(ref) == 0 && CountPos(seg) == 0
    ensures r.Some? ==> 0.0 <= r.value.0 <= 1.0 && 0.0 <= r.value.1 <= 1.0
  {
    InclusionExclusion(ref, seg);
    var both := CountBoth(ref, seg) as real;
    var sizes := (CountPos(ref) + CountPos(seg)) as real;
    var union := CountEither(ref, seg) as real;
    if sizes == 0.0 then None
    else
      UnitRatio(2.0 * both, sizes);
      UnitRatio(both, union);
      Some((2.0 * both / sizes, both / union))
  }

  lemma UnitRatio(p: real, q: real)
    requires 0.0 <= p <= q && q > 0.0
    ensures 0.0 <= p / q <= 1.0
  {
    assert p / q * q == p;
  }

  /** Swapping reference and segmentation gives the same scores. */
  lemma ScoresSymmetric(ref: seq<int>, seg: seq<int>)
    requires |ref| == |seg|
    ensures DiceAndJaccard(ref, seg) == DiceAndJaccard(seg, ref)
  {
    CountsSymmetric(ref, seg);
  }

  /** Dice is determined by Jaccard: dice == 2J / (1 + J). */
  lemma DiceFromJaccard(ref: seq<int>, seg: seq<int>)
    requires |ref| == |seg|
    ensures DiceAndJaccard(ref, seg).Some? ==>
      var (d, j) := DiceAndJaccard(ref, seg).value; d == 2.0 * j / (1.0 + j)
  {
    InclusionExclusion(ref, seg);
    if DiceAndJaccard(ref, seg).Some? {
      var i := CountBoth(ref, seg) as real;
      var u := CountEither(ref, seg) as real;
      RatioIdentity(i, u);
    }
  }

  /** 2(i/u) / (1 + i/u) == 2i / (u + i). */
  lemma RatioIdentity(i: real, u: real)
    requires u > 0.0 && i >= 0.0
    ensures 2.0 * (i / u) / (1.0 + i / u) == 2.0 * i / (u + i)
  {
    var x := i / u;
    assert x * u == i;
    assert (1.0 + x) * u == u + i;
    assert 2.0 * x * u == 2.0 * i;
    assert 2.0 * x / (1.0 + x) == (2.0 * x * u) / ((1.0 + x) * u);
  }

  /** Identical nonempty masks score 1 on both. */
  lemma IdenticalScoresOne(ref: seq<int>)
    requires CountPos(ref) > 0
    ensures DiceAndJaccard(ref, ref) == Some((1.0, 1.0))
  {
    CountsSelf(ref);
    var k := CountPos(ref);
    SelfRatios(k);
    InclusionExclusion(ref, ref);
    assert DiceAndJaccard(ref, ref) == Some((2.0 * (k as real) / ((k + k) as real), (k as real) / (k as real)));
  }

  lemma SelfRatios(k: int)
    requires k > 0
    ensures 2.0 * (k as real) / ((k + k) as real) == 1.0 && (k as real) / (k as real) == 1.0
  {
    assert (k + k) as real == 2.0 * (k as real);
  }

  /** The nonzero entries of a, in order. */
  function NonZero(a: seq<real>): (r: seq<real>)
    ensures |r| <= |a|
    ensures forall k :: 0 <= k < |r| ==> r[k] != 0.0
    ensures forall x :: x != 0.0 ==> multiset(r)[x] == multiset(a)[x]
  {
    if |a| == 0 then []
    else
      var last := a[|a| - 1];
      assert a == a[..|a| - 1] + [last];
      if last != 0.0 then NonZero(a[..|a| - 1]) + [last] else NonZero(a[..|a| - 1])
  }

  /** get_surface_to_surface_distances_list as written: the zeros that
      should stand for overlapping surface voxels are built into a second
      list that is never returned, so only the nonzero distances are. */
  function DistanceListAsWritten(dists: seq<real>, surfaceNumPix: int): (r: seq<real>)
    ensures forall k :: 0 <= k < |r| ==> r[k] != 0.0
    ensures forall x :: x != 0.0 ==> multiset(r)[x] == multiset(dists)[x]
  {
    NonZero(dists)
  }

  /** The distance list padded as intended: the nonzero distances followed
      by zeros up to the number of surface voxels. */
  function DistanceList(dists: seq<real>, surfaceNumPix: int): (r: seq<real>)
    ensures |r| == (if |NonZero(dists)| < surfaceNumPix then surfaceNumPix else |NonZero(dists)|)
    ensures r[..|NonZero(dists)|] == NonZero(dists)
    ensures forall k :: |NonZero(dists)| <= k < |r| ==> r[k] == 0.0
  {
    var nz := NonZero(dists);
    if |nz| < surfaceNumPix then nz + seq(surfaceNumPix - |nz|, k => 0.0) else nz
  }

  /** Two surface voxels, one lying on the other surface (distance 0): the
      list as written holds one distance, the padded list two. */
  lemma OverlapDropped()
    ensures DistanceListAsWritten([0.0, 2.0], 2) == [2.0]
    ensures DistanceList([0.0, 2.0], 2) == [2.0, 0.0]
  {
    assert [0.0, 2.0][..1] == [0.0];
    assert [0.0, 2.0][..1][..0] == [];
  }
}
