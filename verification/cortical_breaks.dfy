/** What the two cortical break detection variants (the method of Peters
    et al. and its CBCT adaptation) share line for line: the periosteal
    contour and bone count set up from a mask, the cut of the other images
    to the contour's box, the breaks in the cortical shell that join the
    background to the endosteal region, the size filter on the breaks and
    the seed points placed in them. */
module CorticalBreaks {
  import opened Wrappers
  import opened Volumes
  import opened Connectivity
  import ContourLogic
  import Cropping
  import ErosionSteps

  /** The voxel the background flood starts from. */
  const Corner := Idx(0, 0, 0)

  function Min(a: int, b: int): int {
    if a <= b then a else b
  }

  /** The components of s that hold a voxel of t. */
  function ComponentsOf(nb: Neighbourhood, s: set<Idx>, t: set<Idx>): set<set<Idx>> {
    set i | i in t && i in s :: Component(nb, s, i)
  }

  /** The components of s. */
  function Components(nb: Neighbourhood, s: set<Idx>): set<set<Idx>> {
    ComponentsOf(nb, s, s)
  }

  /** No more components meet t than t has voxels. */
  lemma {:induction false} ComponentsAtMost(nb: Neighbourhood, s: set<Idx>, t: set<Idx>)
    ensures |ComponentsOf(nb, s, t)| <= |t|
    decreases |t|
  {
    if t == {} {
      assert ComponentsOf(nb, s, t) == {};
    } else {
      var x :| x in t;
      var rest := t - {x};
      ComponentsAtMost(nb, s, rest);
      if x in s {
        assert ComponentsOf(nb, s, t) == ComponentsOf(nb, s, rest) + {Component(nb, s, x)};
      } else {
        assert ComponentsOf(nb, s, t) == ComponentsOf(nb, s, rest);
      }
    }
  }

  /** The number of separate bones in a mask: the face-connected
      components of its nonzero voxels. */
  function BoneNum(contour: Volume): (n: nat)
    ensures n <= |Support(contour)|
    ensures n == 0 <==> Support(contour) == {}
  {
    var s := Support(contour);
    ComponentsAtMost(Face, s, s);
    ComponentsNonEmpty(Face, s);
    |Components(Face, s)|
  }

  lemma ComponentsNonEmpty(nb: Neighbourhood, s: set<Idx>)
    ensures s != {} ==> Components(nb, s) != {}
  {
    if s != {} {
      var x :| x in s;
      assert Component(nb, s, x) in Components(nb, s);
    }
  }

  /** setContour's bone count as written: GetNumberOfLabels of the label
      statistics over the component image, which counts the background
      label 0 as well whenever some voxel of the mask is 0. */
  function BoneNumAsWritten(contour: Volume): (n: nat)
    ensures Support(contour) == contour.Keys ==> n == BoneNum(contour)
    ensures Support(contour) != contour.Keys ==> n == BoneNum(contour) + 1
  {
    |Components(Face, Support(contour))| + if Support(contour) == contour.Keys then 0 else 1
  }

  /** One bone in a two-voxel image: the count as written is 2, the
      number of bones is 1. */
  lemma BoneNumCountsBackground()
    ensures BoneNumAsWritten(map[Idx(0, 0, 0) := 1, Idx(1, 0, 0) := 0]) == 2
    ensures BoneNum(map[Idx(0, 0, 0) := 1, Idx(1, 0, 0) := 0]) == 1
  {
    var c := map[Idx(0, 0, 0) := 1, Idx(1, 0, 0) := 0];
    var a := Idx(0, 0, 0);
    assert Support(c) == {a};
    assert Component(Face, {a}, a) == {a};
    assert Components(Face, {a}) == {{a}};
  }

  /** The cropped periosteal contour: the binarised mask cut to its box,
      where the cut starts in the original image (lo), its size, and the
      number of bones. */
  datatype Contour = Contour(peri: Volume, lo: Idx, w: int, h: int, d: int, boneNum: int)

  /** The contour voxel i of the original image sits at i - lo in the cut. */
  function Minus(i: Idx, lo: Idx): Idx {
    Idx(i.x - lo.x, i.y - lo.y, i.z - lo.z)
  }

  /** What LabelStatistics reports for label 1 of a mask on a w x h x d
      grid: no box when no voxel is in 1..255, else a box inside the grid
      enclosing every voxel in 1..255. */
  predicate BoxOf(contour: Volume, w: int, h: int, d: int, box: Option<ContourLogic.BBox>) {
    contour.Keys == Grid(w, h, d) &&
    (box.None? <==> forall i :: i in contour ==> !(1 <= contour[i] <= UpperDefault)) &&
    (box.Some? ==>
      ContourLogic.BoxFits(box.value, w, h, d) && Cropping.Encloses(box.value, Support(ThresholdAbove(contour, 1, 1))))
  }

  /** setContour: binarise (value in 1..255), crop to the box of label 1 with a
      margin of 2 in x and y, and count the bones. box is what
      LabelStatistics reports for label 1; without a voxel in 1..255 there is no
      label 1 and GetBoundingBox raises (None). */
  function SetContour(contour: Volume, w: int, h: int, d: int, box: Option<ContourLogic.BBox>): (r: Option<Contour>)
    requires BoxOf(contour, w, h, d, box)
    ensures r.None? <==> box.None?
    ensures r.Some? ==> r.value.peri.Keys == Grid(r.value.w, r.value.h, r.value.d)
    ensures r.Some? ==> IsBinary(r.value.peri, 1)
    ensures r.Some? ==> r.value.boneNum == BoneNum(contour)
    ensures r.Some? ==> var c := r.value;
      (forall i {:trigger Minus(i, c.lo)} :: i in contour && 1 <= contour[i] <= UpperDefault ==> Minus(i, c.lo) in c.peri && c.peri[Minus(i, c.lo)] == 1) &&
      (forall j :: j in c.peri && c.peri[j] == 1 ==> Cropping.Plus(j, c.lo) in contour && 1 <= contour[Cropping.Plus(j, c.lo)] <= UpperDefault)
  {
    match box
    case None => None
    case Some(b) => Some(CutContour(contour, w, h, d, b))
  }

  /** setContour as written: the upper crop amounts are measured from the
      box's inclusive maximum, and the bone count is GetNumberOfLabels,
      background included. The cut holds the mask's voxels below the box's
      top slice and loses that slice. */
  function SetContourAsWritten(contour: Volume, w: int, h: int, d: int, box: Option<ContourLogic.BBox>): (r: Option<Contour>)
    requires BoxOf(contour, w, h, d, box)
    ensures r.None? <==> box.None?
    ensures r.Some? ==> r.value.peri.Keys == Grid(r.value.w, r.value.h, r.value.d)
    ensures r.Some? ==> IsBinary(r.value.peri, 1)
    ensures r.Some? ==> r.value.boneNum == BoneNumAsWritten(contour)
    ensures r.Some? ==> CutBelow(contour, r.value, box.value.z1)
  {
    match box
    case None => None
    case Some(b) =>
      var amounts := Cropping.MarginAmountsAsWritten(b, w, h, d);
      var lo := amounts.0;
      var up := amounts.1;
      var cut := Cropping.CropContour(contour, w, h, d, (lo, up));
      CutBelowTop(contour, w, h, d, b, lo, up, cut);
      Some(Contour(cut.value, lo, w - lo.x - up.x, h - lo.y - up.y, d - lo.z - up.z, BoneNumAsWritten(contour)))
  }

  /** c's image holds 1 at the mask's voxels in 1..255 below slice top, moved by
      c.lo, lacks the voxels of slice top, and holds no other 1. */
  ghost predicate CutBelow(contour: Volume, c: Contour, top: int) {
    (forall i {:trigger Minus(i, c.lo)} :: i in contour && 1 <= contour[i] <= UpperDefault ==>
      ((Minus(i, c.lo) in c.peri && c.peri[Minus(i, c.lo)] == 1) <==> i.z < top)) &&
    (forall j :: j in c.peri && c.peri[j] == 1 ==> Cropping.Plus(j, c.lo) in contour && 1 <= contour[Cropping.Plus(j, c.lo)] <= UpperDefault)
  }

  /** The binarised contour cut with the amounts as written exists and
      holds 1 exactly at the contour's voxels below the box's top slice. */
  lemma CutBelowTop(contour: Volume, w: int, h: int, d: int, b: ContourLogic.BBox, lo: Idx, up: Idx, cut: Option<Volume>)
    requires contour.Keys == Grid(w, h, d)
    requires ContourLogic.BoxFits(b, w, h, d) && Cropping.Encloses(b, Support(ThresholdAbove(contour, 1, 1)))
    requires exists i :: i in contour && 1 <= contour[i] <= UpperDefault
    requires (lo, up) == Cropping.MarginAmountsAsWritten(b, w, h, d)
    requires cut == Cropping.CropContour(contour, w, h, d, (lo, up))
    ensures cut.Some?
    ensures CutBelow(contour, Contour(cut.value, lo, w - lo.x - up.x, h - lo.y - up.y, d - lo.z - up.z, BoneNumAsWritten(contour)), b.z1)
  {
    var i0 :| i0 in contour && 1 <= contour[i0] <= UpperDefault;
    assert i0 in Support(ThresholdAbove(contour, 1, 1));
    Cropping.MarginCropDropsTopSlice(contour, w, h, d, b, i0);
    var c := Contour(cut.value, lo, w - lo.x - up.x, h - lo.y - up.y, d - lo.z - up.z, BoneNumAsWritten(contour));
    CutBelowKeeps(contour, w, h, d, b, up, c);
    CutOnlyContour(contour, w, h, d, up, c);
  }

  /** A mask voxel in 1..255 is a 1 of the as-written cut iff it lies below the
      box's top slice. */
  lemma CutBelowKeeps(contour: Volume, w: int, h: int, d: int, b: ContourLogic.BBox, up: Idx, c: Contour)
    requires contour.Keys == Grid(w, h, d)
    requires ContourLogic.BoxFits(b, w, h, d) && Cropping.Encloses(b, Support(ThresholdAbove(contour, 1, 1)))
    requires (c.lo, up) == Cropping.MarginAmountsAsWritten(b, w, h, d)
    requires Some(c.peri) == Cropping.CropContour(contour, w, h, d, (c.lo, up))
    ensures forall i {:trigger Minus(i, c.lo)} :: i in contour && 1 <= contour[i] <= UpperDefault ==>
      ((Minus(i, c.lo) in c.peri && c.peri[Minus(i, c.lo)] == 1) <==> i.z < b.z1)
  {
    forall i | i in contour && 1 <= contour[i] <= UpperDefault
      ensures (Minus(i, c.lo) in c.peri && c.peri[Minus(i, c.lo)] == 1) <==> i.z < b.z1
    {
      assert i in Support(ThresholdAbove(contour, 1, 1));
      Cropping.MarginCropDropsTopSlice(contour, w, h, d, b, i);
      Cropping.CropKept(ThresholdAbove(contour, 1, 1), w, h, d, c.lo, up, i);
    }
  }

  /** c's image is the mask cut out to c's grid from c's origin: a 0/1
      image that is 1 exactly at the mask's voxels in 1..255, moved by c.lo. */
  ghost predicate CutFrom(contour: Volume, c: Contour) {
    c.peri.Keys == Grid(c.w, c.h, c.d) && IsBinary(c.peri, 1) &&
    (forall i {:trigger Minus(i, c.lo)} :: i in contour && 1 <= contour[i] <= UpperDefault ==> Minus(i, c.lo) in c.peri && c.peri[Minus(i, c.lo)] == 1) &&
    (forall j :: j in c.peri && c.peri[j] == 1 ==> Cropping.Plus(j, c.lo) in contour && 1 <= contour[Cropping.Plus(j, c.lo)] <= UpperDefault)
  }

  /** The Some branch of setContour: the binarised contour cut to the box
      with the margin, and the bone count. */
  function CutContour(contour: Volume, w: int, h: int, d: int, b: ContourLogic.BBox): (c: Contour)
    requires contour.Keys == Grid(w, h, d)
    requires ContourLogic.BoxFits(b, w, h, d) && Cropping.Encloses(b, Support(ThresholdAbove(contour, 1, 1)))
    requires exists i :: i in contour && 1 <= contour[i] <= UpperDefault
    ensures CutFrom(contour, c) && c.boneNum == BoneNum(contour)
    ensures c.lo == Cropping.MarginAmounts(b, w, h, d).0
  {
    var amounts := Cropping.MarginAmounts(b, w, h, d);
    var lo := amounts.0;
    var up := amounts.1;
    var cut := Cropping.CropContour(contour, w, h, d, (lo, up));
    CutHoldsContour(contour, w, h, d, b, lo, up, cut);
    Contour(cut.value, lo, w - lo.x - up.x, h - lo.y - up.y, d - lo.z - up.z, BoneNum(contour))
  }

  /** The binarised contour cut with the margin amounts exists and holds 1
      exactly at the contour's voxels, moved by the cut's origin. */
  lemma CutHoldsContour(contour: Volume, w: int, h: int, d: int, b: ContourLogic.BBox, lo: Idx, up: Idx, cut: Option<Volume>)
    requires contour.Keys == Grid(w, h, d)
    requires ContourLogic.BoxFits(b, w, h, d) && Cropping.Encloses(b, Support(ThresholdAbove(contour, 1, 1)))
    requires exists i :: i in contour && 1 <= contour[i] <= UpperDefault
    requires (lo, up) == Cropping.MarginAmounts(b, w, h, d)
    requires cut == Cropping.CropContour(contour, w, h, d, (lo, up))
    ensures cut.Some?
    ensures CutFrom(contour, Contour(cut.value, lo, w - lo.x - up.x, h - lo.y - up.y, d - lo.z - up.z, BoneNum(contour)))
  {
    var i0 :| i0 in contour && 1 <= contour[i0] <= UpperDefault;
    Cropping.MarginCropKeepsContour(contour, w, h, d, b, i0);
    var c := Contour(cut.value, lo, w - lo.x - up.x, h - lo.y - up.y, d - lo.z - up.z, BoneNum(contour));
    CutKeepsContour(contour, w, h, d, b, up, c);
    CutOnlyContour(contour, w, h, d, up, c);
  }

  /** Every mask voxel in 1..255 is a 1 of the cut. */
  lemma CutKeepsContour(contour: Volume, w: int, h: int, d: int, b: ContourLogic.BBox, up: Idx, c: Contour)
    requires contour.Keys == Grid(w, h, d)
    requires ContourLogic.BoxFits(b, w, h, d) && Cropping.Encloses(b, Support(ThresholdAbove(contour, 1, 1)))
    requires (c.lo, up) == Cropping.MarginAmounts(b, w, h, d)
    requires Some(c.peri) == Cropping.CropContour(contour, w, h, d, (c.lo, up))
    ensures forall i {:trigger Minus(i, c.lo)} :: i in contour && 1 <= contour[i] <= UpperDefault ==> Minus(i, c.lo) in c.peri && c.peri[Minus(i, c.lo)] == 1
  {
    forall i | i in contour && 1 <= contour[i] <= UpperDefault ensures Minus(i, c.lo) in c.peri && c.peri[Minus(i, c.lo)] == 1 {
      Cropping.MarginCropKeepsContour(contour, w, h, d, b, i);
    }
  }

  /** Every 1 of the cut is a mask voxel in 1..255. */
  lemma CutOnlyContour(contour: Volume, w: int, h: int, d: int, up: Idx, c: Contour)
    requires contour.Keys == Grid(w, h, d)
    requires Some(c.peri) == Cropping.CropContour(contour, w, h, d, (c.lo, up))
    ensures forall j :: j in c.peri && c.peri[j] == 1 ==> Cropping.Plus(j, c.lo) in contour && 1 <= contour[Cropping.Plus(j, c.lo)] <= UpperDefault
  {
    forall j | j in c.peri && c.peri[j] == 1 ensures Cropping.Plus(j, c.lo) in contour && 1 <= contour[Cropping.Plus(j, c.lo)] <= UpperDefault {
      Cropping.CropContourBack(contour, w, h, d, (c.lo, up), j);
    }
  }

  /** _boundingBoxCut: a zero image on the contour's grid with img pasted
      so that it occupies the same physical space (the contour's origin is
      lo voxels into img). */
  function BoxCut(img: Volume, c: Contour): (r: Volume)
    ensures r.Keys == Grid(c.w, c.h, c.d)
    ensures forall j :: j in r && Cropping.Plus(j, c.lo) in img ==> r[j] == img[Cropping.Plus(j, c.lo)]
    ensures forall j :: j in r && Cropping.Plus(j, c.lo) !in img ==> r[j] == 0
  {
    map j | j in Grid(c.w, c.h, c.d) :: if Cropping.Plus(j, c.lo) in img then img[Cropping.Plus(j, c.lo)] else 0
  }

  /** Pasting into the contour's box is cropping with the contour's
      amounts: for an image on the mask's grid, the cut equals sitk.Crop. */
  lemma BoxCutIsCrop(img: Volume, w: int, h: int, d: int, lo: Idx, up: Idx, boneNum: int)
    requires img.Keys == Grid(w, h, d)
    requires Cropping.Crop(img, w, h, d, lo, up).Some?
    ensures BoxCut(img, Contour(map[], lo, w - lo.x - up.x, h - lo.y - up.y, d - lo.z - up.z, boneNum)) ==
      Cropping.Crop(img, w, h, d, lo, up).value
  {
    var c := Contour(map[], lo, w - lo.x - up.x, h - lo.y - up.y, d - lo.z - up.z, boneNum);
    var cut := BoxCut(img, c);
    var crop := Cropping.Crop(img, w, h, d, lo, up).value;
    assert cut.Keys == crop.Keys;
    forall j | j in cut ensures cut[j] == crop[j] {
      assert Cropping.Plus(j, lo) in img;
    }
  }

  /** connectBreaks' first image: the flood from the corner voxel through
      the voxels that are neither breaks (value 1 of the shell image) nor
      endosteal region; the inverted breaks are masked to 0 on it. */
  function OpenBackground(breaks: Volume, endo: Volume): (r: set<Idx>)
    requires SameGrid(breaks, endo)
    ensures r <= Level(breaks, 0) - Level(endo, 1)
    ensures Closed(Face, Level(Mask(Invert(breaks, 1), endo, 0, 1), 1), r)
    ensures Corner in breaks && breaks[Corner] == 0 && endo[Corner] != 1 ==> Corner in r
  {
    var open := Level(Mask(Invert(breaks, 1), endo, 0, 1), 1);
    assert forall i :: i in open ==> i in breaks && endo[i] != 1 && 1 - breaks[i] == 1;
    Flood(Face, open, {Corner})
  }

  /** connectBreaks' second image: the background-connected voxels inside
      the periosteal contour, or-ed with the endosteal region. */
  function TrabecularSet(breaks: Volume, m: ErosionSteps.Masks, peri: Volume): (r: set<Idx>)
    requires SameGrid(breaks, m.inner) && SameGrid(breaks, peri) && IsBinary(peri, 1) && IsBinary(m.inner, 1)
    ensures r == (OpenBackground(breaks, m.inner) * Support(peri)) + Support(m.inner)
  {
    var bb := Indicator(breaks.Keys, OpenBackground(breaks, m.inner), 1);
    MulBinary(bb, peri);
    Support(Or(Mul(bb, peri), m.inner))
  }

  /** RelabelComponent then BinaryThreshold 1..k: kept holds the k largest
      components of s (all of them when there are fewer, none for k <= 0),
      each whole, and no dropped component is larger than a kept one. */
  predicate LargestPick(nb: Neighbourhood, s: set<Idx>, k: int, kept: set<Idx>) {
    kept <= s &&
    (forall i :: i in kept ==> Component(nb, s, i) <= kept) &&
    |ComponentsOf(nb, s, kept)| == Min(Cropping.Max0(k), |Components(nb, s)|) &&
    (forall i, j :: i in kept && j in s && j !in kept ==> |Component(nb, s, j)| <= |Component(nb, s, i)|)
  }

  /** pick behaves as RelabelComponent then BinaryThreshold 1..k on every
      set and every k. */
  ghost predicate PickOk(pick: (set<Idx>, int) -> set<Idx>) {
    forall t: set<Idx>, k: int :: LargestPick(Face, t, k, pick(t, k))
  }

  /** connectBreaks: of the trabecular image, the boneNum largest
      components minus the endosteal region. What is left are voxels of the
      cortical shell outside the breaks image, reached from the background,
      lying in a kept component. */
  function ConnectBreaks(breaks: Volume, m: ErosionSteps.Masks, peri: Volume, kept: set<Idx>): (r: Volume)
    requires ErosionSteps.MasksOf(m, peri) && IsBinary(peri, 1) && breaks.Keys == peri.Keys && IsBinary(breaks, 1)
    requires kept <= TrabecularSet(breaks, m, peri)
    ensures r.Keys == breaks.Keys
    ensures Level(r, 1) == kept - Support(m.inner)
    ensures Level(r, 1) <= Support(m.cortical) - Support(breaks)
  {
    var r := Sub(Indicator(breaks.Keys, kept, 1), m.inner);
    forall i | i in r ensures r[i] == 1 <==> i in kept && i !in Support(m.inner) {
      assert r[i] == (if i in kept then 1 else 0) - m.inner[i];
    }
    ShellOfTrabecular(breaks, m, peri, kept - Support(m.inner));
    r
  }

  /** Outside the endosteal region, the trabecular image holds only
      background-connected voxels inside the contour: cortical voxels that
      are not breaks. */
  lemma ShellOfTrabecular(breaks: Volume, m: ErosionSteps.Masks, peri: Volume, t: set<Idx>)
    requires ErosionSteps.MasksOf(m, peri) && IsBinary(peri, 1) && breaks.Keys == peri.Keys && IsBinary(breaks, 1)
    requires t <= TrabecularSet(breaks, m, peri) - Support(m.inner)
    ensures t <= Support(m.cortical) - Support(breaks)
  {
    var ob := OpenBackground(breaks, m.inner);
    forall i | i in t ensures i in Support(m.cortical) - Support(breaks) {
      assert i in ob && i in Support(peri);
      assert i in Level(breaks, 0);
    }
  }

  /** dilateBreaks after the dilation: the dilated breaks (given) inside the
      cortical shell, keeping the face-connected pieces of at least minSize
      voxels. The source then keeps labels 1..255 only, so beyond 255 such
      pieces the smallest are dropped; that cap is not modelled. */
  function SizeFilterBreaks(dilated: Volume, cortical: Volume, minSize: int): (r: Volume)
    requires SameGrid(dilated, cortical)
    ensures r.Keys == cortical.Keys && IsBinary(r, 1)
    ensures forall i :: i in Support(r) <==>
      i in Support(dilated) * Support(cortical) &&
      |Component(Face, Support(dilated) * Support(cortical), i)| >= minSize
  {
    Indicator(cortical.Keys, SizeFilter(Face, Support(dilated) * Support(cortical), minSize), 1)
  }

  /** A size limit of at most 1 keeps every voxel of the shell's breaks. */
  lemma SizeFilterNoOp(dilated: Volume, cortical: Volume, minSize: int)
    requires SameGrid(dilated, cortical) && minSize <= 1
    ensures Support(SizeFilterBreaks(dilated, cortical, minSize)) == Support(dilated) * Support(cortical)
  {
    var s := Support(dilated) * Support(cortical);
    forall i | i in s ensures |Component(Face, s, i)| >= 1 {
      assert i in Component(Face, s, i);
    }
  }

  /** reps names each component of s exactly once (the label order of
      RelabelComponent). */
  predicate Enumerates(nb: Neighbourhood, s: set<Idx>, reps: seq<Idx>) {
    (forall k :: 0 <= k < |reps| ==> reps[k] in s) &&
    (forall k, l :: 0 <= k < l < |reps| ==> reps[l] !in Component(nb, s, reps[k])) &&
    (forall i {:trigger Covered(nb, s, reps, i)} :: i in s ==> Covered(nb, s, reps, i))
  }

  /** order lists the components of every set, as the label order does. */
  ghost predicate OrderOk(order: set<Idx> -> seq<Idx>) {
    forall t: set<Idx> :: Enumerates(Face, t, order(t))
  }

  /** Some listed voxel's component holds i. */
  predicate Covered(nb: Neighbourhood, s: set<Idx>, reps: seq<Idx>, i: Idx) {
    exists k :: 0 <= k < |reps| && i in Component(nb, s, reps[k])
  }

  function ComponentList(nb: Neighbourhood, s: set<Idx>, reps: seq<Idx>): seq<set<Idx>> {
    seq(|reps|, k requires 0 <= k < |reps| => Component(nb, s, reps[k]))
  }

  /** A list without repeats has as many distinct elements as entries. */
  lemma {:induction false} DistinctCount(cs: seq<set<Idx>>)
    requires forall k, l :: 0 <= k < l < |cs| ==> cs[k] != cs[l]
    ensures |set k | 0 <= k < |cs| :: cs[k]| == |cs|
  {
    if |cs| > 0 {
      var n := |cs| - 1;
      DistinctCount(cs[..n]);
      var front := set k | 0 <= k < n :: cs[..n][k];
      assert (set k | 0 <= k < |cs| :: cs[k]) == front + {cs[n]};
      assert cs[n] !in front;
    }
  }

  /** An enumeration lists each component once. */
  lemma EnumerationDistinct(nb: Neighbourhood, s: set<Idx>, reps: seq<Idx>)
    requires Enumerates(nb, s, reps)
    ensures var cs := ComponentList(nb, s, reps); forall k, l :: 0 <= k < l < |cs| ==> cs[k] != cs[l]
  {
    var cs := ComponentList(nb, s, reps);
    forall k, l | 0 <= k < l < |cs| ensures cs[k] != cs[l] {
      assert reps[l] in s;
      assert reps[l] in cs[l];
      assert reps[l] !in Component(nb, s, reps[k]);
    }
  }

  /** An enumeration lists every component and nothing else. */
  lemma EnumerationCovers(nb: Neighbourhood, s: set<Idx>, reps: seq<Idx>)
    requires Enumerates(nb, s, reps)
    ensures var cs := ComponentList(nb, s, reps); Components(nb, s) == set k | 0 <= k < |cs| :: cs[k]
  {
    var cs := ComponentList(nb, s, reps);
    var listed := set k | 0 <= k < |cs| :: cs[k];
    forall c | c in Components(nb, s) ensures c in listed {
      var i :| i in s && c == Component(nb, s, i);
      assert Covered(nb, s, reps, i);
      var k :| 0 <= k < |reps| && i in Component(nb, s, reps[k]);
      ComponentShared(nb, s, reps[k], i);
      assert c == cs[k];
    }
    forall c | c in listed ensures c in Components(nb, s) {
      var k :| 0 <= k < |cs| && c == cs[k];
      assert reps[k] in s;
    }
  }

  /** An enumeration has one entry per component. */
  lemma EnumerationCount(nb: Neighbourhood, s: set<Idx>, reps: seq<Idx>)
    requires Enumerates(nb, s, reps)
    ensures |Components(nb, s)| == |reps|
  {
    EnumerationDistinct(nb, s, reps);
    EnumerationCovers(nb, s, reps);
    DistinctCount(ComponentList(nb, s, reps));
  }

  /** maskToSeeds: one seed per component of the breaks, appended to the
      seeds already held (the list is never cleared). centroid stands for
      the label statistics' centroid mapped back to an index of the scan. */
  function MaskToSeeds(seeds: seq<Idx>, breaks: Volume, reps: seq<Idx>, centroid: set<Idx> -> Idx): (r: seq<Idx>)
    requires Enumerates(Face, Support(breaks), reps)
    ensures |r| == |seeds| + |Components(Face, Support(breaks))| == |seeds| + |reps|
    ensures r[..|seeds|] == seeds
    ensures forall k :: 0 <= k < |reps| ==> r[|seeds| + k] == centroid(Component(Face, Support(breaks), reps[k]))
  {
    EnumerationCount(Face, Support(breaks), reps);
    var added := seq(|reps|, k requires 0 <= k < |reps| => centroid(Component(Face, Support(breaks), reps[k])));
    assert (seeds + added)[..|seeds|] == seeds;
    seeds + added
  }
}
