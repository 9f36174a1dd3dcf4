/** AutocontourKnee: the mask algebra of the knee autocontouring. The
    periosteal mask is built in four steps of thresholding, component
    filtering and morphology; the endosteal pass splits it into a cortical
    and a trabecular region. Masks hold the foreground value f (in_value,
    127 by default) or 0. Gaussian smoothing and the ball-shaped
    morphological filters are not computed: their outputs enter as given
    volumes or as given functions on volumes. ConnectedComponent and
    RelabelComponent enter as a given label image together with the
    predicate that says what those filters produce. */
module AutocontourKnee {
  import opened Volumes
  import opened Connectivity
  import Labelling

  /** The default foreground value; the background value is always 0. */
  const InValue := 127

  /** _invert_binary_image: the foreground value exactly where the image
      does not hold it. */
  function Invert(img: Volume, f: int): (r: Volume)
    ensures r.Keys == img.Keys && IsBinary(r, f)
    ensures f != 0 ==> Support(r) == img.Keys - Level(img, f)
  {
    map i | i in img :: if img[i] != f then f else 0
  }

  /** Inverting twice keeps the foreground and clears every other value. */
  lemma InvertTwice(img: Volume, f: int)
    ensures Invert(Invert(img, f), f) == Indicator(img.Keys, Level(img, f), f)
  {
  }

  /** On a mask of 0 and f the inversion is an involution. */
  lemma InvertInvolution(img: Volume, f: int)
    requires IsBinary(img, f)
    ensures Invert(Invert(img, f), f) == img
  {
    InvertTwice(img, f);
  }

  /** `f * (labels == k)`: the voxels carrying label k. */
  function KeepLabel(labels: Volume, k: int, f: int): (r: Volume)
    ensures r.Keys == labels.Keys && IsBinary(r, f)
    ensures f != 0 ==> Support(r) == Level(labels, k)
  {
    Indicator(labels.Keys, Level(labels, k), f)
  }

  /** rel is what ConnectedComponent (fully connected) followed by
      RelabelComponent with sortByObjectSize produces for the object s: the
      components of s carry the labels 1, 2, ... without gaps, a smaller
      label never going to a smaller component. */
  predicate SizeSorted(rel: Volume, s: set<Idx>) {
    Labelling.LabelsComponents(rel, Full, s) &&
    (forall i, j :: i in s && j in s && rel[i] < rel[j] ==> |Component(Full, s, j)| <= |Component(Full, s, i)|) &&
    (forall i :: i in s && rel[i] > 1 ==> exists j :: j in s && rel[j] == rel[i] - 1)
  }

  /** Below every label of a gap-free labelling lies the label 1. */
  lemma {:induction false} LabelOneExists(rel: Volume, s: set<Idx>, i: Idx)
    requires SizeSorted(rel, s) && i in s
    ensures exists j :: j in s && rel[j] == 1
    decreases rel[i]
  {
    assert i in Support(rel);
    if rel[i] > 1 {
      var j :| j in s && rel[j] == rel[i] - 1;
      LabelOneExists(rel, s, j);
    }
  }

  /** In a component labelling, the voxels carrying a voxel's label are its
      component. */
  lemma LevelIsComponent(rel: Volume, s: set<Idx>, i: Idx)
    requires Labelling.LabelsComponents(rel, Full, s) && i in s
    ensures Level(rel, rel[i]) == Component(Full, s, i)
  {
    assert i in Support(rel);
    forall j | j in Level(rel, rel[i]) ensures j in Component(Full, s, i) {
      assert j in Support(rel);
    }
  }

  /** _get_largest_connected_component: the voxels labelled 1 after the
      size-sorted relabelling. They form one whole component of the object
      (none when the object is empty), and no component is larger. */
  function LargestComponent(img: Volume, rel: Volume, f: int): (r: Volume)
    requires rel.Keys == img.Keys && SizeSorted(rel, Support(img))
    ensures r.Keys == img.Keys && IsBinary(r, f)
    ensures f != 0 ==> Support(r) <= Support(img)
    ensures f != 0 && Support(img) == {} ==> Support(r) == {}
    ensures f != 0 && Support(img) != {} ==> exists i :: i in Support(img) && Support(r) == Component(Full, Support(img), i)
    ensures f != 0 ==> forall i, j :: i in Support(r) && j in Support(img) ==>
      |Component(Full, Support(img), j)| <= |Component(Full, Support(img), i)|
  {
    var s := Support(img);
    var r := KeepLabel(rel, 1, f);
    if f != 0 && s != {} then
      LargestIsLabelOne(rel, s);
      r
    else r
  }

  lemma LargestIsLabelOne(rel: Volume, s: set<Idx>)
    requires SizeSorted(rel, s) && s != {}
    ensures exists i :: i in s && Level(rel, 1) == Component(Full, s, i)
    ensures forall i, j :: i in Level(rel, 1) && j in s ==> |Component(Full, s, j)| <= |Component(Full, s, i)|
  {
    var i0 :| i0 in s;
    LabelOneExists(rel, s, i0);
    var i :| i in s && rel[i] == 1;
    LevelIsComponent(rel, s, i);
    forall k, j | k in Level(rel, 1) && j in s
      ensures |Component(Full, s, j)| <= |Component(Full, s, k)|
    {
      assert k in Support(rel) && j in Support(rel);
      if rel[j] == 1 {
        ComponentShared(Full, s, k, j);
      }
    }
  }

  /** _extract_large_regions: RelabelComponent with a minimum object size
      drops the labels of fewer voxels, and the remaining labels are set to
      the foreground value. */
  function ExtractLargeRegions(img: Volume, cc: Volume, minSize: int, f: int): (r: Volume)
    requires cc.Keys == img.Keys && Labelling.LabelsComponents(cc, Full, Support(img))
    ensures r.Keys == img.Keys && IsBinary(r, f)
    ensures f != 0 ==> Support(r) == SizeFilter(Full, Support(img), minSize)
  {
    var r := map i | i in cc :: if cc[i] != 0 && |Level(cc, cc[i])| >= minSize then f else 0;
    assert f != 0 ==> Support(r) == SizeFilter(Full, Support(img), minSize) by {
      if f != 0 {
        forall i | i in Support(img) ensures |Level(cc, cc[i])| == |Component(Full, Support(img), i)| {
          LevelIsComponent(cc, Support(img), i);
        }
      }
    }
    r
  }

  /** The region filter keeps or drops whole components. */
  lemma LargeRegionsWhole(img: Volume, cc: Volume, minSize: int, f: int, i: Idx, j: Idx)
    requires cc.Keys == img.Keys && Labelling.LabelsComponents(cc, Full, Support(img))
    requires f != 0 && j in Component(Full, Support(img), i)
    ensures i in Support(ExtractLargeRegions(img, cc, minSize, f)) <==> j in Support(ExtractLargeRegions(img, cc, minSize, f))
  {
    SizeFilterWholeComponents(Full, Support(img), minSize, i, j);
  }

  /** Invert, keep the largest background component, invert back: the
      hole filling at the middle of step 1 and of the closing with
      connected components. What stays background is the largest
      component of the background; the foreground is kept. */
  function FillHoles(img: Volume, relBg: Volume, f: int): (r: Volume)
    requires relBg.Keys == img.Keys && SizeSorted(relBg, Support(Invert(img, f)))
    ensures r.Keys == img.Keys && IsBinary(r, f)
    ensures f != 0 ==> Level(img, f) <= Support(r)
    ensures f != 0 && Support(r) != img.Keys ==>
      exists i :: i in img && img[i] != f && img.Keys - Support(r) == Component(Full, img.Keys - Level(img, f), i)
  {
    var bg := Invert(img, f);
    var r := Invert(LargestComponent(bg, relBg, f), f);
    assert f != 0 ==> img.Keys - Support(r) == Support(LargestComponent(bg, relBg, f)) by {
      if f != 0 {
        var l := LargestComponent(bg, relBg, f);
        assert forall i :: i in l ==> (l[i] == f <==> l[i] != 0);
      }
    }
    r
  }

  /** `f * ((s2 == f) != (s3 == f))`: the voxels where the step-2 and the
      step-3 masks disagree. */
  function Diff(s2: Volume, s3: Volume, f: int): (r: Volume)
    requires SameGrid(s2, s3)
    ensures r.Keys == s2.Keys && IsBinary(r, f)
    ensures f != 0 ==> Support(r) == (Level(s2, f) - Level(s3, f)) + (Level(s3, f) - Level(s2, f))
  {
    map i | i in s2 :: if (s2[i] == f) != (s3[i] == f) then f else 0
  }

  /** Adding the disagreement to step 3 gives the union of steps 2 and 3. */
  lemma DiffCompletesUnion(s2: Volume, s3: Volume, f: int)
    requires SameGrid(s2, s3) && f != 0
    ensures Level(s3, f) + Support(Diff(s2, s3, f)) == Level(s2, f) + Level(s3, f)
  {
  }

  /** `f * Or(s3 == f, d == f)`. */
  function Union(s3: Volume, d: Volume, f: int): (r: Volume)
    requires SameGrid(s3, d)
    ensures r.Keys == s3.Keys && IsBinary(r, f)
    ensures f != 0 ==> Support(r) == Level(s3, f) + Level(d, f)
  {
    map i | i in s3 :: if s3[i] == f || d[i] == f then f else 0
  }

  /** A morphological filter that never clears a foreground voxel, as a
      closing does. */
  ghost predicate Extensive(close: Volume -> Volume, f: int) {
    forall v: Volume, i :: i in v && v[i] == f ==> i in close(v) && close(v)[i] == f
  }

  /** sitk.Mask with the default values: 0 wherever m is 0. */
  function MaskBy(a: Volume, m: Volume): (r: Volume)
    requires SameGrid(a, m)
    ensures r.Keys == a.Keys
    ensures Support(r) == Support(a) * Support(m)
    ensures forall i :: i in r && m[i] != 0 ==> r[i] == a[i]
  {
    Mask(a, m, 0, 0)
  }

  /** Step 4 of get_periosteal_mask: the step-2/step-3 disagreement is
      opened and added to step 3, the result closed and masked by the rough
      step-1 mask. The final mask lies inside the rough mask, and with an
      extensive closing it holds every step-3 voxel of the rough mask. */
  function PeriostealStep4(s1: Volume, s2: Volume, s3: Volume, open: Volume -> Volume, close: Volume -> Volume, f: int): (peri: Volume)
    requires s2.Keys == s1.Keys && s3.Keys == s1.Keys
    requires forall v :: open(v).Keys == v.Keys
    requires forall v :: close(v).Keys == v.Keys
    ensures peri.Keys == s1.Keys
    ensures Support(peri) <= Support(s1)
    ensures f != 0 && Extensive(close, f) ==> Level(s3, f) * Support(s1) <= Level(peri, f)
  {
    var diffOpen := open(Diff(s2, s3, f));
    var united := Union(s3, diffOpen, f);
    var closed := close(united);
    var peri := MaskBy(closed, s1);
    assert f != 0 && Extensive(close, f) ==> Level(s3, f) * Support(s1) <= Level(peri, f) by {
      if f != 0 && Extensive(close, f) {
        forall i | i in Level(s3, f) * Support(s1) ensures i in Level(peri, f) {
          assert i in united && united[i] == f;
        }
      }
    }
    peri
  }

  /** `f * And(a, Not(b))` as written: Not yields 1 on background and 0
      elsewhere, and And is the bitwise and of the pixel values. */
  function AndNotAsWritten(a: Volume, b: Volume, f: int): (r: Volume)
    requires SameGrid(a, b) && NonNegative(a)
    ensures r.Keys == a.Keys
  {
    map i | i in a :: f * BitAnd(a[i], if b[i] == 0 then 1 else 0)
  }

  /** With an odd foreground value (the default 127), the bitwise form is
      the set difference a minus b. */
  lemma AndNotOdd(a: Volume, b: Volume, f: int)
    requires SameGrid(a, b) && IsBinary(a, f) && f > 0 && f % 2 == 1
    ensures AndNotAsWritten(a, b, f) == AndNot(a, b, f)
  {
    assert BitAnd(f, 1) == 1;
  }

  /** With an even foreground value, 127 & 1 becomes f & 1 == 0: the
      difference is empty whatever a and b hold. */
  lemma AndNotEven(a: Volume, b: Volume, f: int)
    requires SameGrid(a, b) && IsBinary(a, f) && f > 0 && f % 2 == 0
    ensures Support(AndNotAsWritten(a, b, f)) == {}
  {
    assert BitAnd(f, 1) == 0;
  }

  /** An even foreground value empties the endosteal first guess even
      where the periosteal mask has no cortex. */
  lemma EvenForegroundLosesDifference()
    ensures Support(AndNot(map[Idx(0, 0, 0) := 126], map[Idx(0, 0, 0) := 0], 126)) == {Idx(0, 0, 0)}
    ensures Support(AndNotAsWritten(map[Idx(0, 0, 0) := 126], map[Idx(0, 0, 0) := 0], 126)) == {}
  {
    var a: Volume := map[Idx(0, 0, 0) := 126];
    var b: Volume := map[Idx(0, 0, 0) := 0];
    AndNotEven(a, b, 126);
  }

  /** The voxels of a outside b, with the foreground value f whatever it is. */
  function AndNot(a: Volume, b: Volume, f: int): (r: Volume)
    requires SameGrid(a, b)
    ensures r.Keys == a.Keys && IsBinary(r, f)
    ensures f != 0 ==> Support(r) == Support(a) - Support(b)
  {
    map i | i in a :: if a[i] != 0 && b[i] == 0 then f else 0
  }

  /** The first endosteal guess: the periosteal mask less the thresholded
      cortex, masked by the eroded periosteal mask. */
  function EndoFirstGuess(peri: Volume, cort: Volume, periEroded: Volume, f: int): (r: Volume)
    requires SameGrid(peri, cort) && SameGrid(peri, periEroded)
    ensures r.Keys == peri.Keys && IsBinary(r, f)
    ensures f != 0 ==> Support(r) == (Support(peri) - Support(cort)) * Support(periEroded)
  {
    MaskBy(AndNot(peri, cort, f), periEroded)
  }

  /** The first trabecular guess: the first endosteal guess is inverted,
      its largest background component kept as a cortex and masked by the
      periosteal mask, and the periosteal mask less that cortex taken. It
      lies in the periosteal mask and holds the endosteal guess. */
  function TrabFirstGuess(peri: Volume, endo: Volume, rel: Volume, f: int): (trab: Volume)
    requires SameGrid(peri, endo) && rel.Keys == endo.Keys
    requires SizeSorted(rel, Support(Invert(endo, f)))
    ensures trab.Keys == peri.Keys && IsBinary(trab, f)
    ensures f != 0 ==> Support(trab) <= Support(peri)
    ensures f != 0 ==> Level(endo, f) * Support(peri) <= Support(trab)
  {
    var cort := MaskBy(LargestComponent(Invert(endo, f), rel, f), peri);
    AndNot(peri, cort, f)
  }

  /** The end of get_endosteal_mask: the closed trabecular mask is masked
      by the eroded periosteal mask, and the cortex is the periosteal mask
      less the trabecular region. The trabecular region keeps the minimum
      cortical thickness, the cortex lies in the periosteal mask apart from
      the trabecular region, and when the erosion stays inside the
      periosteal mask the two split it exactly. */
  function EndostealSplit(peri: Volume, periEroded: Volume, trabClosed: Volume, f: int): (r: (Volume, Volume))
    requires SameGrid(peri, periEroded) && SameGrid(peri, trabClosed)
    ensures r.0.Keys == peri.Keys && r.1.Keys == peri.Keys && IsBinary(r.0, f)
    ensures Support(r.1) <= Support(periEroded)
    ensures f != 0 ==> Support(r.0) <= Support(peri) && Support(r.0) * Support(r.1) == {}
    ensures f != 0 && Support(periEroded) <= Support(peri) ==> Support(r.0) + Support(r.1) == Support(peri)
  {
    var trab := MaskBy(trabClosed, periEroded);
    (AndNot(peri, trab, f), trab)
  }
}
