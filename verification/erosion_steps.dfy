/** ErosionDetection's Erosion: cortical breaks and the erosions behind
    them in ten numbered steps. Steps 1-5 find gaps in the cortical shell
    (the mask minus an eroded inner contour) that join the background to
    the trabecular region marked by a seed; steps 6-10 grow void volumes
    from those breaks into the inner region. Erosion, dilation and the
    distance maps enter as given images. */
module ErosionSteps {
  import opened Wrappers
  import opened Volumes
  import opened Connectivity
  import ContourLogic
  import Cropping

  /** Breaks smaller than this many voxels are removed. */
  const MinBreakSize := 48
  /** Void seeds lie at least this far from bone; voids regrow this far. */
  const VoidDistance := 6
  const StepNum := 10
  /** The voxel the background flood starts from. */
  const Corner := Idx(0, 0, 0)

  /** The three masks maskBreaks derives from the mask and its eroded
      inner contour. */
  datatype Masks = Masks(inner: Volume, cortical: Volume, background: Volume)

  /** The masks for a 0/1 mask and an inner contour inside it. */
  predicate MasksOf(m: Masks, contour: Volume) {
    m.inner.Keys == contour.Keys && m.cortical.Keys == contour.Keys && m.background.Keys == contour.Keys &&
    IsBinary(m.inner, 1) && IsBinary(m.cortical, 1) && IsBinary(m.background, 1) &&
    Support(m.inner) <= Support(contour) &&
    Support(m.cortical) == Support(contour) - Support(m.inner) &&
    Support(m.background) == contour.Keys - Support(contour)
  }

  /** maskBreaks' mask algebra: cortical = mask - inner, background =
      inverted mask. */
  function CorticalMasks(contour: Volume, inner: Volume): (m: Masks)
    requires SameGrid(contour, inner) && IsBinary(contour, 1) && IsBinary(inner, 1)
    requires Support(inner) <= Support(contour)
    ensures MasksOf(m, contour) && m.inner == inner
  {
    var cortical := Sub(contour, inner);
    forall i | i in cortical ensures cortical[i] == 0 || cortical[i] == 1 {
      assert cortical[i] == contour[i] - inner[i];
      if inner[i] == 1 {
        assert i in Support(inner);
      }
    }
    Masks(inner, cortical, Invert(contour, 1))
  }

  /** maskBreaks' result: the bone inside the cortical shell. */
  function MaskBreaks(bone: Volume, m: Masks): (r: Volume)
    requires SameGrid(bone, m.cortical) && IsBinary(bone, 1) && IsBinary(m.cortical, 1)
    ensures r.Keys == bone.Keys && IsBinary(r, 1)
    ensures Support(r) == Support(bone) * Support(m.cortical)
  {
    MulBinary(bone, m.cortical);
    Mul(bone, m.cortical)
  }

  /** connectBreaks, first flood: from the corner voxel through the voxels
      that are neither cortical bone nor inner region. */
  function BreaksBackground(breaks: Volume, inner: Volume): (r: Volume)
    requires SameGrid(breaks, inner) && IsBinary(breaks, 1) && IsBinary(inner, 1)
    ensures r.Keys == breaks.Keys && IsBinary(r, 1)
    ensures Support(r) == Flood(Face, Level(Sub(Invert(breaks, 1), inner), 1), {Corner})
    ensures Support(r) <= breaks.Keys - Support(breaks) - Support(inner)
  {
    var open := Sub(Invert(breaks, 1), inner);
    assert Level(open, 1) <= breaks.Keys - Support(breaks) - Support(inner) by {
      forall i | i in Level(open, 1) ensures i in breaks.Keys - Support(breaks) - Support(inner) {
        assert open[i] == (1 - breaks[i]) - inner[i];
      }
    }
    Indicator(breaks.Keys, Flood(Face, Level(open, 1), {Corner}), 1)
  }

  /** connectBreaks' second image: background-connected gaps inside the
      mask, plus the inner region. */
  function BreaksTrabecular(bb: Volume, m: Masks): (r: Volume)
    requires SameGrid(bb, m.inner) && SameGrid(bb, m.background)
    ensures r.Keys == bb.Keys
  {
    Add(Sub(bb, m.background), m.inner)
  }

  /** The voxels of value 1 in the second image: only inner voxels and
      background-connected gaps inside the mask. */
  lemma TrabecularLevel(bb: Volume, contour: Volume, m: Masks)
    requires MasksOf(m, contour) && bb.Keys == contour.Keys && IsBinary(bb, 1)
    requires Support(bb) * Support(m.inner) == {}
    ensures Level(BreaksTrabecular(bb, m), 1) <= Support(m.inner) + (Support(bb) * Support(contour))
  {
    var r := BreaksTrabecular(bb, m);
    forall i | i in Level(r, 1) ensures i in Support(m.inner) + (Support(bb) * Support(contour)) {
      assert r[i] == bb[i] - m.background[i] + m.inner[i];
      if m.inner[i] == 0 {
        assert bb[i] == 1 && m.background[i] == 0;
        assert i in Support(bb) && i !in Support(m.background);
      } else {
        assert i in Support(m.inner);
      }
    }
  }

  /** connectBreaks: the gaps reached from the corner through non-bone
      voxels and, together with the inner region, from the seed; the inner
      region is then subtracted. */
  function ConnectBreaks(breaks: Volume, m: Masks, seed: Idx): (r: Volume)
    requires SameGrid(breaks, m.inner) && SameGrid(breaks, m.background)
    requires IsBinary(breaks, 1) && IsBinary(m.inner, 1)
    ensures r.Keys == breaks.Keys
    ensures Level(r, 1) ==
      Flood(Face, Level(BreaksTrabecular(BreaksBackground(breaks, m.inner), m), 1), {seed}) - Support(m.inner)
  {
    var bb := BreaksBackground(breaks, m.inner);
    var reached := Flood(Face, Level(BreaksTrabecular(bb, m), 1), {seed});
    var r := Sub(Indicator(breaks.Keys, reached, 1), m.inner);
    assert forall i :: i in r ==> r[i] == (if i in reached then 1 else 0) - m.inner[i];
    r
  }

  /** Every break connectBreaks reports is a non-bone voxel of the
      cortical shell. */
  lemma ConnectBreaksInShell(breaks: Volume, contour: Volume, m: Masks, seed: Idx)
    requires MasksOf(m, contour) && breaks.Keys == contour.Keys && IsBinary(breaks, 1)
    ensures Level(ConnectBreaks(breaks, m, seed), 1) <= Support(m.cortical) - Support(breaks)
  {
    var bb := BreaksBackground(breaks, m.inner);
    TrabecularLevel(bb, contour, m);
  }

  /** dilateBreaks: the dilated breaks (given) inside the cortical shell,
      keeping only face-connected pieces of at least 48 voxels. The source
      then keeps labels 1..10000 only, so beyond 10000 such pieces the
      smallest are dropped; that cap is not modelled. */
  function DilateBreaks(dilated: Volume, cortical: Volume): (r: Volume)
    requires SameGrid(dilated, cortical)
    ensures r.Keys == cortical.Keys && IsBinary(r, 1)
    ensures Support(r) <= Support(dilated) * Support(cortical)
    ensures forall i :: i in Support(r) <==>
      i in Support(dilated) * Support(cortical) &&
      |Component(Face, Support(dilated) * Support(cortical), i)| >= MinBreakSize
  {
    Indicator(cortical.Keys, SizeFilter(Face, Support(dilated) * Support(cortical), MinBreakSize), 1)
  }

  /** maskVoidVolume: 0 marks the non-bone voxels of the region of interest
      (dilated breaks, given, inside the mask); every other voxel is 1. */
  function MaskVoidVolume(bone: Volume, dilated: Volume, contour: Volume): (r: Volume)
    requires bone.Keys == dilated.Keys == contour.Keys
    requires IsBinary(bone, 1) && IsBinary(dilated, 1) && IsBinary(contour, 1)
    ensures r.Keys == bone.Keys && IsBinary(r, 1)
    ensures Level(r, 0) == Support(dilated) * Support(contour) - Support(bone)
  {
    var roi := Mul(dilated, contour);
    var voids := Mul(roi, bone);
    var r := Add(voids, Invert(roi, 1));
    forall i | i in r
      ensures (r[i] == 0 || r[i] == 1) && (r[i] == 0 <==> dilated[i] != 0 && contour[i] != 0 && bone[i] == 0)
    {
      assert roi[i] == dilated[i] * contour[i] && r[i] == roi[i] * bone[i] + (1 - roi[i]);
      VoidValue(dilated[i], contour[i], bone[i]);
    }
    r
  }

  /** One voxel of maskVoidVolume: (roi * bone) + (1 - roi) on 0/1 values. */
  lemma VoidValue(dil: int, con: int, bone: int)
    requires (dil == 0 || dil == 1) && (con == 0 || con == 1) && (bone == 0 || bone == 1)
    ensures var roi := dil * con; var v := roi * bone + (1 - roi);
      (v == 0 || v == 1) && (v == 0 <==> dil != 0 && con != 0 && bone == 0)
  {
  }

  /** The box's origin, where the cropped image sits in the full one. */
  function BoxOrigin(b: ContourLogic.BBox): Idx {
    Idx(b.x0, b.y0, b.z0)
  }

  function BoxGrid(b: ContourLogic.BBox): set<Idx> {
    Grid(ContourLogic.Width(b), ContourLogic.Height(b), ContourLogic.Depth(b))
  }

  /** The crop of v to the box, re-indexed from 0. */
  function CropBox(v: Volume, w: int, h: int, d: int, b: ContourLogic.BBox): (r: Volume)
    requires v.Keys == Grid(w, h, d) && ContourLogic.BoxFits(b, w, h, d)
    ensures r.Keys == BoxGrid(b)
    ensures forall j :: j in r ==> r[j] == v[Cropping.Plus(j, BoxOrigin(b))]
  {
    map j | j in BoxGrid(b) :: v[Cropping.Plus(j, BoxOrigin(b))]
  }

  /** The regrown voids: within 6 of the deep void seeds (the distance map
      from the seeds, on the cropped grid, is given). */
  function Regrown(dist: Field): (r: Volume)
    ensures r.Keys == dist.Keys && IsBinary(r, 1)
    ensures Support(r) == set j | j in dist && 0.0 <= dist[j] <= VoidDistance as real
  {
    Band(dist, 0.0, VoidDistance as real, 1)
  }

  /** The deep void seeds: at least 6 from bone (the distance map of the
      cropped image is given). */
  function VoidSeeds(dist: Field): (r: Volume)
    ensures r.Keys == dist.Keys && IsBinary(r, 1)
    ensures Support(r) == set j | j in dist && VoidDistance as real <= dist[j] <= 100000.0
  {
    Band(dist, VoidDistance as real, 100000.0, 1)
  }

  /** PasteImage: src written into dest at the offset, clipped to dest. */
  function Paste(dest: Volume, src: Volume, at: Idx): (r: Volume)
    ensures r.Keys == dest.Keys
    ensures forall j :: j in r && Cropping.Plus(j, Neg(at)) in src ==> r[j] == src[Cropping.Plus(j, Neg(at))]
    ensures forall j :: j in r && Cropping.Plus(j, Neg(at)) !in src ==> r[j] == dest[j]
  {
    map j | j in dest :: if Cropping.Plus(j, Neg(at)) in src then src[Cropping.Plus(j, Neg(at))] else dest[j]
  }

  function Neg(i: Idx): Idx {
    Idx(-i.x, -i.y, -i.z)
  }

  /** distanceVoidVolume as written: the regrown voids overwrite the name
      of the image meant to receive them, so the crop is pasted onto the
      regrown voids and the result has the box's size. */
  function DistanceVoidAsWritten(v: Volume, w: int, h: int, d: int, b: ContourLogic.BBox, dist: Field): (r: Volume)
    requires v.Keys == Grid(w, h, d) && ContourLogic.BoxFits(b, w, h, d) && dist.Keys == BoxGrid(b)
    ensures r.Keys == BoxGrid(b)
  {
    Paste(Regrown(dist), CropBox(v, w, h, d, b), BoxOrigin(b))
  }

  /** When the box starts at the corner the as-written step returns the
      crop of its input: the distance selection is lost. When the box is
      also the whole image, the step returns its input unchanged. */
  lemma DistanceAsWrittenReturnsCrop(v: Volume, w: int, h: int, d: int, b: ContourLogic.BBox, dist: Field)
    requires v.Keys == Grid(w, h, d) && ContourLogic.BoxFits(b, w, h, d) && dist.Keys == BoxGrid(b)
    requires BoxOrigin(b) == Corner
    ensures DistanceVoidAsWritten(v, w, h, d, b, dist) == CropBox(v, w, h, d, b)
  {
    PasteAtCorner(Regrown(dist), CropBox(v, w, h, d, b));
  }

  /** Pasting an image of the same size at the corner replaces it. */
  lemma PasteAtCorner(dest: Volume, src: Volume)
    requires dest.Keys == src.Keys
    ensures Paste(dest, src, Corner) == src
  {
    var r := Paste(dest, src, Corner);
    forall j | j in r ensures r[j] == src[j] {
      assert Cropping.Plus(j, Neg(Corner)) == j;
    }
  }

  /** The crop to the whole image is the image itself. */
  lemma CropWhole(v: Volume, w: int, h: int, d: int)
    requires v.Keys == Grid(w, h, d) && 0 < w && 0 < h && 0 < d
    ensures CropBox(v, w, h, d, ContourLogic.BBox(0, w - 1, 0, h - 1, 0, d - 1)) == v
  {
    var b := ContourLogic.BBox(0, w - 1, 0, h - 1, 0, d - 1);
    var c := CropBox(v, w, h, d, b);
    assert c.Keys == v.Keys;
    forall j | j in c ensures c[j] == v[j] {
      assert Cropping.Plus(j, BoxOrigin(b)) == j;
    }
  }

  /** The usual case: the box of label 1 is the whole image, and the
      as-written step hands back its input unchanged. */
  lemma DistanceAsWrittenIdentity(v: Volume, w: int, h: int, d: int, dist: Field)
    requires v.Keys == Grid(w, h, d) && 0 < w && 0 < h && 0 < d
    requires dist.Keys == Grid(w, h, d)
    ensures DistanceVoidAsWritten(v, w, h, d, ContourLogic.BBox(0, w - 1, 0, h - 1, 0, d - 1), dist) == v
  {
    DistanceAsWrittenReturnsCrop(v, w, h, d, ContourLogic.BBox(0, w - 1, 0, h - 1, 0, d - 1), dist);
    CropWhole(v, w, h, d);
  }

  /** A box smaller than the image gives an as-written result of another
      size, which step 8's voxel-wise or with the breaks then rejects. */
  lemma DistanceAsWrittenShrinks(v: Volume, w: int, h: int, d: int, b: ContourLogic.BBox, dist: Field)
    requires v.Keys == Grid(w, h, d) && ContourLogic.BoxFits(b, w, h, d) && dist.Keys == BoxGrid(b)
    requires ContourLogic.Width(b) < w
    ensures !SameGrid(DistanceVoidAsWritten(v, w, h, d, b, dist), v)
  {
    assert Idx(w - 1, 0, 0) in v.Keys;
    assert Idx(w - 1, 0, 0) !in BoxGrid(b);
  }

  /** distanceVoidVolume as intended: the regrown voids pasted back into
      the full image at the box origin; voxels outside the box keep the
      input's value. */
  function DistanceVoid(v: Volume, w: int, h: int, d: int, b: ContourLogic.BBox, dist: Field): (r: Volume)
    requires v.Keys == Grid(w, h, d) && ContourLogic.BoxFits(b, w, h, d) && dist.Keys == BoxGrid(b)
    ensures r.Keys == v.Keys
    ensures forall j :: j in r && ContourLogic.InBox(b, j) ==>
      (r[j] == 1 <==> 0.0 <= dist[Cropping.Plus(j, Neg(BoxOrigin(b)))] <= VoidDistance as real)
    ensures forall j :: j in r && !ContourLogic.InBox(b, j) ==> r[j] == v[j]
  {
    var regrown := Regrown(dist);
    var r := Paste(v, regrown, BoxOrigin(b));
    forall j | j in r ensures ContourLogic.InBox(b, j) <==> Cropping.Plus(j, Neg(BoxOrigin(b))) in regrown {
    }
    r
  }

  /** The intended step keeps 0/1 images 0/1. */
  lemma DistanceVoidBinary(v: Volume, w: int, h: int, d: int, b: ContourLogic.BBox, dist: Field)
    requires v.Keys == Grid(w, h, d) && ContourLogic.BoxFits(b, w, h, d) && dist.Keys == BoxGrid(b)
    requires IsBinary(v, 1)
    ensures IsBinary(DistanceVoid(v, w, h, d, b, dist), 1)
  {
    var r := DistanceVoid(v, w, h, d, b, dist);
    var regrown := Regrown(dist);
    forall j | j in r ensures r[j] == 0 || r[j] == 1 {
      if Cropping.Plus(j, Neg(BoxOrigin(b))) in regrown {
        assert r[j] == regrown[Cropping.Plus(j, Neg(BoxOrigin(b)))];
      }
    }
  }

  /** erodeVoidVolume: the eroded voids (given) or-ed with the breaks. */
  function ErodeVoid(eroded: Volume, breaks: Volume): (r: Volume)
    requires SameGrid(eroded, breaks) && NonNegative(eroded) && NonNegative(breaks)
    ensures r.Keys == eroded.Keys && NonNegative(r)
    ensures Support(r) == Support(eroded) + Support(breaks)
  {
    Or(eroded, breaks)
  }

  /** connectVoidVolume: the face-connected object of voids and background
      that holds the given voxel `largest`, inside the inner region. Which
      object the size-sorted relabelling ranks first is not modelled; it
      enters as that voxel. */
  function ConnectVoid(erosion: Volume, m: Masks, largest: Idx): (r: Volume)
    requires SameGrid(erosion, m.background) && SameGrid(erosion, m.inner)
    requires IsBinary(m.inner, 1)
    ensures r.Keys == erosion.Keys && IsBinary(r, 1)
    ensures Support(r) == Component(Face, Support(Add(erosion, m.background)), largest) * Support(m.inner)
    ensures Support(r) <= Support(m.inner)
  {
    var obj := Component(Face, Support(Add(erosion, m.background)), largest);
    var picked := Indicator(erosion.Keys, obj, 1);
    MulBinary(picked, m.inner);
    Mul(picked, m.inner)
  }

  /** dilateVoidVolume: the dilated voids (given) inside the inner region,
      plus the breaks. */
  function DilateVoid(dilated: Volume, inner: Volume, breaks: Volume): (r: Volume)
    requires dilated.Keys == inner.Keys == breaks.Keys
    requires IsBinary(dilated, 1) && IsBinary(inner, 1) && NonNegative(breaks)
    ensures r.Keys == inner.Keys
    ensures Support(r) == Support(dilated) * Support(inner) + Support(breaks)
  {
    MulBinary(dilated, inner);
    Add(Mul(dilated, inner), breaks)
  }

  datatype State = State(
    model: Volume, contour: Volume, w: int, h: int, d: int,
    masks: Option<Masks>, output: Option<Volume>,
    lower: int, upper: int, seed: Option<Idx>, step: int)

  /** The constructor with its default thresholds 2900..10000. */
  function New(img: Volume, contour: Volume, w: int, h: int, d: int, seed: Option<Idx>): (s: State)
    ensures s.step == 0 && s.lower == 2900 && s.upper == 10000
    ensures s.model == img && s.contour == contour && s.seed == seed
    ensures s.masks.None? && s.output.None?
  {
    State(img, contour, w, h, d, None, None, 2900, 10000, seed, 0)
  }

  /** What holds after each completed step. */
  predicate StateOk(s: State) {
    var g := s.contour.Keys;
    0 <= s.step <= StepNum && g == Grid(s.w, s.h, s.d) && s.model.Keys == g && IsBinary(s.contour, 1) &&
    (1 <= s.step <= 7 ==> IsBinary(s.model, 1)) &&
    (s.step >= 8 ==> NonNegative(s.model)) &&
    (s.step >= 2 ==> s.masks.Some? && MasksOf(s.masks.value, s.contour) &&
                     s.output.Some? && s.output.value.Keys == g) &&
    (2 <= s.step <= 3 ==> IsBinary(s.output.value, 1)) &&
    (5 <= s.step <= 9 ==> IsBinary(s.output.value, 1) && Support(s.output.value) <= Support(s.masks.value.cortical)) &&
    (s.step == 10 ==> Support(s.output.value) <= Support(s.contour))
  }

  /** The grid, thresholds and seed, which no step changes. */
  predicate SameSetup(t: State, s: State) {
    t.w == s.w && t.h == s.h && t.d == s.d && t.lower == s.lower && t.upper == s.upper && t.seed == s.seed
  }

  /** The filters the model leaves abstract: the eroded inner contour, the
      dilations of steps 3, 5, 6 and 10, the bounding box of label 1 with
      the distance map from the void seeds on it, the eroded voids and a
      voxel of the largest object of step 9. */
  datatype Env = Env(
    inner: Volume, dilated3: Volume, dilated5: Volume, dilated6: Volume,
    box: ContourLogic.BBox, dist: Field, eroded: Volume, largest: Idx, dilated10: Volume)

  predicate EnvOk(s: State, e: Env) {
    var g := s.contour.Keys;
    e.inner.Keys == g && e.dilated3.Keys == g && e.dilated5.Keys == g && e.dilated6.Keys == g &&
    e.eroded.Keys == g && e.dilated10.Keys == g &&
    IsBinary(e.inner, 1) && Support(e.inner) <= Support(s.contour) &&
    IsBinary(e.dilated3, 1) && IsBinary(e.dilated6, 1) && IsBinary(e.eroded, 1) && IsBinary(e.dilated10, 1) &&
    ContourLogic.BoxFits(e.box, s.w, s.h, s.d) && e.dist.Keys == BoxGrid(e.box)
  }

  /** execute(): advance the counter and run that step; past step 10 reset
      it to 0 and report False. Without a seed, step 4 raises, leaving the
      counter at 4 (Failure carries that state). */
  function Execute(s: State, e: Env): (r: Result<(State, bool), State>)
    requires StateOk(s) && EnvOk(s, e)
    ensures r.Failure? <==> s.step == 3 && s.seed.None?
    ensures r.Failure? ==> r.error == s.(step := 4)
    ensures r.Success? ==> StateOk(r.value.0) && r.value.0.contour == s.contour && SameSetup(r.value.0, s)
    ensures r.Success? ==> (r.value.1 <==> s.step < StepNum)
    ensures r.Success? ==> r.value.0.step == if s.step < StepNum then s.step + 1 else 0
    ensures r.Success? && s.step == 0 ==>
      forall i :: i in s.model ==> (r.value.0.model[i] == 1 <==> s.lower <= s.model[i] <= s.upper)
    ensures r.Success? && s.step == 3 ==>
      s.masks.Some? && s.output.Some? && r.value.0.output.Some? &&
      Level(r.value.0.output.value, 1) <= Support(s.masks.value.cortical) - Support(s.output.value)
    ensures r.Success? && s.step == 9 ==>
      s.masks.Some? && s.output.Some? && r.value.0.output.Some? &&
      Support(r.value.0.output.value) == Support(e.dilated10) * Support(e.inner) + Support(s.output.value)
  {
    var step := s.step + 1;
    if step == 1 then Success((s.(model := Threshold(s.model, s.lower, s.upper, 1), step := 1), true))
    else if step <= 5 then
      if step == 4 && s.seed.None? then Failure(s.(step := 4)) else Success((StepBreaks(s, e), true))
    else if step <= 10 then Success((StepVoids(s, e), true))
    else Success((s.(step := 0), false))
  }

  /** Steps 2-5: the cortical masks and the breaks. */
  function StepBreaks(s: State, e: Env): (r: State)
    requires StateOk(s) && EnvOk(s, e) && 1 <= s.step <= 4
    requires s.step == 3 ==> s.seed.Some?
    ensures StateOk(r) && r.step == s.step + 1 && r.contour == s.contour && r.model == s.model && SameSetup(r, s)
    ensures s.step == 3 ==> Level(r.output.value, 1) <= Support(s.masks.value.cortical) - Support(s.output.value)
  {
    if s.step == 1 then
      var m := CorticalMasks(s.contour, e.inner);
      s.(masks := Some(m), output := Some(MaskBreaks(s.model, m)), step := 2)
    else if s.step == 2 then
      var m := s.masks.value;
      MulBinary(e.dilated3, m.cortical);
      s.(output := Some(Mul(e.dilated3, m.cortical)), step := 3)
    else if s.step == 3 then
      ConnectBreaksInShell(s.output.value, s.contour, s.masks.value, s.seed.value);
      s.(output := Some(ConnectBreaks(s.output.value, s.masks.value, s.seed.value)), step := 4)
    else
      s.(output := Some(DilateBreaks(e.dilated5, s.masks.value.cortical)), step := 5)
  }

  /** Steps 6-10: the void volumes grown from the breaks, then joined to
      them. */
  function StepVoids(s: State, e: Env): (r: State)
    requires StateOk(s) && EnvOk(s, e) && 5 <= s.step <= 9
    ensures StateOk(r) && r.step == s.step + 1 && r.contour == s.contour && r.masks == s.masks && SameSetup(r, s)
    ensures s.step == 9 ==>
      Support(r.output.value) == Support(e.dilated10) * Support(e.inner) + Support(s.output.value)
  {
    if s.step <= 7 then SelectVoids(s, e) else JoinVoids(s, e)
  }

  /** Steps 6-8: mask, distance-select and erode the void volume. */
  function SelectVoids(s: State, e: Env): (r: State)
    requires StateOk(s) && EnvOk(s, e) && 5 <= s.step <= 7
    ensures StateOk(r) && r.step == s.step + 1 && r.contour == s.contour && r.masks == s.masks && SameSetup(r, s)
    ensures r.output == s.output
  {
    if s.step == 5 then
      s.(model := MaskVoidVolume(s.model, e.dilated6, s.contour), step := 6)
    else if s.step == 6 then
      DistanceVoidBinary(s.model, s.w, s.h, s.d, e.box, e.dist);
      s.(model := DistanceVoid(s.model, s.w, s.h, s.d, e.box, e.dist), step := 7)
    else
      s.(model := ErodeVoid(e.eroded, s.output.value), step := 8)
  }

  /** Steps 9-10: keep the largest void and join it to the breaks. */
  function JoinVoids(s: State, e: Env): (r: State)
    requires StateOk(s) && EnvOk(s, e) && 8 <= s.step <= 9
    ensures StateOk(r) && r.step == s.step + 1 && r.contour == s.contour && r.masks == s.masks && SameSetup(r, s)
    ensures s.step == 9 ==>
      Support(r.output.value) == Support(e.dilated10) * Support(e.inner) + Support(s.output.value)
  {
    if s.step == 8 then
      s.(model := ConnectVoid(s.model, s.masks.value, e.largest), step := 9)
    else
      var out := DilateVoid(e.dilated10, e.inner, s.output.value);
      s.(output := Some(out), step := 10)
  }

  /** The command-line driver: call execute until it reports False. */
  function Run(s: State, e: Env, fuel: nat): (r: Result<State, State>)
    requires StateOk(s) && EnvOk(s, e)
    ensures r.Success? ==> StateOk(r.value) && r.value.contour == s.contour
    decreases fuel
  {
    if fuel == 0 then Success(s)
    else
      var r := Execute(s, e);
      if r.Failure? then Failure(r.error)
      else if r.value.1 then Run(r.value.0, e, fuel - 1)
      else Success(r.value.0)
  }

  /** With a seed, eleven calls run the ten steps and report the end; the
      counter is back at 0 and the erosions lie inside the mask. */
  lemma {:induction false} RunCompletes(s: State, e: Env)
    requires StateOk(s) && EnvOk(s, e) && s.step == 0 && s.seed.Some?
    ensures Run(s, e, 11).Success?
    ensures Run(s, e, 11).value.step == 0 && Run(s, e, 11).value.output.Some?
    ensures Support(Run(s, e, 11).value.output.value) <= Support(s.contour)
  {
    var s1 := Turn(s, e, 11);
    var s2 := Turn(s1, e, 10);
    var s3 := Turn(s2, e, 9);
    var s4 := Turn(s3, e, 8);
    var s5 := Turn(s4, e, 7);
    RunVoids(s5, e);
  }

  /** From step 5 on, six calls run the void steps and report the end. */
  lemma RunVoids(s5: State, e: Env)
    requires StateOk(s5) && EnvOk(s5, e) && s5.step == 5
    ensures Run(s5, e, 6).Success?
    ensures Run(s5, e, 6).value.step == 0 && Run(s5, e, 6).value.output.Some?
    ensures Support(Run(s5, e, 6).value.output.value) <= Support(s5.contour)
  {
    var s6 := Turn(s5, e, 6);
    var s7 := Turn(s6, e, 5);
    var s8 := Turn(s7, e, 4);
    var s9 := Turn(s8, e, 3);
    var s10 := Turn(s9, e, 2);
    var s11 := s10.(step := 0);
    assert Execute(s10, e) == Success((s11, false));
    assert Run(s10, e, 1) == Success(s11);
  }

  /** One call of the driver loop below the last step: it hands the next
      state on with one call less. */
  lemma Turn(s: State, e: Env, fuel: nat) returns (t: State)
    requires StateOk(s) && EnvOk(s, e) && s.step < StepNum && fuel >= 1
    requires s.step == 3 ==> s.seed.Some?
    ensures StateOk(t) && EnvOk(t, e) && t.step == s.step + 1 && t.seed == s.seed && t.contour == s.contour
    ensures Run(s, e, fuel) == Run(t, e, fuel - 1)
  {
    var r := Execute(s, e);
    t := r.value.0;
    assert r == Success((t, true));
  }
}
