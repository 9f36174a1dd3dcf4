/** PetersCorticalBreakDetectionLogic: the cortical break detection of
    Peters et al. in twelve numbered steps, each run by execute(step).
    Steps 1-5 find the breaks in the cortical shell that join the
    background to the endosteal region; steps 6-11 select the large voids
    under them and join them to the breaks; step 12 places one seed point
    in each break. Gaussian smoothing, distance maps, dilations and
    erosions enter as given images. */
module PetersBreaks {
  import opened Wrappers
  import opened Volumes
  import opened Connectivity
  import PyNum
  import ContourLogic
  import Cropping
  import ErosionSteps
  import CB = CorticalBreaks

  const StepNum := 12

  /** dilateBreaks divides by the voxel size; 0 raises ZeroDivisionError. */
  datatype Error = ZeroVoxelSize

  datatype State = State(
    model: Volume, contour: Option<CB.Contour>,
    seg: Option<Volume>, masks: Option<ErosionSteps.Masks>,
    breaks: Option<Volume>, output: Option<Volume>,
    voxelSize: real, lower: int, upper: int, thickness: int, distance: int,
    seeds: seq<Idx>)

  /** The constructor without images, with its defaults: 82 micrometre
      voxels, thresholds 3000..10000, cortical thickness 4 and a
      dilate/erode distance of 1. The setters are record updates. */
  function Default(): (s: State)
    ensures s.contour.None? && s.seg.None? && s.masks.None? && s.breaks.None? && s.output.None? && s.seeds == []
    ensures s.voxelSize == 82.0 && s.lower == 3000 && s.upper == 10000 && s.thickness == 4 && s.distance == 1
  {
    State(map[], None, None, None, None, None, 82.0, 3000, 10000, 4, 1, [])
  }

  /** setContour on the object: only the contour (and bone count) change;
      a mask without a voxel in 1..255 raises. */
  function SetContour(s: State, contour: Volume, w: int, h: int, d: int, box: Option<ContourLogic.BBox>): (r: Option<State>)
    requires CB.BoxOf(contour, w, h, d, box)
    ensures r.None? <==> box.None?
    ensures r.Some? ==> r.value.contour == CB.SetContour(contour, w, h, d, box) && r.value.(contour := s.contour) == s
  {
    match CB.SetContour(contour, w, h, d, box)
    case None => None
    case Some(c) => Some(s.(contour := Some(c)))
  }

  /** setSeg: the bone segmentation, binarised (a value in 1..255 becomes
      1, the upper bound being BinaryThreshold's default). */
  function SetSeg(s: State, seg: Volume): (r: State)
    ensures r.seg.Some? && IsBinary(r.seg.value, 1) && r.seg.value.Keys == seg.Keys
    ensures Support(r.seg.value) == set i | i in seg && 1 <= seg[i] <= UpperDefault
    ensures r.(seg := s.seg) == s
  {
    s.(seg := Some(ThresholdAbove(seg, 1, 1)))
  }

  /** The command-line constructor: the scan, the parameters, and the
      contour set up from the mask. */
  function New(img: Volume, contour: Volume, w: int, h: int, d: int, box: Option<ContourLogic.BBox>,
               voxelSize: real, lower: int, upper: int, thickness: int, distance: int): (r: Option<State>)
    requires CB.BoxOf(contour, w, h, d, box)
    ensures r.None? <==> box.None?
    ensures r.Some? ==> StateOk(r.value, 0) && r.value.model == img && r.value.seeds == []
    ensures r.Some? ==> r.value.voxelSize == voxelSize && r.value.lower == lower && r.value.upper == upper
    ensures r.Some? ==> r.value.thickness == thickness && r.value.distance == distance
  {
    var s := Default().(model := img, voxelSize := voxelSize, lower := lower, upper := upper,
                        thickness := thickness, distance := distance);
    SetContour(s, contour, w, h, d, box)
  }

  /** The command-line constructor as written: the contour is set up by
      setContour as written, which loses the box's top slice and counts
      the background as a bone. */
  function NewAsWritten(img: Volume, contour: Volume, w: int, h: int, d: int, box: Option<ContourLogic.BBox>,
                        voxelSize: real, lower: int, upper: int, thickness: int, distance: int): (r: Option<State>)
    requires CB.BoxOf(contour, w, h, d, box)
    ensures r.None? <==> box.None?
    ensures r.Some? ==> StateOk(r.value, 0) && r.value.model == img && r.value.seeds == []
    ensures r.Some? ==> r.value.contour == CB.SetContourAsWritten(contour, w, h, d, box)
    ensures r.Some? ==> r.value.voxelSize == voxelSize && r.value.lower == lower && r.value.upper == upper
    ensures r.Some? ==> r.value.thickness == thickness && r.value.distance == distance
  {
    var s := Default().(model := img, voxelSize := voxelSize, lower := lower, upper := upper,
                        thickness := thickness, distance := distance);
    match CB.SetContourAsWritten(contour, w, h, d, box)
    case None => None
    case Some(c) => Some(s.(contour := Some(c)))
  }

  function Cube(x: real): real {
    x * x * x
  }

  /** dilateBreaks' minimum break size: 20 voxels at 82 micrometres,
      scaled by the cube of 82 / voxelSize and rounded. */
  function MinBreakSize(voxelSize: real): (n: int)
    requires voxelSize != 0.0
    ensures PyNum.Abs(n as real - 20.0 * Cube(82.0 / voxelSize)) <= 0.5
  {
    PyNum.Round(20.0 * Cube(82.0 / voxelSize))
  }

  /** 20 voxels at the default 82 micrometres, 49 at 60.7 micrometres. */
  lemma MinBreakSizes()
    ensures MinBreakSize(82.0) == 20
    ensures MinBreakSize(60.7) == 49
  {
    PyNum.RoundUnique(20.0 * Cube(82.0 / 82.0), 20);
    assert 82.0 / 60.7 == 820.0 / 607.0;
    PyNum.RoundUnique(20.0 * Cube(820.0 / 607.0), 49);
  }

  /** createROI: the voids inside the periosteal contour. */
  function CreateRoi(seg: Volume, peri: Volume): (r: Volume)
    requires SameGrid(seg, peri) && IsBinary(seg, 1) && IsBinary(peri, 1)
    ensures r.Keys == peri.Keys && IsBinary(r, 1)
    ensures Support(r) == Support(peri) - Support(seg)
  {
    var inv := Invert(seg, 1);
    MulBinary(peri, inv);
    Mul(peri, inv)
  }

  /** distanceVoidVolume: the voids farther than radius from non-void
      (near is their distance map), regrown by the voxels within radius of
      them (grown is the distance map of those deep voids). When the maps
      are distance maps of those images, positive only outside the object
      they measure from, the result is exactly the deep voids and the shell
      regrown around them. */
  function DistanceVoid(roi: Volume, near: Field, grown: Field, radius: int): (r: Volume)
    requires roi.Keys == near.Keys == grown.Keys && IsBinary(roi, 1)
    ensures r.Keys == roi.Keys
    ensures var band1 := set i | i in near && 1.0 <= near[i] <= radius as real;
      var band2 := set i | i in grown && 1.0 <= grown[i] <= radius as real;
      var deep := Support(roi) - band1;
      band1 <= Support(roi) && band2 * deep == {} ==> IsBinary(r, 1) && Support(r) == deep + band2
  {
    var shallow := Band(near, 1.0, radius as real, 1);
    var inner := Sub(roi, shallow);
    var outer := Band(grown, 1.0, radius as real, 1);
    var r := Add(outer, inner);
    assert forall i :: i in r ==> r[i] == outer[i] + roi[i] - shallow[i];
    DistanceVoidValues(roi, near, grown, radius, shallow, outer, r);
    r
  }

  /** The voxel-wise reading of DistanceVoid: outer + roi - shallow is 0
      or 1, and 1 exactly on the deep voids and the regrown band. */
  lemma DistanceVoidValues(roi: Volume, near: Field, grown: Field, radius: int, shallow: Volume, outer: Volume, r: Volume)
    requires roi.Keys == near.Keys == grown.Keys == r.Keys && IsBinary(roi, 1)
    requires shallow == Band(near, 1.0, radius as real, 1) && outer == Band(grown, 1.0, radius as real, 1)
    requires forall i :: i in r ==> r[i] == outer[i] + roi[i] - shallow[i]
    ensures var band1 := set i | i in near && 1.0 <= near[i] <= radius as real;
      var band2 := set i | i in grown && 1.0 <= grown[i] <= radius as real;
      var deep := Support(roi) - band1;
      band1 <= Support(roi) && band2 * deep == {} ==> IsBinary(r, 1) && Support(r) == deep + band2
  {
    var band1 := set i | i in near && 1.0 <= near[i] <= radius as real;
    var band2 := set i | i in grown && 1.0 <= grown[i] <= radius as real;
    var deep := Support(roi) - band1;
    if band1 <= Support(roi) && band2 * deep == {} {
      forall i | i in r ensures (r[i] == 0 || r[i] == 1) && (r[i] != 0 <==> i in deep + band2) {
        assert roi[i] == 0 || roi[i] == 1;
        assert roi[i] == 1 <==> i in Support(roi);
        assert shallow[i] == 0 || shallow[i] == 1;
        assert outer[i] == 0 || outer[i] == 1;
        assert shallow[i] == 1 <==> i in band1;
        assert outer[i] == 1 <==> i in band2;
        assert i in deep <==> roi[i] == 1 && shallow[i] == 0;
        assert i in deep + band2 <==> i in deep || i in band2;
        assert r[i] == outer[i] + roi[i] - shallow[i];
        assert i in band1 ==> i in Support(roi);
        assert i in band2 ==> i !in band2 * deep;
      }
    }
  }

  /** connectVoidVolume's object: the eroded voids, the dilated breaks off
      the bone, and the background. */
  function VoidObject(erode: Volume, dilated: Volume, seg: Volume, background: Volume): (r: set<Idx>)
    requires erode.Keys == dilated.Keys == seg.Keys == background.Keys
    requires IsBinary(erode, 1) && IsBinary(dilated, 1) && IsBinary(background, 1)
    ensures r == Support(erode) + (Support(dilated) - Level(seg, 1)) + Support(background)
  {
    var off := Mask(dilated, seg, 0, 1);
    assert forall i :: i in off ==> off[i] == if seg[i] == 1 then 0 else dilated[i];
    Support(Or(Or(erode, off), background))
  }

  /** connectVoidVolume: the eroded voids in the largest component of the
      object. */
  function ConnectVoid(erode: Volume, largest: set<Idx>): (r: Volume)
    requires IsBinary(erode, 1)
    ensures r.Keys == erode.Keys && IsBinary(r, 1)
    ensures Support(r) == largest * Support(erode)
  {
    var picked := Indicator(erode.Keys, largest, 1);
    MulBinary(picked, erode);
    Mul(picked, erode)
  }

  /** combineVoidVolume: 1 on the breaks, the void volume elsewhere. */
  function CombineVoid(void: Volume, breaks: Volume): (r: Volume)
    requires SameGrid(void, breaks)
    ensures r.Keys == void.Keys
    ensures Level(r, 1) == Level(void, 1) + Level(breaks, 1)
    ensures forall i :: i in r && i !in Level(breaks, 1) ==> r[i] == void[i]
    ensures IsBinary(void, 1) ==> IsBinary(r, 1)
  {
    Mask(void, breaks, 1, 1)
  }

  /** The filters the model leaves abstract: the smoothed scan, the
      endosteal region (the contour deflated by the cortical thickness),
      the dilations of steps 3, 5, 9 and 10, the two distance maps of step
      7 and the erosion of step 8. pick stands for RelabelComponent then
      BinaryThreshold 1..k, order for the label order of the components,
      centroid for a component's centroid as an index of the scan. */
  datatype Env = Env(
    smoothed: Field, endo: Volume, dilated3: Volume, pick: (set<Idx>, int) -> set<Idx>,
    dilated5: Volume, near: Field, grown: Field, eroded8: Volume, dilated9: Volume, dilated10: Volume,
    order: set<Idx> -> seq<Idx>, centroid: set<Idx> -> Idx)

  /** pick and order behave as RelabelComponent and the label order do. */
  ghost predicate FiltersOk(e: Env) {
    CB.PickOk(e.pick) && CB.OrderOk(e.order)
  }

  /** The given images lie on the scan's and the contour's grids. */
  ghost predicate EnvOk(s: State, e: Env) {
    FiltersOk(e) && e.smoothed.Keys == s.model.Keys &&
    (s.contour.Some? ==>
      var peri := s.contour.value.peri;
      e.endo.Keys == peri.Keys && IsBinary(e.endo, 1) && Support(e.endo) <= Support(peri) &&
      e.dilated3.Keys == peri.Keys && IsBinary(e.dilated3, 1) &&
      e.dilated5.Keys == peri.Keys &&
      e.near.Keys == peri.Keys && e.grown.Keys == peri.Keys &&
      e.eroded8.Keys == peri.Keys && IsBinary(e.eroded8, 1) &&
      e.dilated9.Keys == peri.Keys && IsBinary(e.dilated9, 1) &&
      e.dilated10.Keys == peri.Keys && IsBinary(e.dilated10, 1))
  }

  /** What holds once steps 1..k have run in order (after the contour is
      set; step 1's segmentation may instead come from setSeg). */
  predicate StateOk(s: State, k: int) {
    0 <= k <= StepNum && s.contour.Some? &&
    var c := s.contour.value;
    var g := c.peri.Keys;
    g == Grid(c.w, c.h, c.d) && IsBinary(c.peri, 1) &&
    (k >= 1 ==> s.seg.Some? && IsBinary(s.seg.value, 1)) &&
    (k >= 2 ==> s.seg.value.Keys == g && s.masks.Some? && ErosionSteps.MasksOf(s.masks.value, c.peri)) &&
    (k >= 3 ==> s.breaks.Some? && s.breaks.value.Keys == g) &&
    (k == 3 || k >= 5 ==> IsBinary(s.breaks.value, 1) && Support(s.breaks.value) <= Support(s.masks.value.cortical)) &&
    (k == 4 ==> Level(s.breaks.value, 1) <= Support(s.masks.value.cortical)) &&
    (k >= 6 ==> s.output.Some? && s.output.value.Keys == g) &&
    (k == 6 || k >= 8 ==> IsBinary(s.output.value, 1)) &&
    (k >= 10 ==> Support(s.output.value) <= Support(c.peri)) &&
    (k >= 11 ==> Support(s.breaks.value) <= Support(s.output.value))
  }

  /** The scan, contour and parameters a step leaves alone. */
  predicate SameSetup(t: State, s: State) {
    t.model == s.model && t.contour == s.contour && t.voxelSize == s.voxelSize &&
    t.lower == s.lower && t.upper == s.upper && t.thickness == s.thickness && t.distance == s.distance
  }

  /** smoothen (step 1): the smoothed scan thresholded to lower..upper. */
  function Smoothen(s: State, e: Env): (r: State)
    requires e.smoothed.Keys == s.model.Keys
    ensures r.seg.Some? && r.seg.value.Keys == s.model.Keys && IsBinary(r.seg.value, 1)
    ensures forall i :: i in s.model ==> (r.seg.value[i] == 1 <==> s.lower as real <= e.smoothed[i] <= s.upper as real)
    ensures r.(seg := s.seg) == s
  {
    s.(seg := Some(Band(e.smoothed, s.lower as real, s.upper as real, 1)))
  }

  /** _initializeParams and createMasks (step 2): the segmentation cut to
      the contour's box, and the cortical masks of the contour and its
      deflation. */
  function CreateMasks(s: State, e: Env): (r: State)
    requires EnvOk(s, e) && StateOk(s, 1)
    ensures StateOk(r, 2) && SameSetup(r, s) && r.seeds == s.seeds
    ensures r.seg.value == CB.BoxCut(s.seg.value, s.contour.value) && r.masks.value.inner == e.endo
  {
    var c := s.contour.value;
    s.(seg := Some(CB.BoxCut(s.seg.value, c)), masks := Some(ErosionSteps.CorticalMasks(c.peri, e.endo)))
  }

  /** erodeBreaks (step 3): the opened segmentation's voxels in the
      cortical shell. */
  function ErodeBreaks(s: State, e: Env): (r: State)
    requires EnvOk(s, e) && StateOk(s, 2)
    ensures StateOk(r, 3) && SameSetup(r, s) && r.seeds == s.seeds
    ensures Support(r.breaks.value) == Support(e.dilated3) * Support(s.masks.value.cortical)
  {
    s.(breaks := Some(ErosionSteps.MaskBreaks(e.dilated3, s.masks.value)))
  }

  /** connectBreaks (step 4): the largest boneNum components of the open
      background and the endosteal region, outside the endosteal region. */
  function ConnectBreaksStep(s: State, e: Env): (r: State)
    requires EnvOk(s, e) && StateOk(s, 3)
    ensures StateOk(r, 4) && SameSetup(r, s) && r.seeds == s.seeds
    ensures var t := CB.TrabecularSet(s.breaks.value, s.masks.value, s.contour.value.peri);
      Level(r.breaks.value, 1) == e.pick(t, s.contour.value.boneNum) - Support(s.masks.value.inner) &&
      Level(r.breaks.value, 1) <= Support(s.masks.value.cortical) - Support(s.breaks.value)
  {
    var c := s.contour.value;
    var m := s.masks.value;
    var t := CB.TrabecularSet(s.breaks.value, m, c.peri);
    var kept := e.pick(t, c.boneNum);
    assert kept <= t;
    var b := CB.ConnectBreaks(s.breaks.value, m, c.peri, kept);
    s.(breaks := Some(b))
  }

  /** dilateBreaks (step 5): the dilated breaks in the cortical shell,
      keeping the components of at least the minimum break size; a zero
      voxel size raises. */
  function DilateBreaks(s: State, e: Env): (r: Result<State, Error>)
    requires EnvOk(s, e) && StateOk(s, 4)
    ensures r.Failure? <==> s.voxelSize == 0.0
    ensures r.Success? ==> StateOk(r.value, 5) && SameSetup(r.value, s) && r.value.seeds == s.seeds
    ensures r.Success? ==> forall i :: i in Support(r.value.breaks.value) <==>
      i in Support(e.dilated5) * Support(s.masks.value.cortical) &&
      |Component(Face, Support(e.dilated5) * Support(s.masks.value.cortical), i)| >= MinBreakSize(s.voxelSize)
  {
    if s.voxelSize == 0.0 then Failure(ZeroVoxelSize)
    else
      Success(s.(breaks := Some(CB.SizeFilterBreaks(e.dilated5, s.masks.value.cortical, MinBreakSize(s.voxelSize)))))
  }

  /** createROI (step 6). */
  function CreateRoiStep(s: State, e: Env): (r: State)
    requires EnvOk(s, e) && StateOk(s, 5)
    ensures StateOk(r, 6) && SameSetup(r, s) && r.seeds == s.seeds && r.breaks == s.breaks
    ensures Support(r.output.value) == Support(s.contour.value.peri) - Support(s.seg.value)
  {
    s.(output := Some(CreateRoi(s.seg.value, s.contour.value.peri)))
  }

  /** distanceVoidVolume (step 7), with the cortical thickness as radius. */
  function DistanceVoidStep(s: State, e: Env): (r: State)
    requires EnvOk(s, e) && StateOk(s, 6)
    ensures StateOk(r, 7) && SameSetup(r, s) && r.seeds == s.seeds && r.breaks == s.breaks
    ensures r.output.value == DistanceVoid(s.output.value, e.near, e.grown, s.thickness)
  {
    s.(output := Some(DistanceVoid(s.output.value, e.near, e.grown, s.thickness)))
  }

  /** erodeVoidVolume (step 8). */
  function ErodeVoidStep(s: State, e: Env): (r: State)
    requires EnvOk(s, e) && StateOk(s, 7)
    ensures StateOk(r, 8) && SameSetup(r, s) && r.seeds == s.seeds && r.breaks == s.breaks
    ensures r.output.value == e.eroded8
  {
    s.(output := Some(e.eroded8))
  }

  /** connectVoidVolume (step 9): the eroded voids in the largest
      component of voids, dilated breaks off the bone, and background. */
  function ConnectVoidStep(s: State, e: Env): (r: State)
    requires EnvOk(s, e) && StateOk(s, 8)
    ensures StateOk(r, 9) && SameSetup(r, s) && r.seeds == s.seeds && r.breaks == s.breaks
    ensures var erode := s.output.value;
      var obj := VoidObject(erode, e.dilated9, s.seg.value, s.masks.value.background);
      Support(r.output.value) == e.pick(obj, 1) * Support(erode)
  {
    var erode := s.output.value;
    var obj := VoidObject(erode, e.dilated9, s.seg.value, s.masks.value.background);
    s.(output := Some(ConnectVoid(erode, e.pick(obj, 1))))
  }

  /** dilateVoidVolume (step 10): the dilated voids inside the contour. */
  function DilateVoidStep(s: State, e: Env): (r: State)
    requires EnvOk(s, e) && StateOk(s, 9)
    ensures StateOk(r, 10) && SameSetup(r, s) && r.seeds == s.seeds && r.breaks == s.breaks
    ensures Support(r.output.value) == Support(e.dilated10) * Support(s.contour.value.peri)
  {
    var peri := s.contour.value.peri;
    MulBinary(e.dilated10, peri);
    s.(output := Some(Mul(e.dilated10, peri)))
  }

  /** combineVoidVolume (step 11): the voids joined to the breaks. */
  function CombineVoidStep(s: State, e: Env): (r: State)
    requires EnvOk(s, e) && StateOk(s, 10)
    ensures StateOk(r, 11) && SameSetup(r, s) && r.seeds == s.seeds && r.breaks == s.breaks
    ensures Level(r.output.value, 1) == Level(s.output.value, 1) + Support(s.breaks.value)
  {
    var r := s.(output := Some(CombineVoid(s.output.value, s.breaks.value)));
    assert Support(s.breaks.value) == Level(s.breaks.value, 1);
    assert Support(r.output.value) == Level(r.output.value, 1);
    r
  }

  /** t's seed list is before followed by one seed per break of t. */
  predicate Counted(t: State, before: seq<Idx>)
    requires t.breaks.Some?
  {
    |t.seeds| == |before| + |CB.Components(Face, Support(t.breaks.value))|
  }

  /** maskToSeeds (step 12): one seed per break, appended. */
  function MaskToSeedsStep(s: State, e: Env): (r: State)
    requires EnvOk(s, e) && StateOk(s, 11)
    ensures StateOk(r, 12) && SameSetup(r, s) && r.output == s.output && r.breaks == s.breaks
    ensures |r.seeds| == |s.seeds| + |CB.Components(Face, Support(s.breaks.value))|
    ensures Counted(r, s.seeds)
    ensures r.seeds[..|s.seeds|] == s.seeds
  {
    var b := s.breaks.value;
    s.(seeds := CB.MaskToSeeds(s.seeds, b, e.order(Support(b)), e.centroid))
  }

  /** execute(step): run that step and report True; any other step number
      reports False and changes nothing. */
  function Execute(s: State, step: int, e: Env): (r: Result<(State, bool), Error>)
    requires EnvOk(s, e)
    requires 1 <= step <= StepNum ==> StateOk(s, step - 1)
    ensures !(1 <= step <= StepNum) ==> r == Success((s, false))
    ensures 1 <= step <= StepNum ==> (r.Failure? <==> step == 5 && s.voxelSize == 0.0)
    ensures 1 <= step <= StepNum && r.Success? ==>
      r.value.1 && StateOk(r.value.0, step) && SameSetup(r.value.0, s)
    ensures 1 <= step < StepNum && r.Success? ==> r.value.0.seeds == s.seeds
    ensures step == StepNum ==> r.Success? && r.value.0.breaks == s.breaks
    ensures step == StepNum ==> Counted(r.value.0, s.seeds)
  {
    if step == 1 then Success((Smoothen(s, e), true))
    else if step == 2 then Success((CreateMasks(s, e), true))
    else if step == 3 then Success((ErodeBreaks(s, e), true))
    else if step == 4 then Success((ConnectBreaksStep(s, e), true))
    else if step == 5 then
      match DilateBreaks(s, e)
      case Failure(err) => Failure(err)
      case Success(t) => Success((t, true))
    else if step == 6 then Success((CreateRoiStep(s, e), true))
    else if step == 7 then Success((DistanceVoidStep(s, e), true))
    else if step == 8 then Success((ErodeVoidStep(s, e), true))
    else if step == 9 then Success((ConnectVoidStep(s, e), true))
    else if step == 10 then Success((DilateVoidStep(s, e), true))
    else if step == 11 then Success((CombineVoidStep(s, e), true))
    else if step == 12 then Success((MaskToSeedsStep(s, e), true))
    else Success((s, false))
  }

  /** The drivers' loop: execute(step), step + 1, until it reports False. */
  function Run(s: State, e: Env, step: int, fuel: nat): (r: Result<State, Error>)
    requires EnvOk(s, e) && 1 <= step
    requires step <= StepNum ==> StateOk(s, step - 1)
    decreases fuel
  {
    if fuel == 0 then Success(s)
    else
      match Execute(s, step, e)
      case Failure(err) => Failure(err)
      case Success((t, more)) => if more then Run(t, e, step + 1, fuel - 1) else Success(t)
  }

  /** Past the last step the loop stops at once. */
  lemma RunEnd(s: State, e: Env)
    requires EnvOk(s, e)
    ensures Run(s, e, StepNum + 1, 1) == Success(s)
  {
  }

  /** One turn of the loop: a step that succeeds hands its state to the
      next step, with the fuel one less. */
  lemma RunStep(s: State, e: Env, step: int) returns (t: State)
    requires EnvOk(s, e) && 1 <= step <= StepNum && StateOk(s, step - 1) && s.voxelSize != 0.0
    ensures EnvOk(t, e) && StateOk(t, step) && SameSetup(t, s)
    ensures step < StepNum ==> t.seeds == s.seeds
    ensures step == StepNum ==> Counted(t, s.seeds)
    ensures Run(s, e, step, StepNum + 2 - step) == Run(t, e, step + 1, StepNum + 2 - (step + 1))
  {
    var r := Execute(s, step, e);
    t := r.value.0;
    EnvKept(s, t, e);
    RunUnfold(s, e, step, t);
  }

  /** The given images only depend on the setup, which a step keeps. */
  lemma EnvKept(s: State, t: State, e: Env)
    requires EnvOk(s, e) && SameSetup(t, s)
    ensures EnvOk(t, e)
  {
  }

  /** A step that succeeds and asks for more hands over to the next one. */
  lemma RunUnfold(s: State, e: Env, step: int, t: State)
    requires EnvOk(s, e) && EnvOk(t, e) && 1 <= step <= StepNum && StateOk(s, step - 1) && StateOk(t, step)
    requires Execute(s, step, e) == Success((t, true))
    ensures Run(s, e, step, StepNum + 2 - step) == Run(t, e, step + 1, StepNum + 2 - (step + 1))
  {
  }

  /** A full run from step 1 on a freshly constructed object: the output
      is a 0/1 image inside the contour holding every break, and the seed
      list holds one seed per break. */
  lemma FullRun(s: State, e: Env)
    requires StateOk(s, 0) && EnvOk(s, e) && s.seeds == [] && s.voxelSize != 0.0
    ensures Run(s, e, 1, StepNum + 1).Success?
    ensures Completed(Run(s, e, 1, StepNum + 1).value, [])
    ensures Run(s, e, 1, StepNum + 1).value.contour == s.contour
  {
    var t4 := FourSteps(s, e, 1);
    var t8 := FourSteps(t4, e, 5);
    LastSteps(t8, e);
  }

  /** Steps first..first+3 of a full run, before the last one. */
  lemma FourSteps(s: State, e: Env, first: int) returns (t: State)
    requires first == 1 || first == 5
    requires StateOk(s, first - 1) && EnvOk(s, e) && s.voxelSize != 0.0
    ensures EnvOk(t, e) && StateOk(t, first + 3) && SameSetup(t, s) && t.seeds == s.seeds
    ensures Run(s, e, first, StepNum + 2 - first) == Run(t, e, first + 4, StepNum + 2 - (first + 4))
  {
    var t1 := RunStep(s, e, first);
    var t2 := RunStep(t1, e, first + 1);
    var t3 := RunStep(t2, e, first + 2);
    t := RunStep(t3, e, first + 3);
  }

  /** Steps 9-12 of a full run, and the loop's end. */
  lemma LastSteps(s: State, e: Env)
    requires StateOk(s, 8) && EnvOk(s, e) && s.voxelSize != 0.0
    ensures Run(s, e, 9, StepNum - 7).Success?
    ensures Completed(Run(s, e, 9, StepNum - 7).value, s.seeds)
    ensures SameSetup(Run(s, e, 9, StepNum - 7).value, s)
  {
    var t9 := RunStep(s, e, 9);
    var t10 := RunStep(t9, e, 10);
    var t11 := RunStep(t10, e, 11);
    var t12 := RunStep(t11, e, 12);
    RunEnd(t12, e);
    Finished(t12);
  }

  /** After step 12 the output is a 0/1 image between the breaks and the
      contour. */
  lemma Finished(t: State)
    requires StateOk(t, StepNum)
    ensures IsBinary(t.output.value, 1)
    ensures Support(t.breaks.value) <= Support(t.output.value) <= Support(t.contour.value.peri)
  {
  }

  /** What a completed run leaves: every step's result, a 0/1 output
      holding the breaks and lying inside the contour, and one seed per
      break after the seeds given before. */
  predicate Completed(t: State, before: seq<Idx>) {
    StateOk(t, StepNum) && IsBinary(t.output.value, 1) &&
    Support(t.breaks.value) <= Support(t.output.value) <= Support(t.contour.value.peri) &&
    Counted(t, before)
  }

  /** The command line: the constructor, then steps 1..12 from step 1. */
  lemma CommandLineRun(img: Volume, contour: Volume, w: int, h: int, d: int, b: ContourLogic.BBox,
                       voxelSize: real, lower: int, upper: int, thickness: int, distance: int, s: State, e: Env)
    requires CB.BoxOf(contour, w, h, d, Some(b))
    requires New(img, contour, w, h, d, Some(b), voxelSize, lower, upper, thickness, distance) == Some(s)
    requires voxelSize != 0.0 && EnvOk(s, e)
    ensures StateOk(s, 0) && s.seeds == []
    ensures Run(s, e, 1, StepNum + 1).Success?
    ensures Completed(Run(s, e, 1, StepNum + 1).value, [])
    ensures Run(s, e, 1, StepNum + 1).value.contour == CB.SetContour(contour, w, h, d, Some(b))
  {
    FullRun(s, e);
  }

  /** The command line as written: the constructor with setContour as
      written, then steps 1..12. The run completes, on a contour without
      the box's top slice and with the background counted as a bone. */
  lemma CommandLineAsWritten(img: Volume, contour: Volume, w: int, h: int, d: int, b: ContourLogic.BBox,
                             voxelSize: real, lower: int, upper: int, thickness: int, distance: int, s: State, e: Env)
    requires CB.BoxOf(contour, w, h, d, Some(b))
    requires NewAsWritten(img, contour, w, h, d, Some(b), voxelSize, lower, upper, thickness, distance) == Some(s)
    requires voxelSize != 0.0 && EnvOk(s, e)
    ensures StateOk(s, 0) && s.seeds == []
    ensures s.contour.value.boneNum == CB.BoneNumAsWritten(contour)
    ensures CB.CutBelow(contour, s.contour.value, b.z1)
    ensures Run(s, e, 1, StepNum + 1).Success?
    ensures Completed(Run(s, e, 1, StepNum + 1).value, [])
    ensures Run(s, e, 1, StepNum + 1).value.contour == s.contour
  {
    FullRun(s, e);
  }
}
