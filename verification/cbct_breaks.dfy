/** CBCTCorticalBreakDetectionLogic: the cortical break detection of
    Peters et al. adapted to cone-beam CT in seven steps. Steps 1-5 find
    the breaks as the Peters version does (step 2 also cuts the scan to
    the contour's box); step 6 grows the breaks into the trabecular bone
    loss under them with a level set; step 7 places one seed per break.
    The level set, smoothing, distance maps and dilations enter as given
    images. */
module CbctBreaks {
  import opened Wrappers
  import opened Volumes
  import opened Connectivity
  import PyNum
  import ContourLogic
  import Cropping
  import ErosionSteps
  import CB = CorticalBreaks

  const StepNum := 7

  /** The level set runs a fixed number of iterations. */
  const Iterations := 50

  /** Step 2 on an object without a segmentation fails on None; step 5
      divides by the voxel size. */
  datatype Error = NoSegmentation | ZeroVoxelSize

  /** img is the scan as given, model the scan cut to the contour's box
      once step 2 has run. */
  datatype State = State(
    img: Option<Volume>, model: Option<Volume>, contour: Option<CB.Contour>,
    seg: Option<Volume>, masks: Option<ErosionSteps.Masks>,
    breaks: Option<Volume>, output: Option<Volume>,
    voxelSize: real, lower: int, upper: int, thickness: int, distance: int,
    seeds: seq<Idx>)

  /** The constructor's defaults: 250 for the voxel size, thresholds
      600..10000, cortical thickness 1 and a dilate/erode distance of 0. */
  function Default(): (s: State)
    ensures s.img.None? && s.model.None? && s.contour.None? && s.seg.None? && s.masks.None?
    ensures s.breaks.None? && s.output.None? && s.seeds == []
    ensures s.voxelSize == 250.0 && s.lower == 600 && s.upper == 10000 && s.thickness == 1 && s.distance == 0
  {
    State(None, None, None, None, None, None, None, 250.0, 600, 10000, 1, 0, [])
  }

  /** setModel: the scan and its working copy. */
  function SetModel(s: State, img: Volume): (r: State)
    ensures r.img == r.model == Some(img)
    ensures r.(img := s.img, model := s.model) == s
  {
    s.(img := Some(img), model := Some(img))
  }

  /** setSeg stores the segmentation as given; unlike the Peters version it
      does not binarise it. */
  function SetSeg(s: State, seg: Volume): (r: State)
    ensures r.seg == Some(seg)
    ensures r.(seg := s.seg) == s
  {
    s.(seg := Some(seg))
  }

  /** The constructor: the contour is set up only when both the scan and
      the mask are given; a mask without a voxel in 1..255 then raises (None). */
  function New(img: Option<Volume>, contour: Option<Volume>, w: int, h: int, d: int, box: Option<ContourLogic.BBox>,
               voxelSize: real, lower: int, upper: int, thickness: int, distance: int): (r: Option<State>)
    requires contour.Some? ==> CB.BoxOf(contour.value, w, h, d, box)
    ensures r.None? <==> img.Some? && contour.Some? && box.None?
    ensures r.Some? ==> (r.value.contour.Some? <==> img.Some? && contour.Some?)
    ensures r.Some? && r.value.contour.Some? ==> r.value.contour == CB.SetContour(contour.value, w, h, d, box)
    ensures r.Some? ==> r.value.img == r.value.model == img && r.value.seg.None? && r.value.seeds == []
    ensures r.Some? ==> r.value.voxelSize == voxelSize && r.value.lower == lower && r.value.upper == upper
    ensures r.Some? ==> r.value.thickness == thickness && r.value.distance == distance
  {
    var s := Default().(img := img, model := img, voxelSize := voxelSize, lower := lower, upper := upper,
                        thickness := thickness, distance := distance);
    if img.Some? && contour.Some? then
      match CB.SetContour(contour.value, w, h, d, box)
      case None => None
      case Some(c) => Some(s.(contour := Some(c)))
    else Some(s)
  }

  /** The constructor as written: the contour is set up by setContour as
      written, which loses the box's top slice and counts the background
      as a bone. */
  function NewAsWritten(img: Option<Volume>, contour: Option<Volume>, w: int, h: int, d: int, box: Option<ContourLogic.BBox>,
                        voxelSize: real, lower: int, upper: int, thickness: int, distance: int): (r: Option<State>)
    requires contour.Some? ==> CB.BoxOf(contour.value, w, h, d, box)
    ensures r.None? <==> img.Some? && contour.Some? && box.None?
    ensures r.Some? ==> (r.value.contour.Some? <==> img.Some? && contour.Some?)
    ensures r.Some? && r.value.contour.Some? ==> r.value.contour == CB.SetContourAsWritten(contour.value, w, h, d, box)
    ensures r.Some? ==> r.value.img == r.value.model == img && r.value.seg.None? && r.value.seeds == []
    ensures r.Some? ==> r.value.voxelSize == voxelSize && r.value.lower == lower && r.value.upper == upper
    ensures r.Some? ==> r.value.thickness == thickness && r.value.distance == distance
  {
    var s := Default().(img := img, model := img, voxelSize := voxelSize, lower := lower, upper := upper,
                        thickness := thickness, distance := distance);
    if img.Some? && contour.Some? then
      match CB.SetContourAsWritten(contour.value, w, h, d, box)
      case None => None
      case Some(c) => Some(s.(contour := Some(c)))
    else Some(s)
  }

  function Cube(x: real): real {
    x * x * x
  }

  /** dilateBreaks' minimum break size: 20 voxels at 0.082 (millimetres),
      scaled by the cube of 0.082 / voxelSize and rounded. */
  function MinBreakSize(voxelSize: real): (n: int)
    requires voxelSize != 0.0
    ensures PyNum.Abs(n as real - 20.0 * Cube(0.082 / voxelSize)) <= 0.5
  {
    PyNum.Round(20.0 * Cube(0.082 / voxelSize))
  }

  /** 20 voxels at 0.082 mm and 11 at 0.1 mm; given in micrometres (100)
      the same scan gets a limit of 0, which keeps every break. */
  lemma MinBreakSizes()
    ensures MinBreakSize(0.082) == 20
    ensures MinBreakSize(0.1) == 11
    ensures MinBreakSize(100.0) == 0
  {
    PyNum.RoundUnique(20.0 * Cube(0.082 / 0.082), 20);
    assert 0.082 / 0.1 == 0.82;
    PyNum.RoundUnique(20.0 * Cube(0.82), 11);
    assert 0.082 / 100.0 == 0.00082;
    PyNum.RoundUnique(20.0 * Cube(0.00082), 0);
  }

  /** The filters the model leaves abstract: the smoothed scan, the
      endosteal region, the dilations of steps 3 and 5, and the level set
      of step 6 (on the cut scan). pick and order are as in the Peters
      version; centroid maps a component to an index of the uncut scan. */
  datatype Env = Env(
    smoothed: Field, endo: Volume, dilated3: Volume, pick: (set<Idx>, int) -> set<Idx>,
    dilated5: Volume, levelSet: Field, order: set<Idx> -> seq<Idx>, centroid: set<Idx> -> Idx)

  /** The given images lie on the contour's grid. */
  ghost predicate EnvOk(s: State, e: Env) {
    CB.PickOk(e.pick) && CB.OrderOk(e.order) &&
    (s.contour.Some? ==>
      var peri := s.contour.value.peri;
      e.endo.Keys == peri.Keys && IsBinary(e.endo, 1) && Support(e.endo) <= Support(peri) &&
      e.dilated3.Keys == peri.Keys && IsBinary(e.dilated3, 1) &&
      e.dilated5.Keys == peri.Keys && e.levelSet.Keys == peri.Keys)
  }

  /** What holds once steps 1..k have run in order (after the scan and
      contour are set; the segmentation may instead come from setSeg). */
  predicate StateOk(s: State, k: int) {
    0 <= k <= StepNum && s.model.Some? && s.contour.Some? &&
    var c := s.contour.value;
    var g := c.peri.Keys;
    g == Grid(c.w, c.h, c.d) && IsBinary(c.peri, 1) &&
    (k >= 1 ==> s.seg.Some?) &&
    (k >= 2 ==>
       s.seg.value.Keys == g && s.model.value.Keys == g &&
       s.masks.Some? && ErosionSteps.MasksOf(s.masks.value, c.peri)) &&
    (k >= 3 ==> s.breaks.Some? && s.breaks.value.Keys == g) &&
    (k == 3 || k >= 5 ==> IsBinary(s.breaks.value, 1) && Support(s.breaks.value) <= Support(s.masks.value.cortical)) &&
    (k == 4 ==> Level(s.breaks.value, 1) <= Support(s.masks.value.cortical)) &&
    (k >= 6 ==>
       s.output.Some? && s.output.value.Keys == g && IsBinary(s.output.value, 1) &&
       Support(s.output.value) <= Support(c.peri))
  }

  /** What execute(step) needs: the previous steps' results, except that
      step 2 may be asked for on an object whose segmentation is missing. */
  predicate Ready(s: State, step: int) {
    if step == 2 then StateOk(s, 0) else StateOk(s, step - 1)
  }

  /** The image, contour and parameters a step leaves alone. */
  predicate SameSetup(t: State, s: State) {
    t.img == s.img && t.contour == s.contour && t.voxelSize == s.voxelSize &&
    t.lower == s.lower && t.upper == s.upper && t.thickness == s.thickness && t.distance == s.distance
  }

  /** smoothen (step 1): the smoothed scan thresholded to lower..upper. */
  function Smoothen(s: State, e: Env): (r: State)
    ensures r.seg.Some? && r.seg.value.Keys == e.smoothed.Keys && IsBinary(r.seg.value, 1)
    ensures forall i :: i in e.smoothed ==> (r.seg.value[i] == 1 <==> s.lower as real <= e.smoothed[i] <= s.upper as real)
    ensures r.(seg := s.seg) == s
  {
    s.(seg := Some(Band(e.smoothed, s.lower as real, s.upper as real, 1)))
  }

  /** _initializeParams and createMasks (step 2): the segmentation and the
      scan cut to the contour's box, and the cortical masks. Without a
      segmentation the cut fails. */
  function CreateMasks(s: State, e: Env): (r: Result<State, Error>)
    requires EnvOk(s, e) && StateOk(s, 0)
    ensures r.Failure? <==> s.seg.None?
    ensures r.Success? ==> StateOk(r.value, 2) && SameSetup(r.value, s) && r.value.seeds == s.seeds
    ensures r.Success? ==> r.value.seg.value == CB.BoxCut(s.seg.value, s.contour.value)
    ensures r.Success? ==> r.value.model.value == CB.BoxCut(s.model.value, s.contour.value)
    ensures r.Success? ==> r.value.masks.value.inner == e.endo
  {
    if s.seg.None? then Failure(NoSegmentation)
    else
      var c := s.contour.value;
      Success(s.(seg := Some(CB.BoxCut(s.seg.value, c)), model := Some(CB.BoxCut(s.model.value, c)),
                 masks := Some(ErosionSteps.CorticalMasks(c.peri, e.endo))))
  }

  /** erodeBreaks (step 3): the dilated segmentation in the cortical
      shell. */
  function ErodeBreaks(s: State, e: Env): (r: State)
    requires EnvOk(s, e) && StateOk(s, 2)
    ensures StateOk(r, 3) && SameSetup(r, s) && r.seeds == s.seeds
    ensures Support(r.breaks.value) == Support(e.dilated3) * Support(s.masks.value.cortical)
  {
    s.(breaks := Some(ErosionSteps.MaskBreaks(e.dilated3, s.masks.value)))
  }

  /** connectBreaks (step 4), as in the Peters version. */
  function ConnectBreaksStep(s: State, e: Env): (r: State)
    requires EnvOk(s, e) && StateOk(s, 3)
    ensures StateOk(r, 4) && SameSetup(r, s) && r.seeds == s.seeds
    ensures var t := CB.TrabecularSet(s.breaks.value, s.masks.value, s.contour.value.peri);
      Level(r.breaks.value, 1) == e.pick(t, s.contour.value.boneNum) - Support(s.masks.value.inner) &&
      Level(r.breaks.value, 1) <= Support(s.masks.value.cortical) - Support(s.breaks.value)
  {
    var c := s.contour.value;
    var m := s.masks.value;
    var t := CB.TrabecularSet(s.breaks.value, m, c.peri);
    var kept := e.pick(t, c.boneNum);
    assert kept <= t;
    s.(breaks := Some(CB.ConnectBreaks(s.breaks.value, m, c.peri, kept)))
  }

  /** dilateBreaks (step 5): the dilated breaks in the cortical shell,
      keeping the components of at least the minimum break size; a zero
      voxel size raises. */
  function DilateBreaks(s: State, e: Env): (r: Result<State, Error>)
    requires EnvOk(s, e) && StateOk(s, 4)
    ensures r.Failure? <==> s.voxelSize == 0.0
    ensures r.Success? ==> StateOk(r.value, 5) && SameSetup(r.value, s) && r.value.seeds == s.seeds
    ensures r.Success? ==> forall i :: i in Support(r.value.breaks.value) <==>
      i in Support(e.dilated5) * Support(s.masks.value.cortical) &&
      |Component(Face, Support(e.dilated5) * Support(s.masks.value.cortical), i)| >= MinBreakSize(s.voxelSize)
  {
    if s.voxelSize == 0.0 then Failure(ZeroVoxelSize)
    else
      Success(s.(breaks := Some(CB.SizeFilterBreaks(e.dilated5, s.masks.value.cortical, MinBreakSize(s.voxelSize)))))
  }

  /** growBreaks (step 6): the voxels the level set reaches (value in
      0..255, BinaryThreshold's default upper bound), inside the periosteal
      contour. */
  function GrowBreaks(s: State, e: Env): (r: State)
    requires EnvOk(s, e) && StateOk(s, 5)
    ensures StateOk(r, 6) && SameSetup(r, s) && r.seeds == s.seeds && r.breaks == s.breaks
    ensures Support(r.output.value) == (set i | i in e.levelSet && 0.0 <= e.levelSet[i] <= UpperDefault as real) * Support(s.contour.value.peri)
  {
    var peri := s.contour.value.peri;
    var grown := BandAbove(e.levelSet, 0.0, 1);
    MulBinary(grown, peri);
    s.(output := Some(Mul(grown, peri)))
  }

  /** t's seed list is before followed by one seed per break of t. */
  predicate Counted(t: State, before: seq<Idx>)
    requires t.breaks.Some?
  {
    |t.seeds| == |before| + |CB.Components(Face, Support(t.breaks.value))|
  }

  /** maskToSeeds (step 7): one seed per break, appended. */
  function MaskToSeedsStep(s: State, e: Env): (r: State)
    requires EnvOk(s, e) && StateOk(s, 6)
    ensures StateOk(r, 7) && SameSetup(r, s) && r.output == s.output && r.breaks == s.breaks
    ensures Counted(r, s.seeds)
    ensures r.seeds[..|s.seeds|] == s.seeds
  {
    var b := s.breaks.value;
    s.(seeds := CB.MaskToSeeds(s.seeds, b, e.order(Support(b)), e.centroid))
  }

  /** execute(step): run that step and report True; any other step number
      reports False and changes nothing. */
  function Execute(s: State, step: int, e: Env): (r: Result<(State, bool), Error>)
    requires EnvOk(s, e)
    requires 1 <= step <= StepNum ==> Ready(s, step)
    ensures !(1 <= step <= StepNum) ==> r == Success((s, false))
    ensures 1 <= step <= StepNum ==>
      (r.Failure? <==> (step == 2 && s.seg.None?) || (step == 5 && s.voxelSize == 0.0))
    ensures 1 <= step <= StepNum && r.Success? ==>
      r.value.1 && StateOk(r.value.0, step) && SameSetup(r.value.0, s)
    ensures 1 <= step < StepNum && r.Success? ==> r.value.0.seeds == s.seeds
    ensures step == StepNum ==> r.Success? && r.value.0.breaks == s.breaks && Counted(r.value.0, s.seeds)
  {
    if step == 1 then Success((Smoothen(s, e), true))
    else if step == 2 then
      match CreateMasks(s, e)
      case Failure(err) => Failure(err)
      case Success(t) => Success((t, true))
    else if step == 3 then Success((ErodeBreaks(s, e), true))
    else if step == 4 then Success((ConnectBreaksStep(s, e), true))
    else if step == 5 then
      match DilateBreaks(s, e)
      case Failure(err) => Failure(err)
      case Success(t) => Success((t, true))
    else if step == 6 then Success((GrowBreaks(s, e), true))
    else if step == 7 then Success((MaskToSeedsStep(s, e), true))
    else Success((s, false))
  }

  /** The driver's loop: execute(step), step + 1, until it reports False
      or raises. */
  function Run(s: State, e: Env, step: int, fuel: nat): (r: Result<State, Error>)
    requires EnvOk(s, e) && 1 <= step
    requires step <= StepNum ==> Ready(s, step)
    decreases fuel
  {
    if fuel == 0 then Success(s)
    else
      match Execute(s, step, e)
      case Failure(err) => Failure(err)
      case Success((t, more)) => if more then Run(t, e, step + 1, fuel - 1) else Success(t)
  }

  /** One turn of the loop: a step that succeeds hands its state to the
      next step, with the fuel one less. */
  lemma RunStep(s: State, e: Env, step: int, fuel: nat) returns (t: State)
    requires EnvOk(s, e) && 1 <= step <= StepNum && StateOk(s, step - 1) && s.voxelSize != 0.0 && fuel >= 1
    ensures EnvOk(t, e) && StateOk(t, step) && SameSetup(t, s)
    ensures step < StepNum ==> t.seeds == s.seeds
    ensures step == StepNum ==> Counted(t, s.seeds)
    ensures Run(s, e, step, fuel) == Run(t, e, step + 1, fuel - 1)
  {
    t := Execute(s, step, e).value.0;
  }

  /** Past the last step the loop stops at once. */
  lemma RunEnd(s: State, e: Env)
    requires EnvOk(s, e)
    ensures Run(s, e, StepNum + 1, 1) == Success(s)
  {
  }

  /** A full run from step 1: the breaks lie in the cortical shell, the
      grown output is a 0/1 image inside the contour, and one seed per
      break was appended. */
  lemma FullRun(s: State, e: Env)
    requires StateOk(s, 0) && EnvOk(s, e) && s.voxelSize != 0.0
    ensures Run(s, e, 1, StepNum + 1).Success?
    ensures StateOk(Run(s, e, 1, StepNum + 1).value, StepNum)
    ensures var t := Run(s, e, 1, StepNum + 1).value;
      IsBinary(t.output.value, 1) && Support(t.output.value) <= Support(s.contour.value.peri) &&
      Support(t.breaks.value) <= Support(t.masks.value.cortical)
    ensures Counted(Run(s, e, 1, StepNum + 1).value, s.seeds)
  {
    var t3 := FirstSteps(s, e);
    LastSteps(t3, e);
  }

  /** Steps 1-3 of a full run. */
  lemma FirstSteps(s: State, e: Env) returns (t: State)
    requires StateOk(s, 0) && EnvOk(s, e) && s.voxelSize != 0.0
    ensures EnvOk(t, e) && StateOk(t, 3) && SameSetup(t, s) && t.seeds == s.seeds
    ensures Run(s, e, 1, StepNum + 1) == Run(t, e, 4, StepNum - 2)
  {
    var t1 := RunStep(s, e, 1, 8);
    var t2 := RunStep(t1, e, 2, 7);
    t := RunStep(t2, e, 3, 6);
  }

  /** Steps 4-7 of a full run, and the loop's end. */
  lemma LastSteps(s: State, e: Env)
    requires StateOk(s, 3) && EnvOk(s, e) && s.voxelSize != 0.0
    ensures Run(s, e, 4, StepNum - 2).Success?
    ensures var t := Run(s, e, 4, StepNum - 2).value;
      StateOk(t, StepNum) && SameSetup(t, s) && Counted(t, s.seeds)
  {
    var t4 := RunStep(s, e, 4, 5);
    var t5 := RunStep(t4, e, 5, 4);
    var t6 := RunStep(t5, e, 6, 3);
    var t7 := RunStep(t6, e, 7, 2);
    RunEnd(t7, e);
  }

  /** The command line as written starts the loop at step 2, but the
      constructor leaves the segmentation unset, so step 2 raises and
      nothing is written. */
  lemma CommandLineAsWritten(img: Volume, contour: Volume, w: int, h: int, d: int, b: ContourLogic.BBox,
                             voxelSize: real, lower: int, upper: int, thickness: int, distance: int, s: State, e: Env)
    requires CB.BoxOf(contour, w, h, d, Some(b))
    requires NewAsWritten(Some(img), Some(contour), w, h, d, Some(b), voxelSize, lower, upper, thickness, distance) == Some(s)
    requires EnvOk(s, e)
    ensures StateOk(s, 0) && s.seg.None?
    ensures s.contour == CB.SetContourAsWritten(contour, w, h, d, Some(b))
    ensures Run(s, e, 2, StepNum) == Failure(NoSegmentation)
  {
    NoSegmentationFails(s, e);
  }

  /** Started at step 2 without a segmentation, the loop raises at once. */
  lemma NoSegmentationFails(s: State, e: Env)
    requires EnvOk(s, e) && StateOk(s, 0) && s.seg.None?
    ensures Run(s, e, 2, StepNum) == Failure(NoSegmentation)
  {
    assert Execute(s, 2, e) == Failure(NoSegmentation);
  }

  /** The constructor with a scan and a contour in its box leaves an object
      whose contour is set and whose segmentation is not. */
  lemma Constructed(img: Volume, contour: Volume, w: int, h: int, d: int, b: ContourLogic.BBox,
                    voxelSize: real, lower: int, upper: int, thickness: int, distance: int, s: State)
    requires CB.BoxOf(contour, w, h, d, Some(b))
    requires New(Some(img), Some(contour), w, h, d, Some(b), voxelSize, lower, upper, thickness, distance) == Some(s)
    ensures StateOk(s, 0) && s.seg.None? && s.seeds == [] && s.voxelSize == voxelSize
    ensures s.contour == CB.SetContour(contour, w, h, d, Some(b))
  {
  }

  /** The command line started at step 1, as the Peters command line does:
      the run completes with a 0/1 output inside the contour and one seed
      per break. */
  lemma CommandLineRun(img: Volume, contour: Volume, w: int, h: int, d: int, b: ContourLogic.BBox,
                       voxelSize: real, lower: int, upper: int, thickness: int, distance: int, s: State, e: Env)
    requires CB.BoxOf(contour, w, h, d, Some(b))
    requires New(Some(img), Some(contour), w, h, d, Some(b), voxelSize, lower, upper, thickness, distance) == Some(s)
    requires voxelSize != 0.0 && EnvOk(s, e)
    ensures StateOk(s, 0) && s.seeds == []
    ensures Run(s, e, 1, StepNum + 1).Success?
    ensures var t := Run(s, e, 1, StepNum + 1).value;
      StateOk(t, StepNum) && IsBinary(t.output.value, 1) && Support(t.output.value) <= Support(s.contour.value.peri)
    ensures Counted(Run(s, e, 1, StepNum + 1).value, [])
  {
    Constructed(img, contour, w, h, d, b, voxelSize, lower, upper, thickness, distance, s);
    FullRun(s, e);
  }
}
