/** CorticalBreakDetectionLogic: the Slicer logic that validates the
    parameters, chooses the Peters or the cone-beam CT algorithm, runs
    its steps and checks the scan's intensity units. Slicer nodes are
    their ids and images; the progress bar is the list of values the
    logic would report. */
module BreakDetectionLogic {
  import opened Wrappers
  import opened Volumes
  import ContourLogic
  import Cropping
  import CB = CorticalBreaks
  import PetersBreaks
  import CbctBreaks
  import Intensity

  /** The algorithm object the logic holds: the constructor makes a Peters
      one, setCorticalBreaksParameters may replace it. */
  datatype Algorithm = Peters(p: PetersBreaks.State) | Cbct(c: CbctBreaks.State)

  /** setPreprocessParameters: lower > upper is rejected; otherwise the
      scan and the thresholds are handed to the algorithm object (sigma
      goes to the smoothing filter, which the model leaves abstract). */
  function SetPreprocessParameters(a: Algorithm, model: Volume, lower: int, upper: int): (r: Option<Algorithm>)
    ensures r.None? <==> lower > upper
    ensures r.Some? && a.Peters? ==>
      r.value.Peters? && r.value.p.model == model && r.value.p.lower == lower && r.value.p.upper == upper &&
      r.value.p.(model := a.p.model, lower := a.p.lower, upper := a.p.upper) == a.p
    ensures r.Some? && a.Cbct? ==>
      r.value.Cbct? && r.value.c.model == Some(model) && r.value.c.lower == lower && r.value.c.upper == upper &&
      r.value.c.seg == a.c.seg && r.value.c.contour == a.c.contour && r.value.c.voxelSize == a.c.voxelSize
  {
    if lower > upper then None
    else
      match a
      case Peters(p) => Some(Peters(p.(model := model, lower := lower, upper := upper)))
      case Cbct(c) => Some(Cbct(CbctBreaks.SetModel(c, model).(lower := lower, upper := upper)))
  }

  /** preprocess: step 1 alone, whose segmentation is the result: the
      voxels whose smoothed value lies in lower..upper. */
  function Preprocess(a: Algorithm, pe: PetersBreaks.Env, ce: CbctBreaks.Env): (r: (Algorithm, Volume))
    requires a.Peters? ==> pe.smoothed.Keys == a.p.model.Keys
    ensures IsBinary(r.1, 1)
    ensures a.Peters? ==> r.1.Keys == a.p.model.Keys
    ensures a.Peters? ==>
      forall i :: i in a.p.model ==> (r.1[i] == 1 <==> a.p.lower as real <= pe.smoothed[i] <= a.p.upper as real)
    ensures a.Cbct? ==> r.1.Keys == ce.smoothed.Keys
    ensures a.Cbct? ==>
      forall i :: i in ce.smoothed ==> (r.1[i] == 1 <==> a.c.lower as real <= ce.smoothed[i] <= a.c.upper as real)
    ensures r.0.Peters? == a.Peters?
    ensures r.0.Peters? ==> r.0.p.seg == Some(r.1) && r.0.p.(seg := a.p.seg) == a.p
    ensures r.0.Cbct? ==> r.0.c.seg == Some(r.1) && r.0.c.(seg := a.c.seg) == a.c
  {
    match a
    case Peters(p) =>
      var t := PetersBreaks.Smoothen(p, pe);
      (Peters(t), t.seg.value)
    case Cbct(c) =>
      var t := CbctBreaks.Smoothen(c, ce);
      (Cbct(t), t.seg.value)
  }

  /** What setCorticalBreaksParameters ends with: False from the checks,
      an exception from setContour, or the configured algorithm. */
  datatype Setup = Rejected | Raised | Configured(a: Algorithm)

  /** The images and ids setCorticalBreaksParameters reads. The mask comes
      with its grid and the bounding box of its voxels in 1..255 (None when it
      has none). */
  datatype Inputs = Inputs(
    boneId: int, maskId: int, outputId: int,
    model: Volume, seg: Volume, mask: Volume, w: int, h: int, d: int, box: Option<ContourLogic.BBox>)

  /** The mask is what setContour expects. */
  predicate InputsOk(n: Inputs) {
    CB.BoxOf(n.mask, n.w, n.h, n.d, n.box)
  }

  /** The checks of setCorticalBreaksParameters. */
  predicate Valid(n: Inputs, lower: int, upper: int) {
    n.boneId != n.outputId && n.maskId != n.outputId && lower <= upper
  }

  /** The body of setCorticalBreaksParameters once the checks pass, with
      the voxel size as it is handed to the algorithm object. */
  function Configure(n: Inputs, lower: int, upper: int, thickness: int, distance: int, voxelSize: real, cbct: bool): (r: Setup)
    requires InputsOk(n)
    ensures r.Raised? <==> n.box.None?
    ensures r.Rejected? ==> false
    ensures r.Configured? ==> (r.a.Cbct? <==> cbct)
    ensures r.Configured? && r.a.Peters? ==>
      r.a.p == PetersSetup(n, CB.SetContour(n.mask, n.w, n.h, n.d, n.box).value, lower, upper, thickness, distance, voxelSize)
    ensures r.Configured? && r.a.Cbct? ==>
      r.a.c == CbctSetup(n, CB.SetContour(n.mask, n.w, n.h, n.d, n.box).value, lower, upper, thickness, distance, voxelSize)
  {
    match CB.SetContour(n.mask, n.w, n.h, n.d, n.box)
    case None => Raised
    case Some(contour) =>
      if cbct then Configured(Cbct(CbctSetup(n, contour, lower, upper, thickness, distance, voxelSize)))
      else Configured(Peters(PetersSetup(n, contour, lower, upper, thickness, distance, voxelSize)))
  }

  /** The Peters object: default, segmentation, contour, scan, parameters. */
  function PetersSetup(n: Inputs, contour: CB.Contour, lower: int, upper: int, thickness: int, distance: int,
                       voxelSize: real): (p: PetersBreaks.State)
    requires InputsOk(n) && CB.SetContour(n.mask, n.w, n.h, n.d, n.box) == Some(contour)
    ensures PetersBreaks.StateOk(p, 1) && p.model == n.model && p.contour == Some(contour) &&
      Support(p.seg.value) == (set i | i in n.seg && 1 <= n.seg[i] <= UpperDefault) &&
      p.voxelSize == voxelSize && p.lower == lower && p.upper == upper &&
      p.thickness == thickness && p.distance == distance && p.seeds == []
  {
    var p := PetersBreaks.SetSeg(PetersBreaks.Default(), n.seg);
    p.(contour := Some(contour), model := n.model,
       thickness := thickness, distance := distance, lower := lower, upper := upper, voxelSize := voxelSize)
  }

  /** The cone-beam CT object: default, segmentation, contour, scan,
      parameters. */
  function CbctSetup(n: Inputs, contour: CB.Contour, lower: int, upper: int, thickness: int, distance: int,
                     voxelSize: real): (c: CbctBreaks.State)
    requires InputsOk(n) && CB.SetContour(n.mask, n.w, n.h, n.d, n.box) == Some(contour)
    ensures CbctBreaks.StateOk(c, 0) && c.model == Some(n.model) && c.contour == Some(contour) &&
      c.seg == Some(n.seg) && c.voxelSize == voxelSize && c.lower == lower && c.upper == upper &&
      c.thickness == thickness && c.distance == distance && c.seeds == []
  {
    var c := CbctBreaks.SetSeg(CbctBreaks.Default(), n.seg);
    CbctBreaks.SetModel(c.(contour := Some(contour)), n.model).(
      thickness := thickness, distance := distance, lower := lower, upper := upper, voxelSize := voxelSize)
  }

  /** setCorticalBreaksParameters as written: the voxel size given in
      millimetres is passed on multiplied by 1000, to either algorithm. */
  function SetCorticalBreaksParametersAsWritten(n: Inputs, lower: int, upper: int, thickness: int, distance: int,
                                                voxelSize: real, cbct: bool): (r: Setup)
    requires InputsOk(n)
    ensures r.Rejected? <==> !Valid(n, lower, upper)
    ensures r.Raised? <==> Valid(n, lower, upper) && n.box.None?
    ensures r.Configured? ==> (r.a.Cbct? <==> cbct)
    ensures r.Configured? && r.a.Peters? ==> r.a.p.voxelSize == voxelSize * 1000.0
    ensures r.Configured? && r.a.Cbct? ==> r.a.c.voxelSize == voxelSize * 1000.0
  {
    if !Valid(n, lower, upper) then Rejected
    else Configure(n, lower, upper, thickness, distance, voxelSize * 1000.0, cbct)
  }

  /** setCorticalBreaksParameters with each algorithm given the unit it
      works in: micrometres for the Peters version, millimetres for the
      cone-beam CT version. */
  function SetCorticalBreaksParameters(n: Inputs, lower: int, upper: int, thickness: int, distance: int,
                                       voxelSize: real, cbct: bool): (r: Setup)
    requires InputsOk(n)
    ensures r.Rejected? <==> !Valid(n, lower, upper)
    ensures r.Raised? <==> Valid(n, lower, upper) && n.box.None?
    ensures r.Configured? ==> (r.a.Cbct? <==> cbct)
    ensures r.Configured? && r.a.Peters? ==> r.a.p.voxelSize == voxelSize * 1000.0
    ensures r.Configured? && r.a.Cbct? ==> r.a.c.voxelSize == voxelSize
  {
    if !Valid(n, lower, upper) then Rejected
    else Configure(n, lower, upper, thickness, distance, if cbct then voxelSize else voxelSize * 1000.0, cbct)
  }

  /** Both minimum break sizes are the same rule written in two units:
      the Peters size at v micrometres equals the cone-beam CT size at v
      millimetres over 1000. */
  lemma SameRuleInBothUnits(mm: real)
    requires mm != 0.0
    ensures CbctBreaks.MinBreakSize(mm) == PetersBreaks.MinBreakSize(mm * 1000.0)
  {
    assert 0.082 / mm == 82.0 / (mm * 1000.0);
  }

  /** As written, a cone-beam CT scan of 10 micrometres or coarser gets a
      minimum break size of 0, so the size test removes no break; only the
      cap of 255 labels after RelabelComponent, which is not modelled, can
      still drop the smallest ones. */
  lemma CbctLimitAsWritten(n: Inputs, lower: int, upper: int, thickness: int, distance: int, mm: real, c: CbctBreaks.State)
    requires InputsOk(n) && mm >= 0.01
    requires SetCorticalBreaksParametersAsWritten(n, lower, upper, thickness, distance, mm, true) == Configured(Cbct(c))
    ensures CbctBreaks.MinBreakSize(c.voxelSize) == 0
  {
    assert c.voxelSize >= 10.0 by {
      assert c.voxelSize == mm * 1000.0;
    }
    CbctLimitAt(c.voxelSize);
  }

  /** The cone-beam CT limit is 0 for any voxel size of 10 or more. */
  lemma CbctLimitAt(v: real)
    requires v >= 10.0
    ensures CbctBreaks.MinBreakSize(v) == 0
  {
    var x := 0.082 / v;
    ScaleBound(v);
    SmallCube(x);
    var n := CbctBreaks.MinBreakSize(v);
    assert 0.0 <= 20.0 * CbctBreaks.Cube(x) <= 0.00002;
  }

  lemma ScaleBound(v: real)
    requires v >= 10.0
    ensures 0.0 < 0.082 / v <= 0.0082
  {
    var x := 0.082 / v;
    assert x * v == 0.082;
    MulLeft(10.0, v, x);
  }

  /** a <= b scaled by c >= 0. */
  lemma MulLeft(a: real, b: real, c: real)
    requires a <= b && c >= 0.0
    ensures c * a <= c * b
  {
  }

  lemma SmallCube(x: real)
    requires 0.0 < x <= 0.0082
    ensures 0.0 <= CbctBreaks.Cube(x) <= 0.000001
  {
    MulLeft(0.0, x, x);
    MulLeft(x, 0.0082, x);
    assert x * x <= x * 0.0082;
    MulLeft(x, 0.0082, 0.0082);
    assert 0.0082 * x <= 0.0082 * 0.0082;
    var sq := x * x;
    assert 0.0 <= sq <= 0.00006724;
    MulLeft(0.0, sq, x);
    MulLeft(sq, 0.00006724, x);
    assert x * sq <= x * 0.00006724;
    MulLeft(x, 0.0082, 0.00006724);
    assert 0.00006724 * x <= 0.00006724 * 0.0082;
    assert CbctBreaks.Cube(x) == x * sq;
  }

  /** With the units corrected, the cone-beam CT limit on a scan of
      82 micrometres is 20 voxels, the same as the Peters limit. */
  lemma CbctLimitCorrected(n: Inputs, lower: int, upper: int, thickness: int, distance: int, c: CbctBreaks.State)
    requires InputsOk(n)
    requires SetCorticalBreaksParameters(n, lower, upper, thickness, distance, 0.082, true) == Configured(Cbct(c))
    ensures CbctBreaks.MinBreakSize(c.voxelSize) == 20 == PetersBreaks.MinBreakSize(82.0)
  {
    CbctBreaks.MinBreakSizes();
    PetersBreaks.MinBreakSizes();
  }

  /** What getCorticalBreaks needs: the setup above, and filters that fit
      the algorithm's images. */
  ghost predicate RunReady(a: Algorithm, pe: PetersBreaks.Env, ce: CbctBreaks.Env) {
    match a
    case Peters(p) => PetersBreaks.StateOk(p, 1) && PetersBreaks.EnvOk(p, pe)
    case Cbct(c) => CbctBreaks.StateOk(c, 0) && c.seg.Some? && CbctBreaks.EnvOk(c, ce)
  }

  function VoxelSize(a: Algorithm): real {
    match a
    case Peters(p) => p.voxelSize
    case Cbct(c) => c.voxelSize
  }

  function StepNum(a: Algorithm): (n: int)
    ensures n >= 1
  {
    match a
    case Peters(_) => PetersBreaks.StepNum
    case Cbct(_) => CbctBreaks.StepNum
  }

  /** getCorticalBreaks: execute from step 2 until a step reports False;
      an exception makes it return False (None). */
  function GetCorticalBreaks(a: Algorithm, pe: PetersBreaks.Env, ce: CbctBreaks.Env): (r: Option<Algorithm>)
    requires RunReady(a, pe, ce)
    ensures r.Some? ==> r.value.Peters? == a.Peters?
  {
    match a
    case Peters(p) =>
      (match PetersBreaks.Run(p, pe, 2, PetersBreaks.StepNum)
       case Failure(_) => None
       case Success(t) => Some(Peters(t)))
    case Cbct(c) =>
      (match CbctBreaks.Run(c, ce, 2, CbctBreaks.StepNum)
       case Failure(_) => None
       case Success(t) => Some(Cbct(t)))
  }

  /** The run from step 2 succeeds exactly when the voxel size is not 0,
      and then leaves a 0/1 output inside the contour and one seed per
      break. */
  lemma GetCorticalBreaksResult(a: Algorithm, pe: PetersBreaks.Env, ce: CbctBreaks.Env)
    requires RunReady(a, pe, ce)
    ensures GetCorticalBreaks(a, pe, ce).None? <==> VoxelSize(a) == 0.0
    ensures GetCorticalBreaks(a, pe, ce).Some? && a.Peters? ==>
      var t := GetCorticalBreaks(a, pe, ce).value.p;
      PetersBreaks.StateOk(t, PetersBreaks.StepNum) && IsBinary(t.output.value, 1) &&
      Support(t.output.value) <= Support(a.p.contour.value.peri) && PetersBreaks.Counted(t, a.p.seeds)
    ensures GetCorticalBreaks(a, pe, ce).Some? && a.Cbct? ==>
      var t := GetCorticalBreaks(a, pe, ce).value.c;
      CbctBreaks.StateOk(t, CbctBreaks.StepNum) && IsBinary(t.output.value, 1) &&
      Support(t.output.value) <= Support(a.c.contour.value.peri) && CbctBreaks.Counted(t, a.c.seeds)
  {
    match a
    case Peters(p) =>
      if p.voxelSize == 0.0 {
        PetersZeroVoxel(p, pe);
      } else {
        PetersFromStep2(p, pe);
      }
    case Cbct(c) =>
      if c.voxelSize == 0.0 {
        CbctZeroVoxel(c, ce);
      } else {
        CbctFromStep2(c, ce);
      }
  }

  lemma PetersFromStep2(s: PetersBreaks.State, e: PetersBreaks.Env)
    requires PetersBreaks.StateOk(s, 1) && PetersBreaks.EnvOk(s, e) && s.voxelSize != 0.0
    ensures PetersBreaks.Run(s, e, 2, PetersBreaks.StepNum).Success?
    ensures var t := PetersBreaks.Run(s, e, 2, PetersBreaks.StepNum).value;
      PetersBreaks.StateOk(t, PetersBreaks.StepNum) && t.contour == s.contour && PetersBreaks.Counted(t, s.seeds)
  {
    var t2 := PetersBreaks.RunStep(s, e, 2);
    var t3 := PetersBreaks.RunStep(t2, e, 3);
    var t4 := PetersBreaks.RunStep(t3, e, 4);
    var t5 := PetersBreaks.RunStep(t4, e, 5);
    var t6 := PetersBreaks.RunStep(t5, e, 6);
    var t7 := PetersBreaks.RunStep(t6, e, 7);
    var t8 := PetersBreaks.RunStep(t7, e, 8);
    var t9 := PetersBreaks.RunStep(t8, e, 9);
    var t10 := PetersBreaks.RunStep(t9, e, 10);
    var t11 := PetersBreaks.RunStep(t10, e, 11);
    var t12 := PetersBreaks.RunStep(t11, e, 12);
    PetersBreaks.RunEnd(t12, e);
    PetersBreaks.Finished(t12);
  }

  lemma PetersZeroVoxel(s: PetersBreaks.State, e: PetersBreaks.Env)
    requires PetersBreaks.StateOk(s, 1) && PetersBreaks.EnvOk(s, e) && s.voxelSize == 0.0
    ensures PetersBreaks.Run(s, e, 2, PetersBreaks.StepNum).Failure?
  {
    var t2 := PetersBreaks.Execute(s, 2, e).value.0;
    assert PetersBreaks.Run(s, e, 2, 12) == PetersBreaks.Run(t2, e, 3, 11);
    var t3 := PetersBreaks.Execute(t2, 3, e).value.0;
    assert PetersBreaks.Run(t2, e, 3, 11) == PetersBreaks.Run(t3, e, 4, 10);
    var t4 := PetersBreaks.Execute(t3, 4, e).value.0;
    assert PetersBreaks.Run(t3, e, 4, 10) == PetersBreaks.Run(t4, e, 5, 9);
    assert PetersBreaks.Execute(t4, 5, e).Failure?;
  }

  lemma CbctFromStep2(s: CbctBreaks.State, e: CbctBreaks.Env)
    requires CbctBreaks.StateOk(s, 0) && s.seg.Some? && CbctBreaks.EnvOk(s, e) && s.voxelSize != 0.0
    ensures CbctBreaks.Run(s, e, 2, CbctBreaks.StepNum).Success?
    ensures var t := CbctBreaks.Run(s, e, 2, CbctBreaks.StepNum).value;
      CbctBreaks.StateOk(t, CbctBreaks.StepNum) && t.contour == s.contour && CbctBreaks.Counted(t, s.seeds) &&
      IsBinary(t.output.value, 1) && Support(t.output.value) <= Support(s.contour.value.peri)
  {
    var t2 := CbctBreaks.Execute(s, 2, e).value.0;
    assert CbctBreaks.Run(s, e, 2, 7) == CbctBreaks.Run(t2, e, 3, 6);
    var t3 := CbctBreaks.RunStep(t2, e, 3, 6);
    var t4 := CbctBreaks.RunStep(t3, e, 4, 5);
    var t5 := CbctBreaks.RunStep(t4, e, 5, 4);
    var t6 := CbctBreaks.RunStep(t5, e, 6, 3);
    var t7 := CbctBreaks.RunStep(t6, e, 7, 2);
    CbctBreaks.RunEnd(t7, e);
  }

  lemma CbctZeroVoxel(s: CbctBreaks.State, e: CbctBreaks.Env)
    requires CbctBreaks.StateOk(s, 0) && s.seg.Some? && CbctBreaks.EnvOk(s, e) && s.voxelSize == 0.0
    ensures CbctBreaks.Run(s, e, 2, CbctBreaks.StepNum).Failure?
  {
    var t2 := CbctBreaks.Execute(s, 2, e).value.0;
    assert CbctBreaks.Run(s, e, 2, 7) == CbctBreaks.Run(t2, e, 3, 6);
    var t3 := CbctBreaks.Execute(t2, 3, e).value.0;
    assert CbctBreaks.Run(t2, e, 3, 6) == CbctBreaks.Run(t3, e, 4, 5);
    var t4 := CbctBreaks.Execute(t3, 4, e).value.0;
    assert CbctBreaks.Run(t3, e, 4, 5) == CbctBreaks.Run(t4, e, 5, 4);
    assert CbctBreaks.Execute(t4, 5, e).Failure?;
  }

  /** The progress bar of a run from step 2: it starts at 100 // stepNum and
      gains as much again after every step that reports True. */
  function Progress(stepNum: int, steps: nat): (r: seq<int>)
    requires stepNum >= 1
    ensures |r| == steps + 1
    ensures forall k :: 0 <= k < |r| ==> r[k] == (k + 1) * (100 / stepNum)
  {
    if steps == 0 then [100 / stepNum]
    else
      var before := Progress(stepNum, steps - 1);
      before + [before[|before| - 1] + 100 / stepNum]
  }

  /** A complete run reports steps 2..stepNum, and the bar ends at or below
      100 but less than stepNum short of it: 96 for the Peters version,
      98 for the cone-beam CT version. */
  lemma {:induction false} FinalProgress(stepNum: int)
    requires stepNum >= 2
    ensures var r := Progress(stepNum, stepNum - 1);
      100 - stepNum < r[|r| - 1] <= 100
    ensures Progress(PetersBreaks.StepNum, PetersBreaks.StepNum - 1)[PetersBreaks.StepNum - 1] == 96
    ensures Progress(CbctBreaks.StepNum, CbctBreaks.StepNum - 1)[CbctBreaks.StepNum - 1] == 98
  {
    LastProgress(stepNum);
    LastProgress(PetersBreaks.StepNum);
    LastProgress(CbctBreaks.StepNum);
  }

  /** The last report of a complete run is stepNum (100 // stepNum). */
  lemma LastProgress(stepNum: int)
    requires stepNum >= 2
    ensures Progress(stepNum, stepNum - 1)[stepNum - 1] == stepNum * (100 / stepNum)
    ensures 100 - stepNum < stepNum * (100 / stepNum) <= 100
  {
    var q := 100 / stepNum;
    assert 100 == q * stepNum + 100 % stepNum;
    assert stepNum * q == q * stepNum;
  }

  /** intenstyCheck as written: the out-of-range shares are taken as the
      size of np.where(...), which is the whole array, so both shares are 1
      and the range test can never pass. */
  function IntensityCheckAsWritten(arr: seq<int>): (r: Option<bool>)
    ensures r.None? <==> |arr| == 0
  {
    if |arr| == 0 then None
    else
      var n := |arr| as real;
      Some(Intensity.Plausible(Intensity.Mean(arr), Intensity.Variance(arr), n / n + n / n))
  }

  /** No scan is ever found to be in Hounsfield units. */
  lemma IntensityNeverHounsfield(arr: seq<int>)
    ensures IntensityCheckAsWritten(arr) != Some(true)
  {
  }

  /** intenstyCheck with the shares counted: values above 5000 and below
      -2000. */
  function IntensityCheck(arr: seq<int>): (r: Option<bool>)
    ensures r.None? <==> |arr| == 0
    ensures |arr| > 0 ==> r == Some(-1000.0 < Intensity.Mean(arr) < 1000.0 && 250000.0 < Intensity.Variance(arr) < 1000000.0 &&
                                     10 * (Intensity.CountAbove(arr, 5000) + Intensity.CountBelow(arr, -2000)) < |arr|)
    ensures |arr| > 0 && (forall i :: 0 <= i < |arr| ==> -2000 <= arr[i] <= 5000) ==>
      r == Some(-1000.0 < Intensity.Mean(arr) < 1000.0 && 250000.0 < Intensity.Variance(arr) < 1000000.0)
  {
    var r := Intensity.Check(arr, -2000, 5000);
    assert |arr| > 0 ==> r == Some(-1000.0 < Intensity.Mean(arr) < 1000.0 && 250000.0 < Intensity.Variance(arr) < 1000000.0 &&
                                   10 * (Intensity.CountAbove(arr, 5000) + Intensity.CountBelow(arr, -2000)) < |arr|) by {
      if |arr| > 0 { Intensity.CheckShares(arr, -2000, 5000); }
    }
    r
  }

  /** The corrected check accepts a plain Hounsfield scan the one as
      written rejects. */
  lemma IntensityCheckAccepts()
    ensures IntensityCheck([-600, 600]) == Some(true)
    ensures IntensityCheckAsWritten([-600, 600]) == Some(false)
  {
    Intensity.TwoValueScan();
  }
}
