/** AutoMaskLogic: the Slicer logic of the automatic mask. It checks the
    parameters before handing them to the mask object, clears slices of
    the mask segments, drives the mask object's steps and checks the
    scan's intensity units. The mask object's own steps are not part of
    this model: execute(step, algorithm) enters as a given function. */
module AutoMaskLogic {
  import opened Wrappers
  import opened Volumes
  import Intensity
  import PyNum

  /** What setParameters hands to the mask object. */
  datatype Params = Params(
    model: Volume, roughMask: Option<Volume>, threshMethod: Option<string>,
    lower: int, upper: int, sigma: real, boneNum: int, radius: int)

  /** setParameters (None for False): the input and output must differ,
      and lower <= upper is checked only when no automatic threshold
      method is given; a method is set instead of the thresholds. */
  function SetParameters(p: Params, inputId: int, outputId: int, model: Volume, separateMap: Option<Volume>,
                         sigma: real, boneNum: int, radius: int,
                         threshMethod: Option<string>, lower: int, upper: int): (r: Option<Params>)
    ensures r.None? <==> inputId == outputId || (threshMethod.None? && lower > upper)
    ensures r.Some? ==> r.value.model == model && r.value.roughMask == separateMap
    ensures r.Some? ==>
      r.value.sigma == sigma && r.value.boneNum == boneNum && r.value.radius == radius
    ensures r.Some? && threshMethod.Some? ==> r.value.threshMethod == threshMethod && r.value.lower == p.lower && r.value.upper == p.upper
    ensures r.Some? && threshMethod.None? ==> r.value.threshMethod == p.threshMethod && r.value.lower == lower && r.value.upper == upper
  {
    if inputId == outputId then None
    else if threshMethod.None? && lower > upper then None
    else
      var q := p.(model := model, roughMask := separateMap, sigma := sigma, boneNum := boneNum, radius := radius);
      if threshMethod.Some? then Some(q.(threshMethod := threshMethod)) else Some(q.(lower := lower, upper := upper))
  }

  /** With a threshold method, even reversed thresholds are accepted, and
      they are not used. */
  lemma MethodSkipsThresholds(p: Params, inputId: int, outputId: int, model: Volume, separateMap: Option<Volume>,
                              sigma: real, boneNum: int, radius: int, threshMethod: string, lower: int, upper: int)
    requires inputId != outputId && lower > upper
    ensures SetParameters(p, inputId, outputId, model, separateMap, sigma, boneNum, radius, Some(threshMethod), lower, upper) ==
      Some(Params(model, separateMap, Some(threshMethod), p.lower, p.upper, sigma, boneNum, radius))
  {
  }

  /** numpy's index of slice vox on an axis of length d: a negative index
      counts from the end; None is the IndexError. */
  function SliceIndex(vox: int, d: int): (r: Option<int>)
    ensures r.Some? <==> -d <= vox < d
    ensures r.Some? ==> 0 <= r.value < d
    ensures r.Some? ==> r.value == (if vox >= 0 then vox else vox + d)
  {
    if 0 <= vox < d then Some(vox)
    else if -d <= vox < 0 then Some(vox + d)
    else None
  }

  /** The slices range(start, finish + 1) clears, or None when one of the
      indices raises. */
  function DeletedSlices(start: int, finish: int, d: int): (r: Option<set<int>>)
    ensures r.None? <==> exists vox :: start <= vox <= finish && SliceIndex(vox, d).None?
    ensures r.Some? ==> forall vox :: start <= vox <= finish ==> SliceIndex(vox, d).value in r.value
    ensures r.Some? ==> forall z :: z in r.value ==> exists vox :: start <= vox <= finish && SliceIndex(vox, d) == Some(z)
  {
    if exists vox :: start <= vox <= finish && SliceIndex(vox, d).None? then None
    else Some(set vox | start <= vox <= finish :: SliceIndex(vox, d).value)
  }

  /** A range inside 0..d-1 clears exactly its own slices. */
  lemma DeletedSlicesInRange(start: int, finish: int, d: int)
    requires 0 <= start && finish < d
    ensures DeletedSlices(start, finish, d).Some?
    ensures forall z :: z in DeletedSlices(start, finish, d).value <==> start <= z <= finish
  {
    assert forall vox :: start <= vox <= finish ==> SliceIndex(vox, d) == Some(vox);
    var r := DeletedSlices(start, finish, d);
    forall z | z in r.value
      ensures start <= z <= finish
    {
      var vox :| start <= vox <= finish && SliceIndex(vox, d) == Some(z);
    }
    forall z | start <= z <= finish
      ensures z in r.value
    {
      assert SliceIndex(z, d).value in r.value;
    }
  }

  /** The segment with the given slices set to 0. */
  function ClearSlices(a: Volume, slices: set<int>): (r: Volume)
    ensures r.Keys == a.Keys
    ensures Support(r) == Support(a) - (set i | i in a && i.z in slices)
  {
    map i | i in a :: if i.z in slices then 0 else a[i]
  }

  /** Clearing twice clears nothing more. */
  lemma ClearSlicesIdempotent(a: Volume, slices: set<int>)
    ensures ClearSlices(ClearSlices(a, slices), slices) == ClearSlices(a, slices)
  {
  }

  /** Voxels outside the cleared slices keep their values. */
  lemma ClearSlicesKeeps(a: Volume, slices: set<int>, i: Idx)
    requires i in a && i.z !in slices
    ensures ClearSlices(a, slices)[i] == a[i]
  {
  }

  /** applyDeleteMask: every segment of the mask, on the scan's grid, has
      the slices start..finish cleared; an index out of range raises. */
  function ApplyDeleteMask(segments: seq<Volume>, w: int, h: int, d: int, start: int, finish: int): (r: Option<seq<Volume>>)
    requires forall k :: 0 <= k < |segments| ==> segments[k].Keys == Grid(w, h, d)
    ensures r.None? <==> |segments| > 0 && DeletedSlices(start, finish, d).None?
    ensures r.Some? ==> |r.value| == |segments|
    ensures r.Some? && |segments| > 0 ==> forall k :: 0 <= k < |segments| ==>
      r.value[k].Keys == Grid(w, h, d) &&
      Support(r.value[k]) == Support(segments[k]) - (set i | i in segments[k] && i.z in DeletedSlices(start, finish, d).value)
  {
    if |segments| == 0 then Some([])
    else
      match DeletedSlices(start, finish, d)
      case None => None
      case Some(slices) => Some(seq(|segments|, k requires 0 <= k < |segments| => ClearSlices(segments[k], slices)))
  }

  /** What execute(step, algorithm) does: report True or False, or raise. */
  datatype Outcome = Returned(more: bool) | Raises

  /** The loop of algorithm 1 from `step`: execute until a step does not
      report True. `bound` is a step at which the mask object stops
      reporting True. The result is the steps called, and whether the last
      one raised. */
  function Loop(execute: int -> Outcome, step: int, bound: int): (r: (seq<int>, bool))
    requires step <= bound && execute(bound) != Returned(true)
    ensures |r.0| >= 1
    ensures forall k :: 0 <= k < |r.0| ==> r.0[k] == step + k
    ensures forall k :: 0 <= k < |r.0| - 1 ==> execute(r.0[k]) == Returned(true)
    ensures execute(r.0[|r.0| - 1]) != Returned(true)
    ensures r.1 <==> execute(r.0[|r.0| - 1]) == Raises
    decreases bound - step
  {
    match execute(step)
    case Returned(true) =>
      var rest := Loop(execute, step + 1, bound);
      ([step] + rest.0, rest.1)
    case _ => ([step], execute(step) == Raises)
  }

  /** A run of getMask: the steps executed, the progress values reported,
      and the result (None when an exception leaves getMask). */
  datatype MaskRun = MaskRun(calls: seq<int>, progress: seq<int>, result: Option<bool>)

  /** getMask: algorithm 1 reports 0, runs the loop from step 1 and adds
      100 // stepNum per step reporting True, returning False if a step
      raises; algorithm 0 runs execute(0) once, outside the try; any other
      algorithm runs nothing. Then the mask is written and True returned. */
  function GetMask(algorithm: int, execute: int -> Outcome, stepNum: int, bound: int): (r: MaskRun)
    requires algorithm == 1 ==> 1 <= bound && execute(bound) != Returned(true)
    ensures algorithm == 1 && stepNum == 0 ==> r.result.None? && r.calls == []
    ensures algorithm == 1 && stepNum != 0 ==>
      |r.calls| >= 1 && r.calls[0] == 1 &&
      (forall k :: 0 <= k < |r.calls| ==> r.calls[k] == k + 1) &&
      (forall k :: 0 <= k < |r.calls| - 1 ==> execute(r.calls[k]) == Returned(true)) &&
      execute(r.calls[|r.calls| - 1]) != Returned(true) &&
      |r.progress| == |r.calls| &&
      (forall k :: 0 <= k < |r.progress| ==> r.progress[k] == k * (PyNum.FloorDiv(100, stepNum))) &&
      (r.result == Some(false) <==> execute(r.calls[|r.calls| - 1]) == Raises) &&
      r.result.Some?
    ensures algorithm == 0 ==> r.calls == [0] && r.progress == [] && (r.result.None? <==> execute(0) == Raises)
    ensures algorithm == 0 && r.result.Some? ==> r.result.value
    ensures algorithm != 0 && algorithm != 1 ==> r.calls == [] && r.result == Some(true)
  {
    if algorithm == 1 then
      if stepNum == 0 then MaskRun([], [], None)
      else
        var (calls, raised) := Loop(execute, 1, bound);
        var progress := seq(|calls|, k requires 0 <= k < |calls| => k * (PyNum.FloorDiv(100, stepNum)));
        MaskRun(calls, progress, Some(!raised))
    else if algorithm == 0 then
      if execute(0) == Raises then MaskRun([0], [], None) else MaskRun([0], [], Some(true))
    else MaskRun([], [], Some(true))
  }

  /** A mask object whose steps 1..n report True and step n + 1 False is
      run through exactly those steps. */
  lemma {:induction false} LoopRunsAllSteps(execute: int -> Outcome, step: int, n: int)
    requires step <= n + 1
    requires forall k :: step <= k <= n ==> execute(k) == Returned(true)
    requires execute(n + 1) == Returned(false)
    ensures Loop(execute, step, n + 1).0 == seq(n + 2 - step, k requires 0 <= k < n + 2 - step => step + k)
    ensures !Loop(execute, step, n + 1).1
    decreases n + 1 - step
  {
    var want := seq(n + 2 - step, k requires 0 <= k < n + 2 - step => step + k);
    if step <= n {
      LoopRunsAllSteps(execute, step + 1, n);
      var rest := Loop(execute, step + 1, n + 1);
      assert Loop(execute, step, n + 1) == ([step] + rest.0, rest.1);
      assert want == [step] + want[1..];
      assert want[1..] == rest.0;
    } else {
      assert Loop(execute, step, n + 1) == ([step], false);
      assert want == [step];
    }
  }

  /** intensityCheck: out-of-range values are those above 4000 and below
      -1000. */
  function IntensityCheck(arr: seq<int>): (r: Option<bool>)
    ensures r.None? <==> |arr| == 0
    ensures |arr| > 0 ==> r == Some(-1000.0 < Intensity.Mean(arr) < 1000.0 && 250000.0 < Intensity.Variance(arr) < 1000000.0 &&
                                     10 * (Intensity.CountAbove(arr, 4000) + Intensity.CountBelow(arr, -1000)) < |arr|)
    ensures |arr| > 0 && (forall i :: 0 <= i < |arr| ==> -1000 <= arr[i] <= 4000) ==>
      r == Some(-1000.0 < Intensity.Mean(arr) < 1000.0 && 250000.0 < Intensity.Variance(arr) < 1000000.0)
    ensures |arr| > 0 && (forall i :: 0 <= i < |arr| ==> arr[i] == arr[0]) ==> r == Some(false)
  {
    var r := Intensity.Check(arr, -1000, 4000);
    assert |arr| > 0 ==> r == Some(-1000.0 < Intensity.Mean(arr) < 1000.0 && 250000.0 < Intensity.Variance(arr) < 1000000.0 &&
                                   10 * (Intensity.CountAbove(arr, 4000) + Intensity.CountBelow(arr, -1000)) < |arr|) by {
      if |arr| > 0 { Intensity.CheckShares(arr, -1000, 4000); }
    }
    assert |arr| > 0 && (forall i :: 0 <= i < |arr| ==> arr[i] == arr[0]) ==> r == Some(false) by {
      if |arr| > 0 && forall i :: 0 <= i < |arr| ==> arr[i] == arr[0] {
        Intensity.UniformRejected(arr, arr[0], -1000, 4000);
      }
    }
    r
  }
}
