/** ErosionDetectionLogic: the Slicer-side logic of the erosion detection
    module. It validates the parameters, turns seed points into image
    indices by truncation and runs the eight detection steps. After a
    manual correction it relabels the edited segments with the numbers in
    their names. */
module ErosionDetectionLogic {
  import opened Wrappers
  import opened Volumes
  import PyStr
  import PyNum
  import Labelling
  import DetectionVoidVolume
  import EV = ErosionVolumeLogic

  /** RASToIJKCoords: multiply (x, y, z, 1) by the matrix and truncate
      each of the first three components toward zero with int(). */
  function RasToIjk(m: EV.Matrix, p: EV.Point): (r: Idx)
    ensures TowardZero(r.x, EV.Apply(m.rx, p)) && TowardZero(r.y, EV.Apply(m.ry, p)) && TowardZero(r.z, EV.Apply(m.rz, p))
  {
    Idx(PyNum.Trunc(EV.Apply(m.rx, p)), PyNum.Trunc(EV.Apply(m.ry, p)), PyNum.Trunc(EV.Apply(m.rz, p)))
  }

  /** n is x with its fraction dropped: n lies between 0 and x, less than
      one away from x. */
  predicate TowardZero(n: int, x: real) {
    PyNum.Abs(n as real) <= PyNum.Abs(x) && PyNum.Abs(x - n as real) < 1.0 &&
    (n > 0 ==> x > 0.0) && (n < 0 ==> x < 0.0)
  }

  /** Truncation and rounding differ: a seed at 0.6 voxels lands on index 0
      here and on index 1 in the erosion volume module. */
  lemma TruncateVersusRound()
    ensures PyNum.Trunc(0.6) == 0 && PyNum.Round(0.6) == 1
  {
    PyNum.RoundUnique(0.6, 1);
  }

  /** Why setErosionParameters does not report True: one of its three
      validity checks failed (it returns False), or it raised. */
  datatype Refusal = Invalid | Raised

  /** The three validity checks, in order: the contour and output nodes
      differ, lower <= upper, at least one seed point. */
  predicate Valid(contourId: string, outputId: string, lower: int, upper: int, fiducials: seq<EV.Fiducial>) {
    contourId != outputId && lower <= upper && |fiducials| > 0
  }

  /** setErosionParameters as written: after the checks pass it sets the
      parameters and seeds, then calls setErosionIds, which the detection
      VoidVolumeLogic does not define; the AttributeError escapes. */
  function SetErosionParametersAsWritten(
    contourId: string, outputId: string, lower: int, upper: int, fiducials: seq<EV.Fiducial>): (r: Result<(), Refusal>)
    ensures r.Success? == false
    ensures r == Failure(Invalid) <==> !Valid(contourId, outputId, lower, upper, fiducials)
  {
    if contourId == outputId then Failure(Invalid)
    else if lower > upper then Failure(Invalid)
    else if |fiducials| == 0 then Failure(Invalid)
    else Failure(Raised)
  }

  /** One seed point labelled "F-1", thresholds 3000..10000 and distinct
      nodes pass every check, yet the call raises instead of returning
      True; the corrected version accepts them. */
  lemma SetErosionParametersCounterexample(s: DetectionVoidVolume.State, mask: Volume, m: EV.Matrix)
    ensures SetErosionParametersAsWritten("contour", "output", 3000, 10000, [EV.Fiducial(EV.Point(0.0, 0.0, 0.0), "F-1")]) == Failure(Raised)
    ensures SetErosionParameters(s, mask, "contour", "output", 3000, 10000, [EV.Fiducial(EV.Point(0.0, 0.0, 0.0), "F-1")], m, 3, 4).Success?
  {
  }

  /** setErosionParameters with the erosion ids kept by the caller instead
      of being handed to a setter that does not exist. The thresholds,
      radii, binarised contour and truncated seeds are set on the
      detection object; the ids are computed as the loop writes them,
      with erosion_id_max reset for every seed. */
  function SetErosionParameters(
    s: DetectionVoidVolume.State, mask: Volume, contourId: string, outputId: string,
    lower: int, upper: int, fiducials: seq<EV.Fiducial>, m: EV.Matrix,
    minimalRadius: int, radius: int): (r: Result<(DetectionVoidVolume.State, seq<int>), Refusal>)
    ensures r.Failure? <==> !Valid(contourId, outputId, lower, upper, fiducials)
    ensures r.Failure? ==> r.error == Invalid
    ensures r.Success? ==>
      r.value.0.lower == lower && r.value.0.upper == upper &&
      r.value.0.ero1Distance == minimalRadius && r.value.0.ero1Radius == radius &&
      r.value.0.step == s.step && r.value.0.output == s.output
    ensures r.Success? ==>
      r.value.0.contour.Keys == mask.Keys && IsBinary(r.value.0.contour, 1) &&
      Support(r.value.0.contour) == (set i | i in mask && 1 <= mask[i] <= UpperDefault)
    ensures r.Success? ==>
      r.value.0.seeds.Some? && |r.value.0.seeds.value| == |fiducials| == |r.value.1| &&
      (forall k :: 0 <= k < |fiducials| ==> r.value.0.seeds.value[k] == RasToIjk(m, fiducials[k].pos))
    ensures r.Success? ==>
      r.value.1 == EV.ErosionIdsAsWritten(seq(|fiducials|, k requires 0 <= k < |fiducials| => fiducials[k].name))
  {
    if !Valid(contourId, outputId, lower, upper, fiducials) then Failure(Invalid)
    else
      var t := DetectionVoidVolume.SetContourImage(s, mask);
      var seeds := SeedsOf(fiducials, m);
      var ids := EV.ErosionIdsAsWritten(seq(|fiducials|, k requires 0 <= k < |fiducials| => fiducials[k].name));
      Success((t.(lower := lower, upper := upper, ero1Distance := minimalRadius, ero1Radius := radius, seeds := Some(seeds)), ids))
  }

  /** Each fiducial's rounded IJK index, in order. */
  function SeedsOf(fiducials: seq<EV.Fiducial>, m: EV.Matrix): (r: seq<Idx>)
    ensures |r| == |fiducials|
    ensures forall k :: 0 <= k < |fiducials| ==> r[k] == RasToIjk(m, fiducials[k].pos)
  {
    seq(|fiducials|, k requires 0 <= k < |fiducials| => RasToIjk(m, fiducials[k].pos))
  }

  /** getErosions: call execute until it reports False; a raising step
      makes it return False (None), otherwise the output is pushed. */
  function GetErosions(s: DetectionVoidVolume.State, e: DetectionVoidVolume.Env): (r: Option<Volume>)
    requires DetectionVoidVolume.StateOk(s) && DetectionVoidVolume.EnvOk(s, e)
    ensures r.Some? ==> DetectionVoidVolume.Run(s, e, 9).Success? && DetectionVoidVolume.Run(s, e, 9).value.output == r
    ensures DetectionVoidVolume.Run(s, e, 9).Failure? ==> r.None?
  {
    match DetectionVoidVolume.Run(s, e, 9)
    case Failure(_) => None
    case Success(t) => t.output
  }

  /** From a reset object whose seeds lie in the image, getErosions reports
      success and the erosions lie inside the mask; a seed outside the
      image makes it report failure. */
  lemma GetErosionsOutcome(s: DetectionVoidVolume.State, e: DetectionVoidVolume.Env)
    requires DetectionVoidVolume.StateOk(s) && DetectionVoidVolume.EnvOk(s, e) && s.step == 0
    ensures DetectionVoidVolume.SeedsFit(s) ==>
      GetErosions(s, e).Some? && Support(GetErosions(s, e).value) <= Support(s.contour)
    ensures !DetectionVoidVolume.SeedsFit(s) ==> GetErosions(s, e).None?
  {
    if DetectionVoidVolume.SeedsFit(s) {
      DetectionVoidVolume.RunCompletes(s, e);
    } else {
      var s1 := DetectionVoidVolume.Execute(s, e).value.0;
      assert s1.step == 1 && s1.seeds == s.seeds && s1.w == s.w && s1.h == s.h && s1.d == s.d;
      assert DetectionVoidVolume.Execute(s1, e).Failure?;
      assert DetectionVoidVolume.Run(s, e, 9) == DetectionVoidVolume.Run(s1, e, 8);
    }
  }

  /** The number in the name of the key-th remaining segment (exported as
      label key): the integer after the last '_', if there is one. */
  function NameNumber(names: seq<string>, key: int): Option<int> {
    if 1 <= key <= |names| then PyStr.ParseInt(EV.NameSuffix(names[key - 1])) else None
  }

  /** The label map built from the edited segments: each exported label
      maps to the number in its segment's name; a segment without one gets
      no entry. */
  function CorrectionLabels(names: seq<string>): (m: map<int, int>)
    ensures forall key :: key in m <==> 1 <= key <= |names| && NameNumber(names, key).Some?
    ensures forall key :: key in m ==> m[key] == NameNumber(names, key).value
  {
    map key | 1 <= key <= |names| && NameNumber(names, key).Some? :: NameNumber(names, key).value
  }

  /** applyManualCorrection's relabelling. names are the segments left
      after the contour segment is removed, exported as labels 1..n in
      order. Every key of the map is applied to the voxels whose label in
      the untouched copy equals the key. */
  method ApplyManualCorrection(v: Volume, names: seq<string>) returns (r: Volume)
    ensures r == Labelling.ChangeLabel(v, CorrectionLabels(names))
    ensures r.Keys == v.Keys
    ensures forall i :: i in v && NameNumber(names, v[i]).Some? ==> r[i] == NameNumber(names, v[i]).value
    ensures forall i :: i in v && NameNumber(names, v[i]).None? ==> r[i] == v[i]
  {
    var labels := CorrectionLabels(names);
    var copy := v;
    r := v;
    var key := 1;
    while key <= |names|
      invariant 1 <= key <= |names| + 1
      invariant RelabelledBelow(v, labels, r, key)
    {
      if key in labels {
        var value := labels[key];
        var next := map i | i in r :: if copy[i] == key then value else r[i];
        RelabelStep(v, labels, r, key, next);
        r := next;
      } else {
        RelabelSkip(v, labels, r, key);
      }
      key := key + 1;
    }
    RelabelledAll(v, names, labels, r, key);
  }

  /** r holds the relabelling of v by every key of labels below key. */
  ghost predicate RelabelledBelow(v: Volume, labels: map<int, int>, r: Volume, key: int) {
    r.Keys == v.Keys &&
    forall i :: i in v ==> r[i] == if v[i] in labels && v[i] < key then labels[v[i]] else v[i]
  }

  lemma RelabelStep(v: Volume, labels: map<int, int>, r: Volume, key: int, next: Volume)
    requires RelabelledBelow(v, labels, r, key) && key in labels
    requires next == map i | i in r :: if v[i] == key then labels[key] else r[i]
    ensures RelabelledBelow(v, labels, next, key + 1)
  {
    forall i | i in v
      ensures next[i] == if v[i] in labels && v[i] < key + 1 then labels[v[i]] else v[i]
    {
      if v[i] != key {
        assert next[i] == r[i];
      }
    }
  }

  lemma RelabelSkip(v: Volume, labels: map<int, int>, r: Volume, key: int)
    requires RelabelledBelow(v, labels, r, key) && key !in labels
    ensures RelabelledBelow(v, labels, r, key + 1)
  {
  }

  lemma RelabelledAll(v: Volume, names: seq<string>, labels: map<int, int>, r: Volume, key: int)
    requires labels == CorrectionLabels(names) && key == |names| + 1
    requires RelabelledBelow(v, labels, r, key)
    ensures r == Labelling.ChangeLabel(v, CorrectionLabels(names))
    ensures r.Keys == v.Keys
    ensures forall i :: i in v && NameNumber(names, v[i]).Some? ==> r[i] == NameNumber(names, v[i]).value
    ensures forall i :: i in v && NameNumber(names, v[i]).None? ==> r[i] == v[i]
  {
    var c := Labelling.ChangeLabel(v, labels);
    forall i | i in v
      ensures r[i] == c[i]
    {
    }
  }

  /** A segment the user names "Erosion_n" is relabelled n, wherever it
      sits in the list. */
  lemma CorrectionUsesName(names: seq<string>, k: int, n: nat)
    requires 0 <= k < |names| && names[k] == "Erosion_" + PyStr.NatToString(n)
    ensures k + 1 in CorrectionLabels(names) && CorrectionLabels(names)[k + 1] == n
  {
    EV.NamedSuffix("Erosion", n);
    assert "Erosion" + "_" + PyStr.NatToString(n) == names[k];
    assert NameNumber(names, k + 1) == Some(n);
  }
}
