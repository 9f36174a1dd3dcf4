/** ErosionVolumeLogic: the Slicer-side logic around the seeded erosion
    segmentation. It validates the parameters and turns seed points into
    image indices and erosion ids. It runs the void-volume steps and
    rejects a result that barely differs from the mask. It also names and
    tags the erosion segments and exports them with labels taken from
    their names. */
module ErosionVolumeLogic {
  import opened Wrappers
  import opened Volumes
  import PyStr
  import PyNum
  import TrainingVoidVolume
  import Labelling

  /** A row of a 4 x 4 homogeneous matrix: a*x + b*y + c*z + t. */
  datatype Row = Row(a: real, b: real, c: real, t: real)

  /** The RAS-to-IJK matrix; only the first three rows reach the result. */
  datatype Matrix = Matrix(rx: Row, ry: Row, rz: Row, rw: Row)

  datatype Point = Point(x: real, y: real, z: real)

  function Apply(r: Row, p: Point): real {
    r.a * p.x + r.b * p.y + r.c * p.z + r.t
  }

  /** RASToIJKCoords: multiply (x, y, z, 1) by the matrix and round each of
      the first three components to the nearest integer (ties to even). */
  function RasToIjk(m: Matrix, p: Point): (r: Idx)
    ensures PyNum.Abs(r.x as real - Apply(m.rx, p)) <= 0.5
    ensures PyNum.Abs(r.y as real - Apply(m.ry, p)) <= 0.5
    ensures PyNum.Abs(r.z as real - Apply(m.rz, p)) <= 0.5
  {
    Idx(PyNum.Round(Apply(m.rx, p)), PyNum.Round(Apply(m.ry, p)), PyNum.Round(Apply(m.rz, p)))
  }

  /** A point the matrix sends within less than half a voxel of an index
      is converted to that index. */
  lemma RasToIjkNearest(m: Matrix, p: Point, i: Idx)
    requires PyNum.Abs(i.x as real - Apply(m.rx, p)) < 0.5
    requires PyNum.Abs(i.y as real - Apply(m.ry, p)) < 0.5
    requires PyNum.Abs(i.z as real - Apply(m.rz, p)) < 0.5
    ensures RasToIjk(m, p) == i
  {
    PyNum.RoundUnique(Apply(m.rx, p), i.x);
    PyNum.RoundUnique(Apply(m.ry, p), i.y);
    PyNum.RoundUnique(Apply(m.rz, p), i.z);
  }

  /** A markups fiducial: its RAS position and its label, such as "F-3". */
  datatype Fiducial = Fiducial(pos: Point, name: string)

  /** The seed's postfix: the text after the last '-' of its label. */
  function SeedSuffix(text: string): string {
    PyStr.SplitLast(text, '-')
  }

  /** The label ends in a dash followed by an integer, or is an integer. */
  predicate Numbered(text: string) {
    PyStr.ParseInt(SeedSuffix(text)).Some?
  }

  /** The id the loop assigns to one label as written: erosion_id_max is
      set to 0 inside the loop, so an unnumbered label always gets 1. */
  function ErosionIdAsWritten(text: string): (r: int)
    ensures Numbered(text) ==> r == PyStr.ParseInt(SeedSuffix(text)).value
    ensures !Numbered(text) ==> r == 1
  {
    match PyStr.ParseInt(SeedSuffix(text))
    case Some(n) => n
    case None => 1
  }

  function ErosionIdsAsWritten(labels: seq<string>): (r: seq<int>)
    ensures |r| == |labels|
    ensures forall k :: 0 <= k < |labels| ==> r[k] == ErosionIdAsWritten(labels[k])
  {
    seq(|labels|, k requires 0 <= k < |labels| => ErosionIdAsWritten(labels[k]))
  }

  /** As written, any two unnumbered seeds share id 1, and they share it
      with a seed labelled "-1". */
  lemma AsWrittenUnnumberedCollide(labels: seq<string>, j: int, k: int)
    requires 0 <= j < |labels| && 0 <= k < |labels|
    requires !Numbered(labels[j]) && !Numbered(labels[k])
    ensures ErosionIdsAsWritten(labels)[j] == ErosionIdsAsWritten(labels)[k] == 1
  {
  }

  /** The integer after the label's last dash, if there is one. */
  function LabelId(text: string): Option<int> {
    PyStr.ParseInt(SeedSuffix(text))
  }

  /** The running-maximum numbering over labels already parsed: a number
      keeps its value and raises the running maximum; a missing number
      takes maximum + 1. */
  function IdsFrom(parsed: seq<Option<int>>, top: int): (r: seq<int>)
    ensures |r| == |parsed|
    ensures forall k :: 0 <= k < |parsed| && parsed[k].Some? ==> r[k] == parsed[k].value
    ensures forall k :: 0 <= k < |parsed| && parsed[k].None? ==> r[k] > top
    decreases |parsed|
  {
    if |parsed| == 0 then []
    else
      var first := match parsed[0] case Some(n) => n case None => top + 1;
      [first] + IdsFrom(parsed[1..], if first > top then first else top)
  }

  /** An unnumbered entry's id is larger than every id before it. */
  lemma {:induction false} UnnumberedAboveEarlier(parsed: seq<Option<int>>, top: int, j: int, k: int)
    requires 0 <= j < k < |parsed| && parsed[k].None?
    ensures IdsFrom(parsed, top)[j] < IdsFrom(parsed, top)[k]
    decreases |parsed|
  {
    var r := IdsFrom(parsed, top);
    var next := if r[0] > top then r[0] else top;
    var tail := IdsFrom(parsed[1..], next);
    assert r == [r[0]] + tail;
    assert parsed[1..][k - 1] == parsed[k];
    if j > 0 {
      UnnumberedAboveEarlier(parsed[1..], next, j - 1, k - 1);
    }
  }

  /** Each label's parsed number, in order. */
  function ParsedIds(labels: seq<string>): (p: seq<Option<int>>)
    ensures |p| == |labels|
    ensures forall k :: 0 <= k < |labels| ==> p[k] == LabelId(labels[k])
  {
    seq(|labels|, k requires 0 <= k < |labels| => LabelId(labels[k]))
  }

  /** The ids with erosion_id_max kept across seeds, as the name and the
      max() call intend: a numbered text keeps its number and raises the
      running maximum; an unnumbered text takes maximum + 1. */
  function ErosionIdsFrom(labels: seq<string>, top: int): (r: seq<int>)
    ensures |r| == |labels|
    ensures forall k :: 0 <= k < |labels| && Numbered(labels[k]) ==>
      r[k] == PyStr.ParseInt(SeedSuffix(labels[k])).value
    ensures forall k :: 0 <= k < |labels| && !Numbered(labels[k]) ==> r[k] > top
  {
    IdsFrom(ParsedIds(labels), top)
  }

  function ErosionIds(labels: seq<string>): (r: seq<int>)
    ensures |r| == |labels|
  {
    ErosionIdsFrom(labels, 0)
  }

  /** With the running maximum, an unnumbered seed gets a positive id
      larger than every id before it, so no two unnumbered seeds share an
      erosion. */
  lemma UnnumberedIdsDistinct(labels: seq<string>, j: int, k: int)
    requires 0 <= j < k < |labels|
    requires !Numbered(labels[j]) && !Numbered(labels[k])
    ensures 1 <= ErosionIds(labels)[j] < ErosionIds(labels)[k]
  {
    UnnumberedAboveEarlier(ParsedIds(labels), 0, j, k);
  }

  /** The digit string of an integer has no underscore or dash in it
      after an optional leading sign. */
  lemma IntTextHasNoSeparators(n: nat)
    ensures '-' !in PyStr.NatToString(n) && '_' !in PyStr.NatToString(n)
  {
    var s := PyStr.NatToString(n);
    assert forall k :: 0 <= k < |s| ==> PyStr.IsDigit(s[k]);
  }

  /** A text "prefix-n" for a natural n is numbered, with id n. */
  lemma DashLabelId(prefix: string, n: nat)
    ensures Numbered(prefix + "-" + PyStr.NatToString(n))
    ensures PyStr.ParseInt(SeedSuffix(prefix + "-" + PyStr.NatToString(n))) == Some(n)
  {
    IntTextHasNoSeparators(n);
    PyStr.SplitLastOfSuffix(prefix, '-', PyStr.NatToString(n));
    assert prefix + "-" + PyStr.NatToString(n) == prefix + ['-'] + PyStr.NatToString(n);
    PyStr.ParseIntToString(n);
  }

  /** Labels "F-1" and "Seed": the loop as written gives both id 1, so the
      second seed's erosion is merged into the first's; the running
      maximum gives them 1 and 2. */
  lemma ErosionIdsCounterexample()
    ensures ErosionIdsAsWritten(["F-1", "Seed"]) == [1, 1]
    ensures ErosionIds(["F-1", "Seed"]) == [1, 2]
  {
    DashLabelId("F", 1);
    assert "F" + "-" + PyStr.NatToString(1) == "F-1";
    assert PyStr.SplitLast("Seed", '-') == "Seed";
    assert !PyStr.AllDigits("Seed") by { assert !PyStr.IsDigit("Seed"[0]); }
    assert !Numbered("Seed");
    var parsed := ParsedIds(["F-1", "Seed"]);
    assert parsed == [Some(1), None];
    assert parsed[1..] == [None];
    assert IdsFrom([None], 1) == [2] + IdsFrom([], 2);
  }

  /** setErosionParameters. None stands for its False results: manual
      thresholds (no method) with lower > upper, or no seed points.
      Otherwise the threshold choice and the radii are set, and every
      fiducial gives one seed (its rounded IJK index) and one erosion id
      from its text, in order. The ids are those of the loop as written,
      with erosion_id_max reset for every seed. */
  function SetErosionParameters(
    p: TrainingVoidVolume.Params, threshMethod: Option<int>, lower: int, upper: int,
    fiducials: seq<Fiducial>, m: Matrix, minimalRadius: int, dilateErodeDistance: int): (r: Option<TrainingVoidVolume.Params>)
    ensures r.None? <==> (threshMethod.None? && lower > upper) || |fiducials| == 0
    ensures r.Some? ==> TrainingVoidVolume.Paired(r.value)
    ensures r.Some? ==> r.value.seeds.Some? && |r.value.seeds.value| == |fiducials|
    ensures r.Some? ==> forall k :: 0 <= k < |fiducials| ==> r.value.seeds.value[k] == RasToIjk(m, fiducials[k].pos)
    ensures r.Some? ==> r.value.erosionIds == ErosionIdsAsWritten(Names(fiducials))
    ensures r.Some? && threshMethod.Some? ==>
      r.value.autoThresh && r.value.threshMethod == threshMethod && r.value.lower == p.lower && r.value.upper == p.upper
    ensures r.Some? && threshMethod.None? ==>
      !r.value.autoThresh && r.value.lower == lower && r.value.upper == upper && r.value.threshMethod == p.threshMethod
    ensures r.Some? ==> r.value.minimalRadius == minimalRadius && r.value.dilateErodeDistance == dilateErodeDistance
  {
    if threshMethod.None? && lower > upper then None
    else if |fiducials| == 0 then None
    else
      var q := if threshMethod.Some? then p.(autoThresh := true, threshMethod := threshMethod)
               else p.(autoThresh := false, lower := lower, upper := upper);
      var q := q.(minimalRadius := minimalRadius, dilateErodeDistance := dilateErodeDistance);
      var seeds := seq(|fiducials|, k requires 0 <= k < |fiducials| => RasToIjk(m, fiducials[k].pos));
      var ids := ErosionIdsAsWritten(Names(fiducials));
      var q := TrainingVoidVolume.SetSeeds(q, seeds);
      Some(q.(erosionIds := ids))
  }

  /** The fiducials' labels, in order. */
  function Names(fiducials: seq<Fiducial>): (r: seq<string>)
    ensures |r| == |fiducials| && forall k :: 0 <= k < |fiducials| ==> r[k] == fiducials[k].name
  {
    seq(|fiducials|, k requires 0 <= k < |fiducials| => fiducials[k].name)
  }

  /** setErosionParameters with erosion_id_max kept across seeds: the
      same parameters and seeds, and ids that give unnumbered seeds
      distinct erosions. */
  function SetErosionParametersCorrected(
    p: TrainingVoidVolume.Params, threshMethod: Option<int>, lower: int, upper: int,
    fiducials: seq<Fiducial>, m: Matrix, minimalRadius: int, dilateErodeDistance: int): (r: Option<TrainingVoidVolume.Params>)
    ensures r.None? <==> SetErosionParameters(p, threshMethod, lower, upper, fiducials, m, minimalRadius, dilateErodeDistance).None?
    ensures r.Some? ==> TrainingVoidVolume.Paired(r.value)
    ensures r.Some? ==>
      var q := SetErosionParameters(p, threshMethod, lower, upper, fiducials, m, minimalRadius, dilateErodeDistance);
      q.Some? && r.value.(erosionIds := []) == q.value.(erosionIds := [])
    ensures r.Some? ==> forall j, k :: 0 <= j < k < |fiducials| && !Numbered(fiducials[j].name) && !Numbered(fiducials[k].name) ==>
      1 <= r.value.erosionIds[j] < r.value.erosionIds[k]
  {
    match SetErosionParameters(p, threshMethod, lower, upper, fiducials, m, minimalRadius, dilateErodeDistance)
    case None => None
    case Some(q) =>
      var names := Names(fiducials);
      forall j, k | 0 <= j < k < |fiducials| && !Numbered(fiducials[j].name) && !Numbered(fiducials[k].name)
        ensures 1 <= ErosionIds(names)[j] < ErosionIds(names)[k]
      {
        UnnumberedIdsDistinct(names, j, k);
      }
      Some(q.(erosionIds := ErosionIds(names)))
  }

  /** The progress bar advances by 100 // stepNum after each step. */
  function Increment(stepNum: int): (r: int)
    requires stepNum >= 1
    ensures 0 <= r * stepNum <= 100 < (r + 1) * stepNum
  {
    100 / stepNum
  }

  /** After all steps the bar shows less than 100 by less than one
      increment per step: 96 for eight steps. */
  lemma FinalProgress(stepNum: int)
    requires stepNum >= 1
    ensures 100 - stepNum < stepNum * Increment(stepNum) <= 100
    ensures Increment(8) * 8 == 96
  {
  }

  /** The failure test: the erosion's non-zero count is within 5% of the
      image size of the contour's non-zero count (a float comparison). */
  predicate Undetected(found: nat, contour: nat, size: nat) {
    PyNum.Abs((found - contour) as real) < size as real * 0.05
  }

  /** The same test in integers. */
  lemma UndetectedInIntegers(found: nat, contour: nat, size: nat)
    ensures Undetected(found, contour, size) <==> 20 * (if found >= contour then found - contour else contour - found) < size
  {
  }

  /** Why getErosions returns False: a step raised, or the result was
      rejected by the 5% test. */
  datatype Failed = StepRaised | NotDetected

  /** getErosions: run the steps from 1 while execute reports True; a
      raising step is a failure. The output is then rejected when its
      non-zero count is within 5% of the input contour's size of the
      contour's non-zero count. */
  function GetErosions(s: TrainingVoidVolume.State, e: TrainingVoidVolume.Env, contour: Volume): (r: Result<Volume, Failed>)
    requires TrainingVoidVolume.StateOk(s) && TrainingVoidVolume.EnvOk(s, e)
    ensures r.Success? ==>
      var run := TrainingVoidVolume.Run(s, e, 1, 9);
      run.Success? && run.value.output == Some(r.value) &&
      !Undetected(|Support(r.value)|, |Support(contour)|, |contour|)
    ensures r == Failure(StepRaised) <==>
      TrainingVoidVolume.Run(s, e, 1, 9).Failure? || TrainingVoidVolume.Run(s, e, 1, 9).value.output.None?
  {
    match TrainingVoidVolume.Run(s, e, 1, 9)
    case Failure(_) => Failure(StepRaised)
    case Success(t) =>
      match t.output
      case None => Failure(StepRaised)
      case Some(out) =>
        if Undetected(|Support(out)|, |Support(contour)|, |contour|) then Failure(NotDetected)
        else Success(out)
  }

  /** With seeds set, no step raises: the run fails only when the voids
      found are within 5% of the mask, and in particular when they are the
      whole mask. */
  lemma GetErosionsSeeded(s: TrainingVoidVolume.State, e: TrainingVoidVolume.Env, contour: Volume)
    requires TrainingVoidVolume.StateOk(s) && TrainingVoidVolume.EnvOk(s, e) && TrainingVoidVolume.Fresh(s)
    requires s.p.seeds.Some?
    requires s.p.autoThresh ==> s.p.threshMethod.Some? && 0 <= s.p.threshMethod.value <= 4
    ensures GetErosions(s, e, contour) != Failure(StepRaised)
    ensures var out := TrainingVoidVolume.Run(s, e, 1, 9).value.output.value;
      Support(out) == Support(contour) && |contour| > 0 ==> GetErosions(s, e, contour) == Failure(NotDetected)
  {
    TrainingVoidVolume.RunCompletes(s, e);
  }

  /** An erosion segment: its name and the tags _setErosionInfo writes. */
  datatype Segment = Segment(
    name: string, seedTag: Option<string>, radiusTag: Option<int>,
    distanceTag: Option<int>, sourceTag: Option<string>)

  /** str() of a seed tuple: "(x, y, z)". */
  function SeedText(i: Idx): string {
    "(" + PyStr.IntToString(i.x) + ", " + PyStr.IntToString(i.y) + ", " + PyStr.IntToString(i.z) + ")"
  }

  /** The seeds whose erosion id is idx, in seed order. */
  function SeedsWithId(seeds: seq<Idx>, ids: seq<int>, idx: int): (r: seq<Idx>)
    requires |seeds| == |ids|
    ensures |r| <= |seeds|
    ensures forall x :: x in r <==> exists k :: 0 <= k < |ids| && ids[k] == idx && seeds[k] == x
    decreases |seeds|
  {
    if |seeds| == 0 then []
    else
      var rest := SeedsWithId(seeds[1..], ids[1..], idx);
      assert forall k :: 1 <= k < |ids| ==> ids[k] == ids[1..][k - 1] && seeds[k] == seeds[1..][k - 1];
      if ids[0] == idx then [seeds[0]] + rest else rest
  }

  /** The seed tag: the matching seeds' texts joined by "; ". */
  function SeedTag(seeds: seq<Idx>, ids: seq<int>, idx: int): string
    requires |seeds| == |ids|
  {
    var sel := SeedsWithId(seeds, ids, idx);
    PyStr.Join(seq(|sel|, k requires 0 <= k < |sel| => SeedText(sel[k])), "; ")
  }

  /** The index in a segment name: the text after its last '_'. */
  function NameSuffix(name: string): string {
    PyStr.SplitLast(name, '_')
  }

  /** The new name of an erosion segment: source + "| Erosion_" + index. */
  function ErosionName(source: string, name: string): (r: string)
    ensures NameSuffix(r) == NameSuffix(name)
  {
    var suffix := NameSuffix(name);
    PyStr.SplitLastOfSuffix(source + "| Erosion", '_', suffix);
    assert source + "| Erosion_" + suffix == source + "| Erosion" + ['_'] + suffix;
    source + "| Erosion_" + suffix
  }

  function SegmentInfo(g: Segment, source: string, seeds: seq<Idx>, ids: seq<int>, radius: int, distance: int): Segment
    requires |seeds| == |ids|
  {
    var suffix := NameSuffix(g.name);
    var tag := match PyStr.ParseInt(suffix)
      case Some(n) => Some(SeedTag(seeds, ids, n))
      case None => g.seedTag;
    Segment(ErosionName(source, g.name), tag, Some(radius), Some(distance), Some(source))
  }

  /** _setErosionInfo: every segment but the first (the mask) is renamed
      source + "| Erosion_" + its index; when the index is an integer its
      seed tag lists the seeds with that erosion id; the radius, distance
      and source tags are always written. */
  function SetErosionInfo(segs: seq<Segment>, source: string, seeds: seq<Idx>, ids: seq<int>, radius: int, distance: int): (r: seq<Segment>)
    requires |seeds| == |ids|
    ensures |r| == |segs|
    ensures |segs| > 0 ==> r[0] == segs[0]
    ensures forall i :: 1 <= i < |segs| ==>
      NameSuffix(r[i].name) == NameSuffix(segs[i].name) &&
      r[i].name == source + "| Erosion_" + NameSuffix(segs[i].name) &&
      r[i].radiusTag == Some(radius) && r[i].distanceTag == Some(distance) && r[i].sourceTag == Some(source)
    ensures forall i :: 1 <= i < |segs| && PyStr.ParseInt(NameSuffix(segs[i].name)).None? ==>
      r[i].seedTag == segs[i].seedTag
    ensures forall i :: 1 <= i < |segs| && PyStr.ParseInt(NameSuffix(segs[i].name)).Some? ==>
      r[i].seedTag == Some(SeedTag(seeds, ids, PyStr.ParseInt(NameSuffix(segs[i].name)).value))
  {
    seq(|segs|, i requires 0 <= i < |segs| =>
      if i == 0 then segs[0] else SegmentInfo(segs[i], source, seeds, ids, radius, distance))
  }

  /** Recording the information twice is the same as once: the renamed
      segment keeps its index. */
  lemma {:induction false} SetErosionInfoIdempotent(segs: seq<Segment>, source: string, seeds: seq<Idx>, ids: seq<int>, radius: int, distance: int)
    requires |seeds| == |ids|
    ensures var once := SetErosionInfo(segs, source, seeds, ids, radius, distance);
      SetErosionInfo(once, source, seeds, ids, radius, distance) == once
  {
    var once := SetErosionInfo(segs, source, seeds, ids, radius, distance);
    var twice := SetErosionInfo(once, source, seeds, ids, radius, distance);
    forall i | 1 <= i < |segs|
      ensures twice[i] == once[i]
    {
      assert NameSuffix(once[i].name) == NameSuffix(segs[i].name);
    }
  }

  /** The export text of the i-th visible segment: the integer after the
      last '_' of its id, or i when there is none. */
  function ExportLabel(segmentId: string, i: int): (r: int)
    ensures PyStr.ParseInt(NameSuffix(segmentId)).Some? ==> r == PyStr.ParseInt(NameSuffix(segmentId)).value
    ensures PyStr.ParseInt(NameSuffix(segmentId)).None? ==> r == i
  {
    match PyStr.ParseInt(NameSuffix(segmentId))
    case Some(n) => n
    case None => i
  }

  /** A segment named "..._n" is exported with text n wherever it sits. */
  lemma ExportNamedSegment(prefix: string, n: nat, i: int)
    ensures ExportLabel(prefix + "_" + PyStr.NatToString(n), i) == n
  {
    NamedSuffix(prefix, n);
  }

  /** The text after the last '_' of "..._n" parses as n. */
  lemma NamedSuffix(prefix: string, n: nat)
    ensures PyStr.ParseInt(NameSuffix(prefix + "_" + PyStr.NatToString(n))) == Some(n)
  {
    IntTextHasNoSeparators(n);
    PyStr.SplitLastOfSuffix(prefix, '_', PyStr.NatToString(n));
    assert prefix + "_" + PyStr.NatToString(n) == prefix + ['_'] + PyStr.NatToString(n);
    PyStr.ParseIntToString(n);
  }

  /** exportErosionsToLabelmap's relabelling of the exported text map,
      where the k-th visible segment has text k + 1: each such voxel
      takes the k-th segment's export text, reading labels from a copy;
      other voxels are unchanged. */
  method ExportErosions(v: Volume, segmentIds: seq<string>) returns (r: Volume)
    ensures r.Keys == v.Keys
    ensures forall i :: i in v && 1 <= v[i] <= |segmentIds| ==> r[i] == ExportLabel(segmentIds[v[i] - 1], v[i] - 1)
    ensures forall i :: i in v && !(1 <= v[i] <= |segmentIds|) ==> r[i] == v[i]
  {
    var labelIds := seq(|segmentIds|, k requires 0 <= k < |segmentIds| => ExportLabel(segmentIds[k], k));
    r := Labelling.ExportRelabel(v, labelIds);
    ExportedLabels(v, segmentIds, labelIds, r);
  }

  /** Reading the relabelling voxel by voxel through the position map. */
  lemma ExportedLabels(v: Volume, segmentIds: seq<string>, labelIds: seq<int>, r: Volume)
    requires |labelIds| == |segmentIds|
    requires forall k :: 0 <= k < |segmentIds| ==> labelIds[k] == ExportLabel(segmentIds[k], k)
    requires r == Labelling.ChangeLabel(v, Labelling.PositionMap(labelIds))
    ensures r.Keys == v.Keys
    ensures forall i :: i in v && 1 <= v[i] <= |segmentIds| ==> r[i] == ExportLabel(segmentIds[v[i] - 1], v[i] - 1)
    ensures forall i :: i in v && !(1 <= v[i] <= |segmentIds|) ==> r[i] == v[i]
  {
    var m := Labelling.PositionMap(labelIds);
    forall i | i in v && 1 <= v[i] <= |segmentIds|
      ensures r[i] == ExportLabel(segmentIds[v[i] - 1], v[i] - 1)
    {
      assert v[i] in m && m[v[i]] == labelIds[v[i] - 1];
    }
  }
}
