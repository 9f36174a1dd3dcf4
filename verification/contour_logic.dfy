/** The bone-contouring pipeline of ContourLogic: threshold, separation of
    the bones into labels, then for each bone (highest label first) extract
    it with a margin, smooth, dilate, fill holes slice by slice, erode and
    paste it back, merging the bones into one label image. */
module ContourLogic {
  import opened Wrappers
  import opened Volumes
  import opened Connectivity

  /** Kernel radius of the dilate and erode steps, and the margin around an
      extracted bone, which is the radius plus 2. */
  const DilateErodeRadius: int := 34
  const Margin: int := DilateErodeRadius + 2

  /** The number of steps for boneNum bones: step 1, then six per bone. */
  function StepCount(boneNum: int): int {
    6 * boneNum + 1
  }

  /** The object's bookkeeping. `stepNum` is the attribute setBoneNum
      writes and getStepNum reads; `initialStepNum` is the differently
      named attribute the constructor writes and nothing reads. */
  datatype Contour = Contour(
    lower: int, upper: int,
    boneNum: int,
    step: int,
    stepNum: Option<int>,
    initialStepNum: int,
    hasSeparateMap: bool,
    output: Option<Volume>)

  function New(lower: int, upper: int, boneNum: int): (c: Contour)
    ensures c.step == 0 && c.output.None? && !c.hasSeparateMap
    ensures c.stepNum.None? && c.initialStepNum == StepCount(boneNum)
  {
    Contour(lower, upper, boneNum, 0, None, StepCount(boneNum), false, None)
  }

  function SetBoneNum(c: Contour, boneNum: int): (r: Contour)
    ensures r.boneNum == boneNum && r.stepNum == Some(StepCount(boneNum))
    ensures r == c.(boneNum := r.boneNum, stepNum := r.stepNum)
  {
    c.(boneNum := boneNum, stepNum := Some(StepCount(boneNum)))
  }

  datatype Error = AttributeError | Raised

  /** getStepNum as written: it reads `stepNum`, which exists only once
      setBoneNum has run. */
  function GetStepNumAsWritten(c: Contour): (r: Result<int, Error>)
    ensures r.Success? <==> c.stepNum.Some?
  {
    match c.stepNum
    case Some(n) => Success(n)
    case None => Failure(AttributeError)
  }

  /** getStepNum reading the attribute the constructor also initialises. */
  function GetStepNum(c: Contour): int {
    c.stepNum.GetOr(c.initialStepNum)
  }

  /** A freshly built object cannot report its step count as written,
      although the constructor computed it. */
  lemma GetStepNumFreshFails(lower: int, upper: int, boneNum: int)
    ensures GetStepNumAsWritten(New(lower, upper, boneNum)) == Failure(AttributeError)
    ensures GetStepNum(New(lower, upper, boneNum)) == StepCount(boneNum)
  {
  }

  /** With one attribute name, the step count is 6*boneNum+1 both after
      construction and after every setBoneNum. */
  lemma GetStepNumAfterSet(c: Contour, boneNum: int)
    ensures GetStepNum(New(c.lower, c.upper, boneNum)) == StepCount(boneNum)
    ensures GetStepNum(SetBoneNum(c, boneNum)) == StepCount(boneNum)
    ensures GetStepNumAsWritten(SetBoneNum(c, boneNum)) == Success(StepCount(boneNum))
  {
  }

  /** Step 1 thresholding: 1 exactly on the voxels in [lower, upper]. */
  function Threshold(c: Contour, img: Volume): (r: Volume)
    ensures r.Keys == img.Keys && IsBinary(r, 1)
    ensures forall i :: i in r ==> (r[i] == 1 <==> c.lower <= img[i] <= c.upper)
    ensures c.lower > c.upper ==> Support(r) == {}
  {
    Volumes.Threshold(img, c.lower, c.upper, 1)
  }

  /** The distinct values present in a label image, which is what
      LabelStatisticsImageFilter counts as labels (0 included). */
  function Labels(a: Volume): set<int> {
    set i | i in a :: a[i]
  }

  /** relabelWithMap: the label image is the product of the binary bone
      image and the separation map; the bone count becomes the number of
      labels minus one (the background). */
  function RelabelWithMap(c: Contour, img: Volume, labelMap: Volume): (r: (Contour, Volume))
    requires SameGrid(img, labelMap)
    ensures Support(r.1) == Support(img) * Support(labelMap)
    ensures r.0.boneNum == |Labels(r.1)| - 1
    ensures r.0.stepNum == Some(StepCount(r.0.boneNum))
  {
    var labelled := Mul(img, labelMap);
    (SetBoneNum(c, |Labels(labelled)| - 1), labelled)
  }

  /** relabelWithConnect: `found` labelled components (the background label
      excluded). The bone count only ever decreases, to what was found. */
  function RelabelWithConnect(c: Contour, found: int): (r: Contour)
    ensures r.boneNum == if found < c.boneNum then found else c.boneNum
    ensures r.boneNum <= c.boneNum
    ensures found >= c.boneNum ==> r == c
  {
    if found < c.boneNum then SetBoneNum(c, found) else c
  }

  /** An inclusive bounding box, as LabelStatistics reports it. */
  datatype BBox = BBox(x0: int, x1: int, y0: int, y1: int, z0: int, z1: int)

  predicate InBox(b: BBox, i: Idx) {
    b.x0 <= i.x <= b.x1 && b.y0 <= i.y <= b.y1 && b.z0 <= i.z <= b.z1
  }

  function BoxSet(b: BBox, keys: set<Idx>): set<Idx> {
    set i | i in keys && InBox(b, i)
  }

  /** The box is nonempty and inside a w x h x d grid. */
  predicate BoxFits(b: BBox, w: int, h: int, d: int) {
    0 <= b.x0 <= b.x1 < w && 0 <= b.y0 <= b.y1 < h && 0 <= b.z0 <= b.z1 < d
  }

  function Width(b: BBox): int { b.x1 - b.x0 + 1 }
  function Height(b: BBox): int { b.y1 - b.y0 + 1 }
  function Depth(b: BBox): int { b.z1 - b.z0 + 1 }

  /** Where voxel i of the box lands in an extract with the given margin. */
  function Shift(b: BBox, margin: nat, i: Idx): Idx {
    Idx(i.x - b.x0 + margin, i.y - b.y0 + margin, i.z - b.z0 + margin)
  }

  /** extract: crop the voxels labelled f to the bounding box and paste the
      crop into an empty image with `margin` voxels on every side. */
  function Extract(labels: Volume, w: int, h: int, d: int, f: int, b: BBox, margin: nat): (r: Volume)
    requires labels.Keys == Grid(w, h, d) && BoxFits(b, w, h, d)
    ensures r.Keys == Grid(Width(b) + 2 * margin, Height(b) + 2 * margin, Depth(b) + 2 * margin)
    ensures IsBinary(r, f)
    ensures forall i :: i in labels && InBox(b, i) ==>
      Shift(b, margin, i) in r && r[Shift(b, margin, i)] == if labels[i] == f then f else 0
  {
    ShiftInverse(b, margin);
    map j | j in Grid(Width(b) + 2 * margin, Height(b) + 2 * margin, Depth(b) + 2 * margin) ::
      var src := Unshift(b, margin, j);
      if InBox(b, src) && labels[src] == f then f else 0
  }

  /** The extract voxel j comes from voxel Unshift(j) of the label image. */
  function Unshift(b: BBox, margin: nat, j: Idx): Idx {
    Idx(j.x - margin + b.x0, j.y - margin + b.y0, j.z - margin + b.z0)
  }

  /** Every voxel of the box lands inside the extract, and Unshift takes it
      back. */
  lemma ShiftInverse(b: BBox, margin: nat)
    ensures forall i :: InBox(b, i) ==>
      Unshift(b, margin, Shift(b, margin, i)) == i &&
      Shift(b, margin, i) in Grid(Width(b) + 2 * margin, Height(b) + 2 * margin, Depth(b) + 2 * margin)
  {
    forall i | InBox(b, i)
      ensures Shift(b, margin, i) in Grid(Width(b) + 2 * margin, Height(b) + 2 * margin, Depth(b) + 2 * margin)
    {
      assert InGrid(Shift(b, margin, i), Width(b) + 2 * margin, Height(b) + 2 * margin, Depth(b) + 2 * margin);
    }
  }

  /** pasteBack: strip the margin and paste the rest into an empty image
      of the label image's size, at the bounding box origin. */
  function PasteBack(e: Volume, ew: int, eh: int, ed: int, margin: nat, b: BBox, w: int, h: int, d: int): (r: Volume)
    requires e.Keys == Grid(ew, eh, ed)
    requires ew == Width(b) + 2 * margin && eh == Height(b) + 2 * margin && ed == Depth(b) + 2 * margin
    requires BoxFits(b, w, h, d)
    ensures r.Keys == Grid(w, h, d)
    ensures forall i :: i in r && !InBox(b, i) ==> r[i] == 0
    ensures forall i :: i in r && InBox(b, i) ==> r[i] == e[Shift(b, margin, i)]
  {
    map i | i in Grid(w, h, d) :: if InBox(b, i) then e[Shift(b, margin, i)] else 0
  }

  /** Pasting back an untouched extract gives the voxels of label f inside
      the box, with value f, and nothing else. */
  lemma ExtractPasteRoundTrip(labels: Volume, w: int, h: int, d: int, f: int, b: BBox, margin: nat)
    requires labels.Keys == Grid(w, h, d) && BoxFits(b, w, h, d)
    ensures PasteBack(Extract(labels, w, h, d, f, b, margin),
                      Width(b) + 2 * margin, Height(b) + 2 * margin, Depth(b) + 2 * margin,
                      margin, b, w, h, d)
            == Indicator(Grid(w, h, d), BoxSet(b, Level(labels, f)), f)
  {
    var e := Extract(labels, w, h, d, f, b, margin);
    var p := PasteBack(e, Width(b) + 2 * margin, Height(b) + 2 * margin, Depth(b) + 2 * margin, margin, b, w, h, d);
    var q := Indicator(Grid(w, h, d), BoxSet(b, Level(labels, f)), f);
    forall i | i in p
      ensures p[i] == q[i]
    {
      if InBox(b, i) {
        assert p[i] == e[Shift(b, margin, i)];
      }
    }
    assert p.Keys == q.Keys;
  }

  /** When the box is the bounding box of label f, the round trip is exactly
      the mask of that label. */
  lemma ExtractPasteBoundingBox(labels: Volume, w: int, h: int, d: int, f: int, b: BBox, margin: nat)
    requires labels.Keys == Grid(w, h, d) && BoxFits(b, w, h, d)
    requires forall i :: i in Level(labels, f) ==> InBox(b, i)
    ensures PasteBack(Extract(labels, w, h, d, f, b, margin),
                      Width(b) + 2 * margin, Height(b) + 2 * margin, Depth(b) + 2 * margin,
                      margin, b, w, h, d)
            == Indicator(Grid(w, h, d), Level(labels, f), f)
  {
    ExtractPasteRoundTrip(labels, w, h, d, f, b, margin);
    assert BoxSet(b, Level(labels, f)) == Level(labels, f);
  }

  /** The four corner seeds of slice z. */
  function Corners(w: int, h: int, z: int): set<Idx> {
    {Idx(0, 0, z), Idx(w - 1, 0, z), Idx(0, h - 1, z), Idx(w - 1, h - 1, z)}
  }

  /** The value-0 voxels of slice z. */
  function SliceZeros(img: Volume, z: int): set<Idx> {
    set i | i in img && i.z == z && img[i] == 0
  }

  /** The background of a voxel's slice that ConnectedThreshold (range
      [0, 0], 4-connected in the slice) reaches from the corners. */
  function OpenBackground(img: Volume, w: int, h: int): set<Idx> {
    set i | i in img && i in Flood(InPlane, SliceZeros(img, i.z), Corners(w, h, i.z))
  }

  /** connect: flood the background of each slice from its corners with
      value f, then invert with maximum f. */
  function Connect(img: Volume, w: int, h: int, f: int): (r: Volume)
    ensures r.Keys == img.Keys && IsBinary(r, f)
  {
    Invert(Indicator(img.Keys, OpenBackground(img, w, h), f), f)
  }

  /** connect fills exactly the enclosed holes: a voxel ends as f iff it is
      not background reachable from its slice's corners, so every object
      voxel stays and every enclosed background voxel becomes foreground. */
  lemma ConnectFillsHoles(img: Volume, w: int, h: int, f: int)
    requires f != 0
    ensures forall i :: i in img ==> (Connect(img, w, h, f)[i] == f <==> i !in OpenBackground(img, w, h))
    ensures forall i :: i in img && img[i] != 0 ==> Connect(img, w, h, f)[i] == f
  {
    forall i | i in img && img[i] != 0 ensures i !in OpenBackground(img, w, h) {
      assert i !in SliceZeros(img, i.z);
    }
  }

  lemma FloodOfFlood(zeros: set<Idx>, seeds: set<Idx>)
    ensures Flood(InPlane, Flood(InPlane, zeros, seeds), seeds) == Flood(InPlane, zeros, seeds)
  {
    var f := Flood(InPlane, zeros, seeds);
    var g := Flood(InPlane, f, seeds);
    assert seeds * zeros <= g by {
      assert seeds * zeros <= f;
    }
    FloodLeast(InPlane, zeros, seeds, g);
  }

  /** After one pass, the zeros of a slice are exactly the background that
      pass reached from the corners. */
  lemma SliceZerosAfterConnect(img: Volume, w: int, h: int, f: int, z: int)
    requires f != 0 && IsBinary(img, f)
    ensures SliceZeros(Connect(img, w, h, f), z)
            == Flood(InPlane, SliceZeros(img, z), Corners(w, h, z))
  {
    var c := Connect(img, w, h, f);
    var open := Flood(InPlane, SliceZeros(img, z), Corners(w, h, z));
    ConnectFillsHoles(img, w, h, f);
    forall k | k in c && k.z == z ensures (c[k] == 0 <==> k in open) {
      assert c[k] == 0 <==> k in OpenBackground(img, w, h);
    }
    assert open <= SliceZeros(img, z);
  }

  /** Filling is idempotent: the background left open after one pass is
      exactly what a second pass reaches again. */
  lemma {:induction false} ConnectIdempotent(img: Volume, w: int, h: int, f: int)
    requires f != 0 && IsBinary(img, f)
    ensures Connect(Connect(img, w, h, f), w, h, f) == Connect(img, w, h, f)
  {
    var c := Connect(img, w, h, f);
    forall i | i in img
      ensures i in OpenBackground(c, w, h) <==> i in OpenBackground(img, w, h)
    {
      SliceZerosAfterConnect(img, w, h, f, i.z);
      FloodOfFlood(SliceZeros(img, i.z), Corners(w, h, i.z));
    }
    assert OpenBackground(c, w, h) == OpenBackground(img, w, h);
  }

  /** How a step raised or what the filters reported: `raised` is an
      exception inside the step; `found` is the number of labels minus one
      that step 1's relabelling reports; `pasted` is pasteBack's result in
      step 7. */
  datatype Env = Env(raised: bool, found: int, pasted: Volume)

  /** Merging a bone into the output as written: bitwise or of labels. */
  function MergeOr(output: Volume, pasted: Volume): (r: Volume)
    requires SameGrid(output, pasted) && NonNegative(output) && NonNegative(pasted)
    ensures r.Keys == output.Keys
    ensures Support(r) == Support(output) + Support(pasted)
    ensures forall i :: i in r && pasted[i] == 0 ==> r[i] == output[i]
  {
    Or(output, pasted)
  }

  predicate Mergeable(c: Contour, pasted: Volume) {
    NonNegative(pasted) && (c.output.Some? ==> SameGrid(c.output.value, pasted) && NonNegative(c.output.value))
  }

  /** One call of execute: the step counter advances, step 1 relabels and
      sets the bone count, step 7 merges the pasted bone, decrements the
      count and goes back to step 1 while bones remain; any later step
      resets the counter and reports the end. An exception resets the
      counter and propagates. */
  function Execute(c: Contour, e: Env): (r: (Contour, Result<bool, Error>))
    requires Mergeable(c, e.pasted)
    ensures e.raised ==> r.0.step == 0 && r.1 == Failure(Raised)
    ensures !e.raised && 1 <= c.step + 1 <= 6 ==> r.0.step == c.step + 1 && r.1 == Success(true)
    ensures !e.raised && c.step + 1 == 7 ==>
      r.0.boneNum == c.boneNum - 1 && r.1 == Success(true) &&
      r.0.step == (if c.boneNum - 1 > 0 then 1 else 7) &&
      r.0.output.Some?
    ensures !e.raised && (c.step + 1 < 1 || c.step + 1 > 7) ==> r == (c.(step := 0), Success(false))
    ensures Mergeable(r.0, e.pasted)
  {
    var step := c.step + 1;
    if e.raised then
      (c.(step := 0), Failure(Raised))
    else if step == 1 then
      var cleaned := c.(step := 1, output := None);
      var relabelled :=
        if c.hasSeparateMap then SetBoneNum(cleaned, e.found) else RelabelWithConnect(cleaned, e.found);
      (relabelled, Success(true))
    else if 2 <= step <= 6 then
      (c.(step := step), Success(true))
    else if step == 7 then
      var merged := match c.output
        case None => e.pasted
        case Some(o) => MergeOr(o, e.pasted);
      var bones := c.boneNum - 1;
      (c.(step := if bones > 0 then 1 else 7, boneNum := bones, output := Some(merged)), Success(true))
    else
      (c.(step := 0), Success(false))
  }

  /** Calls execute until it reports the end (or raises), for at most
      `fuel` calls; returns how many calls reported True and the state. */
  function Drive(c: Contour, e: Env, fuel: nat): (r: (nat, Contour))
    requires Mergeable(c, e.pasted)
    ensures r.0 <= fuel
    decreases fuel
  {
    if fuel == 0 then (0, c)
    else
      var (next, res) := Execute(c, e);
      if res == Success(true) then
        var (k, last) := Drive(next, e, fuel - 1);
        (k + 1, last)
      else (0, next)
  }

  /** From the end of step 1 with n >= 1 bones left, the remaining calls
      report True 6n times and then False, leaving the counter at 0. */
  lemma {:induction false} DriveBones(c: Contour, e: Env, fuel: nat)
    requires Mergeable(c, e.pasted) && !e.raised
    requires c.step == 1 && c.boneNum >= 1
    requires fuel >= 6 * c.boneNum + 1
    ensures Drive(c, e, fuel).0 == 6 * c.boneNum
    ensures Drive(c, e, fuel).1.step == 0
    decreases c.boneNum
  {
    var c2 := Execute(c, e).0;
    var c3 := Execute(c2, e).0;
    var c4 := Execute(c3, e).0;
    var c5 := Execute(c4, e).0;
    var c6 := Execute(c5, e).0;
    var c7 := Execute(c6, e).0;
    assert c6.step == 6 && c6.boneNum == c.boneNum;
    assert Drive(c, e, fuel).0 == 1 + Drive(c2, e, fuel - 1).0;
    assert Drive(c2, e, fuel - 1).0 == 1 + Drive(c3, e, fuel - 2).0;
    assert Drive(c3, e, fuel - 2).0 == 1 + Drive(c4, e, fuel - 3).0;
    assert Drive(c4, e, fuel - 3).0 == 1 + Drive(c5, e, fuel - 4).0;
    assert Drive(c5, e, fuel - 4).0 == 1 + Drive(c6, e, fuel - 5).0;
    assert Drive(c6, e, fuel - 5).0 == 1 + Drive(c7, e, fuel - 6).0;
    assert Drive(c, e, fuel).1 == Drive(c7, e, fuel - 6).1;
    if c.boneNum - 1 > 0 {
      assert c7.step == 1 && c7.boneNum == c.boneNum - 1;
      DriveBones(c7, e, fuel - 6);
    } else {
      assert c7.step == 7;
      assert Drive(c7, e, fuel - 6) == (0, c7.(step := 0));
    }
  }

  /** A full run (what getContour drives) reports True exactly
      getStepNum() = 6*boneNum+1 times, where boneNum is the count left by
      step 1's relabelling, then False. */
  lemma RunMatchesStepNum(c: Contour, e: Env, fuel: nat)
    requires Mergeable(c, e.pasted) && !e.raised
    requires c.step == 0 && c.stepNum == Some(StepCount(c.boneNum))
    requires Execute(c, e).0.boneNum >= 1
    requires fuel >= StepCount(Execute(c, e).0.boneNum) + 1
    ensures Drive(c, e, fuel).0 == GetStepNum(Execute(c, e).0)
    ensures Drive(c, e, fuel).1.step == 0
  {
    var c1 := Execute(c, e).0;
    DriveBones(c1, e, fuel - 1);
  }
}
