/** The oracles the modules' self-tests compare their outputs with: edge
    padding of two arrays to a common shape, the percentage of differing
    voxels with its tolerance, the seed-list matching of the cortical-break
    test, the statistics-table comparison of the erosion-volume test and
    the location of the sample files. An array is a value per index of its
    shape's grid; the files, nodes and Slicer calls that produce the arrays
    are not modelled. */
module TestOracles {
  import opened Wrappers
  import opened Volumes
  import PyNum
  import PyStr
  import ErosionVolumeLogic

  type Point = ErosionVolumeLogic.Point

  /** The extents of a rank-3 array. */
  datatype Shape = Shape(x: nat, y: nat, z: nat)

  /** A rank-3 array: one value per index of its shape's grid. */
  datatype Array = Array(shape: Shape, data: Volume)

  function Cells(s: Shape): set<Idx> {
    Grid(s.x, s.y, s.z)
  }

  predicate Valid(a: Array) {
    a.data.Keys == Cells(a.shape)
  }

  function Grow(s: Shape, p: Shape): Shape {
    Shape(s.x + p.x, s.y + p.y, s.z + p.z)
  }

  function Larger(s: Shape, t: Shape): Shape {
    Shape(if s.x < t.x then t.x else s.x, if s.y < t.y then t.y else s.y, if s.z < t.z then t.z else s.z)
  }

  /** max(0, to - from): the padding that brings an extent up to another. */
  function Shortfall(from: nat, to: nat): nat {
    if from < to then to - from else 0
  }

  /** The front padding of the first array in padArray: the clipped
      difference of the other shape minus its own. */
  function Pads(own: Shape, other: Shape): Shape {
    Shape(Shortfall(own.x, other.x), Shortfall(own.y, other.y), Shortfall(own.z, other.z))
  }

  function Shift(i: Idx, p: Shape): Idx {
    Idx(i.x + p.x, i.y + p.y, i.z + p.z)
  }

  function Clamp(v: int): nat {
    if v < 0 then 0 else v
  }

  /** The voxel of the unpadded array whose value an index of the padded
      one repeats: its own voxel behind the padding, the first layer in
      front of it. */
  function Source(i: Idx, p: Shape): Idx {
    Idx(Clamp(i.x - p.x), Clamp(i.y - p.y), Clamp(i.z - p.z))
  }

  /** numpy refuses to extend an empty axis in 'edge' mode. */
  predicate EmptyAxisPadded(s: Shape, p: Shape) {
    (s.x == 0 && p.x > 0) || (s.y == 0 && p.y > 0) || (s.z == 0 && p.z > 0)
  }

  /** np.pad(arr, [[p.x, 0], [p.y, 0], [p.z, 0]], 'edge'): p layers in
      front of each axis, each repeating the array's first layer; the array
      itself sits at the back of the result. */
  function PadFront(a: Array, p: Shape): (r: Option<Array>)
    requires Valid(a)
    ensures r.None? <==> EmptyAxisPadded(a.shape, p)
    ensures r.Some? ==> Valid(r.value) && r.value.shape == Grow(a.shape, p)
    ensures r.Some? ==> forall i :: i in a.data ==>
      Shift(i, p) in r.value.data && r.value.data[Shift(i, p)] == a.data[i]
    ensures r.Some? ==> EdgeFilled(r.value, p)
  {
    if EmptyAxisPadded(a.shape, p) then None
    else
      var b := Padded(a, p);
      PaddedKeepsArray(a, p);
      PaddedRepeatsEdge(a, p);
      Some(b)
  }

  /** Every voxel in front of the padding boundary of an axis holds the
      value of the first voxel behind it. */
  predicate EdgeFilled(b: Array, p: Shape) {
    (forall i :: i in b.data && i.x < p.x ==>
      i.(x := p.x) in b.data && b.data[i] == b.data[i.(x := p.x)]) &&
    (forall i :: i in b.data && i.y < p.y ==>
      i.(y := p.y) in b.data && b.data[i] == b.data[i.(y := p.y)]) &&
    (forall i :: i in b.data && i.z < p.z ==>
      i.(z := p.z) in b.data && b.data[i] == b.data[i.(z := p.z)])
  }

  function Padded(a: Array, p: Shape): (b: Array)
    requires Valid(a) && !EmptyAxisPadded(a.shape, p)
    ensures b.shape == Grow(a.shape, p) && Valid(b)
    ensures forall i :: i in b.data ==> b.data[i] == a.data[Source(i, p)]
  {
    var s := Grow(a.shape, p);
    assert forall i :: i in Cells(s) ==> Source(i, p) in a.data by {
      forall i | i in Cells(s) ensures Source(i, p) in a.data {
        assert InGrid(Source(i, p), a.shape.x, a.shape.y, a.shape.z);
      }
    }
    Array(s, map i | i in Cells(s) :: a.data[Source(i, p)])
  }

  lemma PaddedKeepsArray(a: Array, p: Shape)
    requires Valid(a) && !EmptyAxisPadded(a.shape, p)
    ensures forall i :: i in a.data ==>
      Shift(i, p) in Padded(a, p).data && Padded(a, p).data[Shift(i, p)] == a.data[i]
  {
    var b := Padded(a, p);
    forall i | i in a.data
      ensures Shift(i, p) in b.data && b.data[Shift(i, p)] == a.data[i]
    {
      assert InGrid(i, a.shape.x, a.shape.y, a.shape.z);
      assert InGrid(Shift(i, p), b.shape.x, b.shape.y, b.shape.z);
      assert Source(Shift(i, p), p) == i;
    }
  }

  lemma PaddedRepeatsEdge(a: Array, p: Shape)
    requires Valid(a) && !EmptyAxisPadded(a.shape, p)
    ensures EdgeFilled(Padded(a, p), p)
  {
    EdgeX(a, p);
    EdgeY(a, p);
    EdgeZ(a, p);
  }

  lemma EdgeX(a: Array, p: Shape)
    requires Valid(a) && !EmptyAxisPadded(a.shape, p)
    ensures forall i :: i in Padded(a, p).data && i.x < p.x ==>
      i.(x := p.x) in Padded(a, p).data && Padded(a, p).data[i] == Padded(a, p).data[i.(x := p.x)]
  {
    var b := Padded(a, p);
    forall i | i in b.data && i.x < p.x
      ensures i.(x := p.x) in b.data && b.data[i] == b.data[i.(x := p.x)]
    {
      var j := i.(x := p.x);
      assert InGrid(j, b.shape.x, b.shape.y, b.shape.z);
      assert Source(i, p) == Source(j, p);
    }
  }

  lemma EdgeY(a: Array, p: Shape)
    requires Valid(a) && !EmptyAxisPadded(a.shape, p)
    ensures forall i :: i in Padded(a, p).data && i.y < p.y ==>
      i.(y := p.y) in Padded(a, p).data && Padded(a, p).data[i] == Padded(a, p).data[i.(y := p.y)]
  {
    var b := Padded(a, p);
    forall i | i in b.data && i.y < p.y
      ensures i.(y := p.y) in b.data && b.data[i] == b.data[i.(y := p.y)]
    {
      var j := i.(y := p.y);
      assert InGrid(j, b.shape.x, b.shape.y, b.shape.z);
      assert Source(i, p) == Source(j, p);
    }
  }

  lemma EdgeZ(a: Array, p: Shape)
    requires Valid(a) && !EmptyAxisPadded(a.shape, p)
    ensures forall i :: i in Padded(a, p).data && i.z < p.z ==>
      i.(z := p.z) in Padded(a, p).data && Padded(a, p).data[i] == Padded(a, p).data[i.(z := p.z)]
  {
    var b := Padded(a, p);
    forall i | i in b.data && i.z < p.z
      ensures i.(z := p.z) in b.data && b.data[i] == b.data[i.(z := p.z)]
    {
      var j := i.(z := p.z);
      assert InGrid(j, b.shape.x, b.shape.y, b.shape.z);
      assert Source(i, p) == Source(j, p);
    }
  }

  /** The part of a padded array behind its front padding. */
  function CropFront(a: Array, p: Shape): (r: Array)
    requires Valid(a) && p.x <= a.shape.x && p.y <= a.shape.y && p.z <= a.shape.z
    ensures Valid(r)
  {
    var s := Shape(a.shape.x - p.x, a.shape.y - p.y, a.shape.z - p.z);
    Array(s, map i | i in Cells(s) :: a.data[Shift(i, p)])
  }

  /** Cutting the front padding away gives the array back. */
  lemma PadCropRoundTrip(a: Array, p: Shape)
    requires Valid(a) && !EmptyAxisPadded(a.shape, p)
    ensures PadFront(a, p).Some?
    ensures CropFront(PadFront(a, p).value, p) == a
  {
    var c := CropFront(PadFront(a, p).value, p);
    assert c.shape == a.shape;
    assert c.data == a.data;
  }

  /** padArray: each array is padded in front, in 'edge' mode, up to the
      larger extent on every axis. Both come out with the same shape and
      each holds its original at the back; numpy raises when an empty axis
      must grow. */
  function PadArray(a1: Array, a2: Array): (r: Option<(Array, Array)>)
    requires Valid(a1) && Valid(a2)
    ensures r.None? <==> EmptyAxisPadded(a1.shape, Pads(a1.shape, a2.shape)) ||
                         EmptyAxisPadded(a2.shape, Pads(a2.shape, a1.shape))
    ensures r.Some? ==> Valid(r.value.0) && Valid(r.value.1)
    ensures r.Some? ==> r.value.0.shape == Larger(a1.shape, a2.shape) == r.value.1.shape
    ensures r.Some? ==> CropFront(r.value.0, Pads(a1.shape, a2.shape)) == a1
    ensures r.Some? ==> CropFront(r.value.1, Pads(a2.shape, a1.shape)) == a2
  {
    var p1 := Pads(a1.shape, a2.shape);
    var p2 := Pads(a2.shape, a1.shape);
    match (PadFront(a1, p1), PadFront(a2, p2))
    case (Some(b1), Some(b2)) =>
      PadCropRoundTrip(a1, p1);
      PadCropRoundTrip(a2, p2);
      Some((b1, b2))
    case _ => None
  }

  /** Padding by nothing changes nothing. */
  lemma PadNothing(a: Array)
    requires Valid(a)
    ensures PadFront(a, Shape(0, 0, 0)) == Some(a)
  {
    var z := Shape(0, 0, 0);
    var r := Padded(a, z);
    forall i | i in a.data ensures Source(i, z) == i {
      assert InGrid(i, a.shape.x, a.shape.y, a.shape.z);
    }
    assert r.data == a.data;
  }

  /** The tests pad only when the shapes differ; padding arrays of equal
      shape would leave them as they are, so the guard changes nothing. */
  lemma PadSameShape(a1: Array, a2: Array)
    requires Valid(a1) && Valid(a2) && a1.shape == a2.shape
    ensures PadArray(a1, a2) == Some((a1, a2))
  {
    assert Pads(a1.shape, a2.shape) == Shape(0, 0, 0);
    PadNothing(a1);
    PadNothing(a2);
  }

  /** The pair of arrays the tests compare: padded only when the shapes
      differ. */
  function Aligned(out: Array, ref: Array): (r: Option<(Array, Array)>)
    requires Valid(out) && Valid(ref)
    ensures r == PadArray(out, ref)
    ensures r.Some? ==> Valid(r.value.0) && Valid(r.value.1) && r.value.0.data.Keys == r.value.1.data.Keys
  {
    if out.shape == ref.shape then
      PadSameShape(out, ref);
      Some((out, ref))
    else PadArray(out, ref)
  }

  /** The voxels where two arrays differ, those where their difference is
      nonzero. */
  function Mismatch(a: Volume, b: Volume): set<Idx> {
    set i | i in a && i in b && a[i] != b[i]
  }

  lemma NoMismatch(a: Volume)
    ensures |Mismatch(a, a)| == 0
  {
    assert Mismatch(a, a) == {};
  }

  /** m / s * 100 <= limit, cleared of the division. */
  lemma RatioWithin(m: real, s: real, limit: real)
    requires s > 0.0
    ensures m / s * 100.0 <= limit <==> m * 100.0 <= limit * s
  {
    var t := m / s;
    assert t * s == m;
    assert (t * 100.0 - limit) * s == m * 100.0 - limit * s;
    SignOfProduct(t * 100.0 - limit, s);
  }

  lemma SignOfProduct(d: real, s: real)
    requires s > 0.0
    ensures d <= 0.0 <==> d * s <= 0.0
  {
  }

  /** `np.count_nonzero(diff) / diff.size * 100 > limit` fails the test:
      the arrays pass when at most limit percent of their voxels differ.
      An empty array divides by zero. */
  function DiffWithin(a: Array, b: Array, limit: real): (r: Option<bool>)
    requires a.data.Keys == b.data.Keys
    ensures r.None? <==> |a.data| == 0
    ensures r == Some(true) <==>
      |a.data| > 0 && (|Mismatch(a.data, b.data)| as real) * 100.0 <= limit * (|a.data| as real)
  {
    if |a.data| == 0 then None
    else
      var m := |Mismatch(a.data, b.data)| as real;
      var s := |a.data| as real;
      RatioWithin(m, s, limit);
      Some(m / s * 100.0 <= limit)
  }

  /** verifyBreaks: the output break mask passes when at most 0.5 % of the
      voxels of the aligned arrays differ from the sample. */
  function VerifyBreaks(out: Array, ref: Array): (r: Option<bool>)
    requires Valid(out) && Valid(ref)
    ensures PadArray(out, ref).None? ==> r.None?
    ensures PadArray(out, ref).Some? ==>
      var p := PadArray(out, ref).value;
      (r.None? <==> |p.0.data| == 0) &&
      (r == Some(true) <==> |p.0.data| > 0 && 200 * |Mismatch(p.0.data, p.1.data)| <= |p.0.data|)
  {
    match Aligned(out, ref)
    case None => None
    case Some(p) => DiffWithin(p.0, p.1, 0.5)
  }

  /** An output equal to its sample passes. */
  lemma BreaksMatchThemselves(a: Array)
    requires Valid(a) && |a.data| > 0
    ensures VerifyBreaks(a, a) == Some(true)
  {
    PadSameShape(a, a);
    NoMismatch(a.data);
  }

  /** The sample masks hold 0 and 177; the test sets every nonzero voxel
      of the sample to 1 before comparing. */
  function Binarized(a: Array): (r: Array)
    ensures Valid(a) ==> Valid(r)
    ensures r.shape == a.shape
    ensures IsBinary(r.data, 1) && Support(r.data) == Support(a.data)
  {
    Array(a.shape, Indicator(a.data.Keys, Support(a.data), 1))
  }

  /** verifyMask: the output contour passes when at most 2 % of the
      voxels differ from the binarized, aligned sample. */
  function VerifyMask(out: Array, ref: Array): (r: Option<bool>)
    requires Valid(out) && Valid(ref)
    ensures PadArray(out, ref).None? ==> r.None?
    ensures PadArray(out, ref).Some? ==>
      var p := PadArray(out, ref).value;
      (r.None? <==> |p.0.data| == 0) &&
      (r == Some(true) <==>
        |p.0.data| > 0 && 50 * |Mismatch(p.0.data, Binarized(p.1).data)| <= |p.0.data|)
  {
    match Aligned(out, ref)
    case None => None
    case Some(p) => DiffWithin(p.0, Binarized(p.1), 2.0)
  }

  /** A 0/1 mask of exactly the sample's nonzero voxels passes, whatever
      foreground value the sample uses. */
  lemma MaskOfSamplePasses(ref: Array)
    requires Valid(ref) && |ref.data| > 0
    ensures VerifyMask(Binarized(ref), ref) == Some(true)
  {
    var out := Binarized(ref);
    PadSameShape(out, ref);
    NoMismatch(out.data);
  }

  /** A segment of a segmentation: its id and its binary labelmap. */
  datatype Segment = Segment(id: string, mask: Array)

  /** arrayFromSegmentBinaryLabelmap on the sample: the first segment with
      the id. */
  function Lookup(segs: seq<Segment>, id: string): (r: Option<Array>)
    ensures r.None? <==> forall k :: 0 <= k < |segs| ==> segs[k].id != id
    ensures r.Some? ==> exists k :: 0 <= k < |segs| && segs[k].id == id && segs[k].mask == r.value
  {
    if |segs| == 0 then None
    else if segs[0].id == id then Some(segs[0].mask)
    else
      var r := Lookup(segs[1..], id);
      assert r.Some? ==> exists k :: 1 <= k < |segs| && segs[k].id == id && segs[k].mask == r.value by {
        if r.Some? {
          var k :| 0 <= k < |segs[1..]| && segs[1..][k].id == id && segs[1..][k].mask == r.value;
          assert segs[k + 1] == segs[1..][k];
        }
      }
      r
  }

  predicate AllValid(segs: seq<Segment>) {
    forall k :: 0 <= k < |segs| ==> Valid(segs[k].mask)
  }

  /** One output segment agrees with the sample's segment of the same id:
      the sample has it, the two align and at most 0.5 % of the voxels
      differ. */
  predicate SegmentMatches(s: Segment, ref: seq<Segment>)
    requires Valid(s.mask) && AllValid(ref)
  {
    var m := Lookup(ref, s.id);
    m.Some? &&
    PadArray(s.mask, m.value).Some? &&
    var p := PadArray(s.mask, m.value).value;
    |p.0.data| > 0 && 200 * |Mismatch(p.0.data, p.1.data)| <= |p.0.data|
  }

  /** One iteration of verifyErosion's loop: look the segment up in the
      sample (raising when it is missing), align the two labelmaps and
      compare them as verifyBreaks does. */
  function SegmentVerdict(s: Segment, ref: seq<Segment>): (r: Option<bool>)
    requires Valid(s.mask) && AllValid(ref)
    ensures r == Some(true) <==> SegmentMatches(s, ref)
  {
    match Lookup(ref, s.id)
    case None => None
    case Some(m) => VerifyBreaks(s.mask, m)
  }

  /** The verdicts of the loop's iterations, one per output segment. The
      loop stops at the first one that is not a pass, so the later ones are
      never reached. */
  function Verdicts(out: seq<Segment>, ref: seq<Segment>): (vs: seq<Option<bool>>)
    requires AllValid(out) && AllValid(ref)
    ensures |vs| == |out|
    ensures forall j :: 0 <= j < |out| ==> (vs[j] == Some(true) <==> SegmentMatches(out[j], ref))
  {
    seq(|out|, j requires 0 <= j < |out| => SegmentVerdict(out[j], ref))
  }

  /** The loop of verifyErosion from segment k on: the first verdict that
      is not a pass (a failure, or a raise) ends the test with it. */
  function Scan(vs: seq<Option<bool>>, k: nat): (r: Option<bool>)
    decreases |vs| - k
    ensures r == Some(true) <==> forall j :: k <= j < |vs| ==> vs[j] == Some(true)
    ensures r != Some(true) ==> exists j :: k <= j < |vs| && vs[j] == r
  {
    if k >= |vs| then Some(true)
    else if vs[k] != Some(true) then vs[k]
    else Scan(vs, k + 1)
  }

  /** verifyErosion as written: a different number of segments is only
      reported, and the loop starts at segment 1, skipping the mask. */
  function VerifyErosionAsWritten(out: seq<Segment>, ref: seq<Segment>): (r: Option<bool>)
    requires AllValid(out) && AllValid(ref)
    ensures r == Some(true) <==> forall j :: 1 <= j < |out| ==> SegmentMatches(out[j], ref)
  {
    Scan(Verdicts(out, ref), 1)
  }

  /** verifyErosion with the count check failing the test, as its message
      says it does. */
  function VerifyErosion(out: seq<Segment>, ref: seq<Segment>): (r: Option<bool>)
    requires AllValid(out) && AllValid(ref)
    ensures r == Some(true) <==>
      |out| == |ref| && forall j :: 1 <= j < |out| ==> SegmentMatches(out[j], ref)
    ensures |out| != |ref| ==> r == Some(false)
  {
    if |out| != |ref| then Some(false) else Scan(Verdicts(out, ref), 1)
  }

  /** An output holding only the mask segment passes the test as written
      against a sample with two erosions; the corrected check fails it. */
  lemma MissingSegmentsPass(a: Array)
    requires Valid(a)
    ensures VerifyErosionAsWritten([Segment("mask", a)], [Segment("mask", a), Segment("1", a), Segment("2", a)]) == Some(true)
    ensures VerifyErosion([Segment("mask", a)], [Segment("mask", a), Segment("1", a), Segment("2", a)]) == Some(false)
  {
  }

  /** |value / sample - 1| <= 0.01, cleared of the division. */
  lemma RelativeWithin(v: real, c: real)
    requires c != 0.0
    ensures PyNum.Abs(v / c - 1.0) <= 0.01 <==> PyNum.Abs(v - c) <= 0.01 * PyNum.Abs(c)
  {
    var t := v / c;
    assert t * c == v;
    assert (t - 1.0) * c == v - c;
    AbsProduct(t - 1.0, c);
    var a := PyNum.Abs(c);
    assert a > 0.0;
    assert (PyNum.Abs(t - 1.0) - 0.01) * a == PyNum.Abs(v - c) - 0.01 * a;
    SignOfProduct(PyNum.Abs(t - 1.0) - 0.01, a);
  }

  lemma AbsProduct(d: real, c: real)
    ensures PyNum.Abs(d * c) == PyNum.Abs(d) * PyNum.Abs(c)
  {
    if d < 0.0 && c > 0.0 {
      assert d * c < 0.0;
    } else if d > 0.0 && c < 0.0 {
      assert d * c < 0.0;
    } else if d < 0.0 && c < 0.0 {
      assert d * c > 0.0;
    }
  }

  /** verifyTale: the volume and then the surface area of the output
      table's first row may differ from the sample's by at most 1 %
      relative to the sample; a zero sample value divides by zero. */
  function VerifyTable(volume: real, refVolume: real, area: real, refArea: real): (r: Option<bool>)
    ensures r == Some(true) <==>
      refVolume != 0.0 && refArea != 0.0 &&
      PyNum.Abs(volume - refVolume) <= 0.01 * PyNum.Abs(refVolume) &&
      PyNum.Abs(area - refArea) <= 0.01 * PyNum.Abs(refArea)
    ensures r.None? <==>
      refVolume == 0.0 ||
      (PyNum.Abs(volume - refVolume) <= 0.01 * PyNum.Abs(refVolume) && refArea == 0.0)
  {
    if refVolume == 0.0 then None
    else
      RelativeWithin(volume, refVolume);
      if PyNum.Abs(volume / refVolume - 1.0) > 0.01 then Some(false)
      else if refArea == 0.0 then None
      else
        RelativeWithin(area, refArea);
        Some(PyNum.Abs(area / refArea - 1.0) <= 0.01)
  }

  /** The seed test allows a distance below 1.5 per axis for test 3, which
      has larger erosions, and below 0.5 otherwise. */
  function Tolerance(testNum: int): (t: real)
    ensures t > 0.0
  {
    if testNum == 3 then 1.5 else 0.5
  }

  predicate Near(p: Point, q: Point, t: real) {
    PyNum.Abs(p.x - q.x) < t && PyNum.Abs(p.y - q.y) < t && PyNum.Abs(p.z - q.z) < t
  }

  predicate Matched(p: Point, ref: seq<Point>, t: real) {
    exists k :: 0 <= k < |ref| && Near(p, ref[k], t)
  }

  /** The number of seeds no sample seed lies near. */
  function Unmatched(seeds: seq<Point>, ref: seq<Point>, t: real): (n: nat)
    ensures n <= |seeds|
  {
    if |seeds| == 0 then 0
    else Unmatched(seeds[..|seeds| - 1], ref, t) + (if Matched(seeds[|seeds| - 1], ref, t) then 0 else 1)
  }

  /** The seed test's verdict: the output has at least as many seeds as
      the sample and at most 9 more, and no more seeds go unmatched than
      there are extra seeds. */
  predicate SeedsPass(seeds: seq<Point>, ref: seq<Point>, testNum: int) {
    var slack := |seeds| - |ref|;
    0 <= slack <= 9 && Unmatched(seeds, ref, Tolerance(testNum)) <= slack
  }

  /** A prefix has no more unmatched seeds than the whole list. */
  lemma {:induction false} UnmatchedPrefix(seeds: seq<Point>, ref: seq<Point>, t: real, n: nat)
    requires n <= |seeds|
    ensures Unmatched(seeds[..n], ref, t) <= Unmatched(seeds, ref, t)
    decreases |seeds| - n
  {
    if n < |seeds| {
      UnmatchedPrefix(seeds, ref, t, n + 1);
      assert seeds[..n + 1][..n] == seeds[..n];
    } else {
      assert seeds[..n] == seeds;
    }
  }

  /** verifySeeds: the length checks, then every output seed looked for
      among the sample seeds; an unmatched seed uses up one extra seed, and
      the test fails once there are none left. */
  method VerifySeeds(seeds: seq<Point>, ref: seq<Point>, testNum: int) returns (ok: bool)
    ensures ok <==> SeedsPass(seeds, ref, testNum)
  {
    var lendiff := |seeds| - |ref|;
    if lendiff > 9 {
      return false;
    } else if lendiff < 0 {
      return false;
    }
    var t := Tolerance(testNum);
    var i := 0;
    while i < |seeds|
      invariant 0 <= i <= |seeds|
      invariant 0 <= lendiff == |seeds| - |ref| - Unmatched(seeds[..i], ref, t)
    {
      var found := false;
      var j := 0;
      while j < |ref|
        invariant 0 <= j <= |ref|
        invariant forall k :: 0 <= k < j ==> !Near(seeds[i], ref[k], t)
      {
        if Near(seeds[i], ref[j], t) {
          found := true;
          break;
        }
        j := j + 1;
      }
      assert found <==> Matched(seeds[i], ref, t);
      assert seeds[..i + 1][..i] == seeds[..i];
      if !found {
        lendiff := lendiff - 1;
        if lendiff < 0 {
          UnmatchedPrefix(seeds, ref, t, i + 1);
          return false;
        }
      }
      i := i + 1;
    }
    assert seeds[..i] == seeds;
    return true;
  }

  /** Seeds that each lie near some sample seed are all matched. */
  lemma {:induction false} AllMatched(seeds: seq<Point>, ref: seq<Point>, t: real)
    requires forall k :: 0 <= k < |seeds| ==> Matched(seeds[k], ref, t)
    ensures Unmatched(seeds, ref, t) == 0
  {
    if |seeds| > 0 {
      AllMatched(seeds[..|seeds| - 1], ref, t);
    }
  }

  /** Extra seeds add at most one unmatched seed each. */
  lemma {:induction false} UnmatchedAppend(seeds: seq<Point>, extra: seq<Point>, ref: seq<Point>, t: real)
    ensures Unmatched(seeds + extra, ref, t) <= Unmatched(seeds, ref, t) + |extra|
  {
    if |extra| == 0 {
      assert seeds + extra == seeds;
    } else {
      var e := extra[..|extra| - 1];
      UnmatchedAppend(seeds, e, ref, t);
      assert (seeds + extra)[..|seeds + extra| - 1] == seeds + e;
    }
  }

  /** The sample's own seeds with up to 9 extra ones, anywhere, pass. */
  lemma ExtraSeedsPass(ref: seq<Point>, extra: seq<Point>, testNum: int)
    requires |extra| <= 9
    ensures SeedsPass(ref + extra, ref, testNum)
  {
    var t := Tolerance(testNum);
    forall k | 0 <= k < |ref| ensures Matched(ref[k], ref, t) {
      assert Near(ref[k], ref[k], t);
    }
    AllMatched(ref, ref, t);
    UnmatchedAppend(ref, extra, ref, t);
  }

  /** Matching goes one way only: a sample seed nobody found does not fail
      the test when a spare output seed sits near another sample seed. */
  lemma MissingSeedPasses()
    ensures SeedsPass([ErosionVolumeLogic.Point(0.0, 0.0, 0.0), ErosionVolumeLogic.Point(0.1, 0.0, 0.0)],
                      [ErosionVolumeLogic.Point(0.0, 0.0, 0.0), ErosionVolumeLogic.Point(9.0, 9.0, 9.0)], 1)
  {
    var p := ErosionVolumeLogic.Point(0.0, 0.0, 0.0);
    var q := ErosionVolumeLogic.Point(0.1, 0.0, 0.0);
    var ref := [p, ErosionVolumeLogic.Point(9.0, 9.0, 9.0)];
    assert Near(p, ref[0], 0.5) && Near(q, ref[0], 0.5);
    AllMatched([p, q], ref, 0.5);
  }

  /** The folder of the sample files: '\\TestFiles\\' after a Windows root
      (one holding a backslash), '/TestFiles/' otherwise. */
  function FilePath(root: string, filename: string): (r: string)
    ensures |r| == |root| + 11 + |filename|
    ensures r[..|root|] == root && r[|root| + 11..] == filename
    ensures r[|root| + 1..|root| + 10] == "TestFiles"
    ensures r[|root|] == r[|root| + 10]
    ensures r[|root|] == '\\' <==> PyStr.Contains(root, "\\")
    ensures r[|root|] == '/' <==> !PyStr.Contains(root, "\\")
  {
    if PyStr.Contains(root, "\\") then root + "\\TestFiles\\" + filename
    else root + "/TestFiles/" + filename
  }

  /** The erosion-volume test's getFilePath calls root.contains, a method
      Python strings do not have: the call raises for every root. */
  function FilePathAsWritten(root: string, filename: string): (r: Option<string>)
    ensures r.None?
  {
    None
  }
}
