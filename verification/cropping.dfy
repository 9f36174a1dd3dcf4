/** Bounding-box crops of a binarised contour (setContour and
    setContourImage): SimpleITK Crop removes a number of voxels at the low
    and at the high end of every axis. The crop amounts are computed from
    the inclusive bounding box of label 1 that LabelStatistics reports. */
module Cropping {
  import opened Wrappers
  import opened Volumes
  import ContourLogic

  type BBox = ContourLogic.BBox

  function Plus(i: Idx, o: Idx): Idx {
    Idx(i.x + o.x, i.y + o.y, i.z + o.z)
  }

  function Max0(n: int): int {
    if n < 0 then 0 else n
  }

  /** sitk.Crop(v, lo, up): None stands for the exception Crop raises for a
      negative amount or amounts that exceed the size on some axis. */
  function Crop(v: Volume, w: int, h: int, d: int, lo: Idx, up: Idx): (r: Option<Volume>)
    requires v.Keys == Grid(w, h, d)
    ensures r.None? <==>
      lo.x < 0 || lo.y < 0 || lo.z < 0 || up.x < 0 || up.y < 0 || up.z < 0 ||
      lo.x + up.x > w || lo.y + up.y > h || lo.z + up.z > d
    ensures r.Some? ==> r.value.Keys == Grid(w - lo.x - up.x, h - lo.y - up.y, d - lo.z - up.z)
    ensures r.Some? ==> forall j :: j in r.value ==> Plus(j, lo) in v && r.value[j] == v[Plus(j, lo)]
  {
    if lo.x < 0 || lo.y < 0 || lo.z < 0 || up.x < 0 || up.y < 0 || up.z < 0 ||
       lo.x + up.x > w || lo.y + up.y > h || lo.z + up.z > d
    then None
    else Some(map j | j in Grid(w - lo.x - up.x, h - lo.y - up.y, d - lo.z - up.z) :: v[Plus(j, lo)])
  }

  /** The original positions of the voxels a crop keeps. */
  predicate Kept(i: Idx, w: int, h: int, d: int, lo: Idx, up: Idx) {
    lo.x <= i.x < w - up.x && lo.y <= i.y < h - up.y && lo.z <= i.z < d - up.z
  }

  /** A successful crop holds exactly the voxels that are Kept, shifted by lo. */
  lemma CropKept(v: Volume, w: int, h: int, d: int, lo: Idx, up: Idx, i: Idx)
    requires v.Keys == Grid(w, h, d)
    requires Crop(v, w, h, d, lo, up).Some?
    requires i in v
    ensures var j := Idx(i.x - lo.x, i.y - lo.y, i.z - lo.z);
      (j in Crop(v, w, h, d, lo, up).value <==> Kept(i, w, h, d, lo, up)) &&
      (j in Crop(v, w, h, d, lo, up).value ==> Crop(v, w, h, d, lo, up).value[j] == v[i])
  {
    assert Plus(Idx(i.x - lo.x, i.y - lo.y, i.z - lo.z), lo) == i;
  }

  /** The box encloses every foreground voxel. */
  predicate Encloses(b: BBox, s: set<Idx>) {
    forall i :: i in s ==> ContourLogic.InBox(b, i)
  }

  /** Training's setContourImage as written: the low amounts are the box
      minimum and the high amounts are size - max, although max is an
      inclusive index. */
  function ExactAmountsAsWritten(b: BBox, w: int, h: int, d: int): (r: (Idx, Idx))
    ensures r.0 == Idx(b.x0, b.y0, b.z0)
    ensures w - r.1.x == b.x1 && h - r.1.y == b.y1 && d - r.1.z == b.z1
  {
    (Idx(b.x0, b.y0, b.z0), Idx(w - b.x1, h - b.y1, d - b.z1))
  }

  /** The same crop with the high amounts size - (max + 1). */
  function ExactAmounts(b: BBox, w: int, h: int, d: int): (r: (Idx, Idx))
    ensures r.0 == Idx(b.x0, b.y0, b.z0)
    ensures w - r.1.x == b.x1 + 1 && h - r.1.y == b.y1 + 1 && d - r.1.z == b.z1 + 1
  {
    (Idx(b.x0, b.y0, b.z0), Idx(w - b.x1 - 1, h - b.y1 - 1, d - b.z1 - 1))
  }

  /** The cortical-break setContour as written: a margin of 2 in x and y
      and none in z, every amount clamped at 0, and the high amounts again
      size - max - margin with max inclusive. */
  function MarginAmountsAsWritten(b: BBox, w: int, h: int, d: int): (r: (Idx, Idx))
    ensures r.0 == Idx(Max0(b.x0 - 2), Max0(b.y0 - 2), Max0(b.z0))
    ensures r.1 == Idx(Max0(w - b.x1 - 2), Max0(h - b.y1 - 2), Max0(d - b.z1))
    ensures r.0.x >= 0 && r.0.y >= 0 && r.0.z >= 0 && r.1.x >= 0 && r.1.y >= 0 && r.1.z >= 0
  {
    var margin := 2;
    (Idx(Max0(b.x0 - margin), Max0(b.y0 - margin), Max0(b.z0)),
     Idx(Max0(w - b.x1 - margin), Max0(h - b.y1 - margin), Max0(d - b.z1)))
  }

  /** The same crop keeping a margin of 2 on both sides of x and y and the
      whole box in z. */
  function MarginAmounts(b: BBox, w: int, h: int, d: int): (r: (Idx, Idx))
    ensures r.0 == Idx(Max0(b.x0 - 2), Max0(b.y0 - 2), Max0(b.z0))
    ensures r.1 == Idx(Max0(w - b.x1 - 1 - 2), Max0(h - b.y1 - 1 - 2), Max0(d - b.z1 - 1))
  {
    var margin := 2;
    (Idx(Max0(b.x0 - margin), Max0(b.y0 - margin), Max0(b.z0)),
     Idx(Max0(w - b.x1 - 1 - margin), Max0(h - b.y1 - 1 - margin), Max0(d - b.z1 - 1)))
  }

  /** Binarising (a value in 1..255 becomes 1) and cropping to the box. */
  function CropContour(contour: Volume, w: int, h: int, d: int, amounts: (Idx, Idx)): (r: Option<Volume>)
    requires contour.Keys == Grid(w, h, d)
    ensures r.Some? ==> IsBinary(r.value, 1)
  {
    Crop(ThresholdAbove(contour, 1, 1), w, h, d, amounts.0, amounts.1)
  }

  /** A 1 of the cropped contour comes from a mask voxel in 1..255, lo back. */
  lemma CropContourBack(contour: Volume, w: int, h: int, d: int, amounts: (Idx, Idx), j: Idx)
    requires contour.Keys == Grid(w, h, d)
    requires CropContour(contour, w, h, d, amounts).Some?
    requires j in CropContour(contour, w, h, d, amounts).value
    requires CropContour(contour, w, h, d, amounts).value[j] == 1
    ensures Plus(j, amounts.0) in contour && 1 <= contour[Plus(j, amounts.0)] <= UpperDefault
  {
  }

  /** As written, a contour voxel on the box's high face in x, y or z is
      cut off by Training's crop. */
  lemma ExactCropDropsMaxFace(contour: Volume, w: int, h: int, d: int, b: BBox, i: Idx)
    requires contour.Keys == Grid(w, h, d) && ContourLogic.BoxFits(b, w, h, d)
    requires i in contour && 1 <= contour[i] <= UpperDefault
    requires i.x == b.x1 || i.y == b.y1 || i.z == b.z1
    ensures CropContour(contour, w, h, d, ExactAmountsAsWritten(b, w, h, d)).Some?
    ensures var (lo, up) := ExactAmountsAsWritten(b, w, h, d); !Kept(i, w, h, d, lo, up)
  {
  }

  /** A one-voxel contour crops to an empty image as written. */
  lemma ExactCropSingleVoxel()
    ensures map[Idx(0, 0, 0) := 1].Keys == Grid(1, 1, 1)
    ensures CropContour(map[Idx(0, 0, 0) := 1], 1, 1, 1,
                        ExactAmountsAsWritten(ContourLogic.BBox(0, 0, 0, 0, 0, 0), 1, 1, 1)) == Some(map[])
  {
    var contour := map[Idx(0, 0, 0) := 1];
    UnitGrid();
    assert contour.Keys == Grid(1, 1, 1);
    var amounts := ExactAmountsAsWritten(ContourLogic.BBox(0, 0, 0, 0, 0, 0), 1, 1, 1);
    assert amounts == (Idx(0, 0, 0), Idx(1, 1, 1));
    CropUnitToEmpty(ThresholdAbove(contour, 1, 1));
  }

  lemma CropUnitToEmpty(t: Volume)
    requires t.Keys == Grid(1, 1, 1)
    ensures Crop(t, 1, 1, 1, Idx(0, 0, 0), Idx(1, 1, 1)) == Some(map[])
  {
    EmptyGrid();
    var r := Crop(t, 1, 1, 1, Idx(0, 0, 0), Idx(1, 1, 1));
    assert r.value.Keys == {};
  }

  lemma UnitGrid()
    ensures Grid(1, 1, 1) == {Idx(0, 0, 0)}
  {
    assert InGrid(Idx(0, 0, 0), 1, 1, 1);
    forall i | i in Grid(1, 1, 1) ensures i == Idx(0, 0, 0) {
      assert InGrid(i, 1, 1, 1);
    }
  }

  lemma EmptyGrid()
    ensures Grid(0, 0, 0) == {}
  {
  }

  /** With size - (max + 1), every contour voxel survives the crop with
      value 1. */
  lemma ExactCropKeepsContour(contour: Volume, w: int, h: int, d: int, b: BBox, i: Idx)
    requires contour.Keys == Grid(w, h, d) && ContourLogic.BoxFits(b, w, h, d)
    requires Encloses(b, Support(ThresholdAbove(contour, 1, 1)))
    requires i in contour && 1 <= contour[i] <= UpperDefault
    ensures CropContour(contour, w, h, d, ExactAmounts(b, w, h, d)).Some?
    ensures var (lo, up) := ExactAmounts(b, w, h, d);
      var j := Idx(i.x - lo.x, i.y - lo.y, i.z - lo.z);
      j in CropContour(contour, w, h, d, ExactAmounts(b, w, h, d)).value &&
      CropContour(contour, w, h, d, ExactAmounts(b, w, h, d)).value[j] == 1
  {
    var (lo, up) := ExactAmounts(b, w, h, d);
    assert i in Support(ThresholdAbove(contour, 1, 1));
    CropKept(ThresholdAbove(contour, 1, 1), w, h, d, lo, up, i);
  }

  /** As written, the cortical-break crop never fails, keeps the whole box
      in x and y, but cuts off the contour voxels in the box's top z slice. */
  lemma MarginCropDropsTopSlice(contour: Volume, w: int, h: int, d: int, b: BBox, i: Idx)
    requires contour.Keys == Grid(w, h, d) && ContourLogic.BoxFits(b, w, h, d)
    requires i in contour && 1 <= contour[i] <= UpperDefault && ContourLogic.InBox(b, i)
    ensures CropContour(contour, w, h, d, MarginAmountsAsWritten(b, w, h, d)).Some?
    ensures var (lo, up) := MarginAmountsAsWritten(b, w, h, d);
      Kept(i, w, h, d, lo, up) <==> i.z < b.z1
  {
  }

  /** The corrected cortical-break crop never fails and keeps every voxel
      of the box, so every contour voxel survives with value 1. */
  lemma MarginCropKeepsContour(contour: Volume, w: int, h: int, d: int, b: BBox, i: Idx)
    requires contour.Keys == Grid(w, h, d) && ContourLogic.BoxFits(b, w, h, d)
    requires Encloses(b, Support(ThresholdAbove(contour, 1, 1)))
    requires i in contour && 1 <= contour[i] <= UpperDefault
    ensures CropContour(contour, w, h, d, MarginAmounts(b, w, h, d)).Some?
    ensures var (lo, up) := MarginAmounts(b, w, h, d);
      var j := Idx(i.x - lo.x, i.y - lo.y, i.z - lo.z);
      j in CropContour(contour, w, h, d, MarginAmounts(b, w, h, d)).value &&
      CropContour(contour, w, h, d, MarginAmounts(b, w, h, d)).value[j] == 1
  {
    var (lo, up) := MarginAmounts(b, w, h, d);
    assert i in Support(ThresholdAbove(contour, 1, 1));
    CropKept(ThresholdAbove(contour, 1, 1), w, h, d, lo, up, i);
  }
}
