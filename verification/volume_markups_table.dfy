/** MarkupsTable (erosion volume): the seed-point table of the erosion
    volume module. Besides the label and the position, in IJK voxel
    coordinates, each row holds the bone and the cortical-interruption
    type as combo boxes, and either a large-erosion check box (normal view)
    or the minimum-radius and dilate/erode-distance spin boxes (advanced
    view). The coordinate columns move when the view changes. Positions
    go through the scan's 4x4 RAS-to-IJK and IJK-to-RAS matrices. The
    deleting and moving of rows is that of the erosion-detection table. */
module VolumeMarkupsTable {
  import opened Wrappers
  import PyStr
  import PyNum
  import ErosionVolumeLogic
  import MarkupsTable

  type Point = ErosionVolumeLogic.Point
  type Row = ErosionVolumeLogic.Row
  type Matrix = ErosionVolumeLogic.Matrix

  /** RASToIJKCoords and IJKToRASCoords: the point with w = 1 appended is
      multiplied by the matrix and the first three components are kept. */
  function Transform(m: Matrix, p: Point): Point {
    ErosionVolumeLogic.Point(
      ErosionVolumeLogic.Apply(m.rx, p), ErosionVolumeLogic.Apply(m.ry, p), ErosionVolumeLogic.Apply(m.rz, p))
  }

  /** Rounding the table's coordinates gives the voxel that the logic's
      RASToIJKCoords picks for the same point and matrix. */
  lemma TableRoundsToVoxel(m: Matrix, p: Point)
    ensures var v := ErosionVolumeLogic.RasToIjk(m, p);
      var r := Transform(m, p);
      PyNum.Abs(v.x as real - r.x) <= 0.5 &&
      PyNum.Abs(v.y as real - r.y) <= 0.5 &&
      PyNum.Abs(v.z as real - r.z) <= 0.5
  {
  }

  /** A matrix whose last row is (0, 0, 0, 1): an affine map. */
  predicate Affine(m: Matrix) {
    m.rw == ErosionVolumeLogic.Row(0.0, 0.0, 0.0, 1.0)
  }

  const Identity: Matrix := ErosionVolumeLogic.Matrix(
    ErosionVolumeLogic.Row(1.0, 0.0, 0.0, 0.0), ErosionVolumeLogic.Row(0.0, 1.0, 0.0, 0.0),
    ErosionVolumeLogic.Row(0.0, 0.0, 1.0, 0.0), ErosionVolumeLogic.Row(0.0, 0.0, 0.0, 1.0))

  /** A row of a times b. */
  function MulRow(r: Row, b: Matrix): Row {
    ErosionVolumeLogic.Row(
      r.a * b.rx.a + r.b * b.ry.a + r.c * b.rz.a + r.t * b.rw.a,
      r.a * b.rx.b + r.b * b.ry.b + r.c * b.rz.b + r.t * b.rw.b,
      r.a * b.rx.c + r.b * b.ry.c + r.c * b.rz.c + r.t * b.rw.c,
      r.a * b.rx.t + r.b * b.ry.t + r.c * b.rz.t + r.t * b.rw.t)
  }

  /** The matrix product a b. */
  function Product(a: Matrix, b: Matrix): Matrix {
    ErosionVolumeLogic.Matrix(MulRow(a.rx, b), MulRow(a.ry, b), MulRow(a.rz, b), MulRow(a.rw, b))
  }

  /** Two affine matrices each undoing the other, as the scan's RAS-to-IJK
      and IJK-to-RAS matrices do. */
  predicate Inverse(a: Matrix, b: Matrix) {
    Affine(a) && Affine(b) && Product(a, b) == Identity && Product(b, a) == Identity
  }

  /** A row scaled by k. */
  function ScaleRow(k: real, r: Row): Row {
    ErosionVolumeLogic.Row(k * r.a, k * r.b, k * r.c, k * r.t)
  }

  /** The sum of two rows. */
  function AddRow(r: Row, s: Row): Row {
    ErosionVolumeLogic.Row(r.a + s.a, r.b + s.b, r.c + s.c, r.t + s.t)
  }

  lemma ScaleApply(k: real, r: Row, p: Point)
    ensures k * ErosionVolumeLogic.Apply(r, p) == ErosionVolumeLogic.Apply(ScaleRow(k, r), p)
  {
  }

  lemma TransformApply(r: Row, b: Matrix, p: Point)
    ensures ErosionVolumeLogic.Apply(r, Transform(b, p)) ==
      r.a * ErosionVolumeLogic.Apply(b.rx, p) + r.b * ErosionVolumeLogic.Apply(b.ry, p) +
      r.c * ErosionVolumeLogic.Apply(b.rz, p) + r.t
  {
  }

  lemma AddApply(r: Row, s: Row, p: Point)
    ensures ErosionVolumeLogic.Apply(r, p) + ErosionVolumeLogic.Apply(s, p) == ErosionVolumeLogic.Apply(AddRow(r, s), p)
  {
  }

  /** The product row r b as a sum of b's rows scaled by r's entries. */
  function Combined(r: Row, b: Matrix): Row {
    AddRow(AddRow(AddRow(ScaleRow(r.a, b.rx), ScaleRow(r.b, b.ry)), ScaleRow(r.c, b.rz)), ScaleRow(r.t, b.rw))
  }

  lemma CombinedIsProduct(r: Row, b: Matrix)
    ensures Combined(r, b) == MulRow(r, b)
  {
  }

  /** Applying r after an affine b sums b's scaled rows applied. */
  lemma ApplyCombined(r: Row, b: Matrix, p: Point)
    requires Affine(b)
    ensures ErosionVolumeLogic.Apply(r, Transform(b, p)) == ErosionVolumeLogic.Apply(Combined(r, b), p)
  {
    var sx := ScaleRow(r.a, b.rx);
    var sy := ScaleRow(r.b, b.ry);
    var sz := ScaleRow(r.c, b.rz);
    var sw := ScaleRow(r.t, b.rw);
    ScaleApply(r.a, b.rx, p);
    ScaleApply(r.b, b.ry, p);
    ScaleApply(r.c, b.rz, p);
    assert ErosionVolumeLogic.Apply(sw, p) == r.t by {
      assert sw == ErosionVolumeLogic.Row(r.t * 0.0, r.t * 0.0, r.t * 0.0, r.t * 1.0);
    }
    AddApply(sx, sy, p);
    AddApply(AddRow(sx, sy), sz, p);
    AddApply(AddRow(AddRow(sx, sy), sz), sw, p);
    TransformApply(r, b, p);
  }

  /** One row applied after an affine matrix is the product row applied. */
  lemma ApplyAfter(r: Row, b: Matrix, p: Point)
    requires Affine(b)
    ensures ErosionVolumeLogic.Apply(r, Transform(b, p)) == ErosionVolumeLogic.Apply(MulRow(r, b), p)
  {
    ApplyCombined(r, b, p);
    CombinedIsProduct(r, b);
  }

  /** Transforming by b, an affine matrix, and then by a is transforming by
      the product a b: dropping w after the first product loses nothing. */
  lemma Compose(a: Matrix, b: Matrix, p: Point)
    requires Affine(b)
    ensures Transform(a, Transform(b, p)) == Transform(Product(a, b), p)
  {
    ApplyAfter(a.rx, b, p);
    ApplyAfter(a.ry, b, p);
    ApplyAfter(a.rz, b, p);
  }

  /** RAS to IJK and back, and IJK to RAS and back, are the identity for
      mutually inverse matrices. */
  lemma CoordRoundTrip(ras2ijk: Matrix, ijk2ras: Matrix, p: Point)
    requires Inverse(ras2ijk, ijk2ras)
    ensures Transform(ijk2ras, Transform(ras2ijk, p)) == p
    ensures Transform(ras2ijk, Transform(ijk2ras, p)) == p
  {
    Compose(ijk2ras, ras2ijk, p);
    Compose(ras2ijk, ijk2ras, p);
  }

  /** The column of each cell. The coordinate columns are module globals
      that the view switches move. */
  const LabelColumn := 0
  const BoneColumn := 1
  const InterruptionColumn := 2
  const LargeErosionColumn := 4
  const MinimumRadiusColumn := 4
  const ErodeDistanceColumn := 5

  datatype Layout = Layout(x: int, y: int, z: int)

  const StartLayout := Layout(3, 4, 5)

  /** advancedMarkupsControlPointsTableView moves the coordinate columns
      one to the right. */
  function AdvancedLayout(l: Layout): (r: Layout)
    ensures r.x - l.x == 1 && r.y - l.y == 1 && r.z - l.z == 1
  {
    Layout(l.x + 1, l.y + 1, l.z + 1)
  }

  /** normalMarkupsControlPointsTableView moves them one to the left. */
  function NormalLayout(l: Layout): (r: Layout)
    ensures l.x - r.x == 1 && l.y - r.y == 1 && l.z - r.z == 1
  {
    Layout(l.x - 1, l.y - 1, l.z - 1)
  }

  /** Switching to the advanced view and back restores the columns, and so
      does the other order. */
  lemma ViewToggleRestores(l: Layout)
    ensures NormalLayout(AdvancedLayout(l)) == l && AdvancedLayout(NormalLayout(l)) == l
  {
  }

  /** The columns are shared: in the start layout the y coordinate sits in
      the column of the large-erosion check box, and after the advanced
      switch the x and y coordinates sit in the spin-box columns. */
  lemma SharedColumns()
    ensures StartLayout.y == LargeErosionColumn
    ensures AdvancedLayout(StartLayout).x == MinimumRadiusColumn
    ensures AdvancedLayout(StartLayout).y == ErodeDistanceColumn
  {
  }

  datatype ControlPoint = ControlPoint(name: string, pos: Point)

  /** onMarkupsControlPointEdited: as in the erosion-detection table, with
      the matrices instead of the spacing scale and the columns of the
      current layout. With mutually inverse matrices only the edited axis
      changes in IJK coordinates, and a column that is no axis leaves the
      point where it was. */
  function Edit(cp: ControlPoint, column: int, text: string, l: Layout, ras2ijk: Matrix, ijk2ras: Matrix): (r: ControlPoint)
    ensures column == LabelColumn ==> r == cp.(name := text)
    ensures column != LabelColumn ==> r.name == cp.name
    ensures column != LabelColumn && Inverse(ras2ijk, ijk2ras) ==>
      var before := Transform(ras2ijk, cp.pos);
      var after := Transform(ras2ijk, r.pos);
      after.x == (if column == l.x then MarkupsTable.CellValue(text) else before.x) &&
      after.y == (if column == l.y && column != l.x then MarkupsTable.CellValue(text) else before.y) &&
      after.z == (if column == l.z && column != l.x && column != l.y then MarkupsTable.CellValue(text) else before.z)
    ensures column !in {LabelColumn, l.x, l.y, l.z} && Inverse(ras2ijk, ijk2ras) ==> r == cp
  {
    if column == LabelColumn then cp.(name := text)
    else
      var ijk := Transform(ras2ijk, cp.pos);
      var moved := MarkupsTable.SetAxis(ijk, column, l.x, l.y, l.z, MarkupsTable.CellValue(text));
      var cond := Inverse(ras2ijk, ijk2ras);
      assert cond ==> (Transform(ras2ijk, Transform(ijk2ras, moved)) == moved &&
        Transform(ijk2ras, ijk) == cp.pos) by {
        if cond {
          CoordRoundTrip(ras2ijk, ijk2ras, moved);
          CoordRoundTrip(ras2ijk, ijk2ras, cp.pos);
        }
      }
      cp.(pos := Transform(ijk2ras, moved))
  }

  /** The per-row parameter widgets: the large-erosion check box and the
      two spin boxes. */
  datatype Params = Params(large: bool, minRadius: int, distance: int)

  /** getCurrentNodeMinimalRadii: one radius per control point, the spin
      box in the advanced view, otherwise 6 for a large erosion and 3. */
  function MinimalRadii(rows: seq<Params>, advanced: bool): (r: seq<int>)
    ensures |r| == |rows|
    ensures forall i :: 0 <= i < |rows| ==>
      r[i] == (if advanced then rows[i].minRadius else if rows[i].large then 6 else 3)
  {
    seq(|rows|, i requires 0 <= i < |rows| =>
      if advanced then rows[i].minRadius else if rows[i].large then 6 else 3)
  }

  /** getCurrentNodeDilateErodeDistances: one distance per control point,
      the spin box in the advanced view, otherwise 6 for a large erosion
      and 4. */
  function DilateErodeDistances(rows: seq<Params>, advanced: bool): (r: seq<int>)
    ensures |r| == |rows|
    ensures forall i :: 0 <= i < |rows| ==>
      r[i] == (if advanced then rows[i].distance else if rows[i].large then 6 else 4)
  {
    seq(|rows|, i requires 0 <= i < |rows| =>
      if advanced then rows[i].distance else if rows[i].large then 6 else 4)
  }

  /** The advanced switch gives every row new spin boxes at 3 and 4. */
  function AdvancedView(rows: seq<Params>): (r: seq<Params>)
    ensures |r| == |rows|
    ensures forall i :: 0 <= i < |rows| ==> r[i].minRadius == 3 && r[i].distance == 4
  {
    seq(|rows|, i requires 0 <= i < |rows| => rows[i].(minRadius := 3, distance := 4))
  }

  /** The normal switch gives every row an unchecked check box. */
  function NormalView(rows: seq<Params>): (r: seq<Params>)
    ensures |r| == |rows|
    ensures forall i :: 0 <= i < |rows| ==> !r[i].large
  {
    seq(|rows|, i requires 0 <= i < |rows| => rows[i].(large := false))
  }

  /** Right after either switch the parameters agree: radius 3 and
      distance 4 for every point, the small-erosion values. */
  lemma ViewSwitchDefaults(rows: seq<Params>)
    ensures MinimalRadii(AdvancedView(rows), true) == MinimalRadii(NormalView(rows), false) == seq(|rows|, i => 3)
    ensures DilateErodeDistances(AdvancedView(rows), true) == DilateErodeDistances(NormalView(rows), false) == seq(|rows|, i => 4)
  {
  }

  /** updateLabels: every label cell shows the bone's name, '_' and the
      control point's label. */
  function UpdateLabels(labels: seq<string>, bones: seq<string>): (r: seq<string>)
    requires |bones| == |labels|
    ensures |r| == |labels|
    ensures forall i :: 0 <= i < |labels| && '_' !in labels[i] ==> ErosionVolumeLogic.NameSuffix(r[i]) == labels[i]
    ensures forall i :: 0 <= i < |labels| ==> |bones[i]| < |r[i]| && r[i][..|bones[i]|] == bones[i] && r[i][|bones[i]|] == '_'
  {
    var r := seq(|labels|, i requires 0 <= i < |labels| => bones[i] + "_" + labels[i]);
    assert forall i :: 0 <= i < |labels| && '_' !in labels[i] ==> ErosionVolumeLogic.NameSuffix(r[i]) == labels[i] by {
      forall i | 0 <= i < |labels| && '_' !in labels[i]
        ensures ErosionVolumeLogic.NameSuffix(r[i]) == labels[i]
      {
        assert r[i] == bones[i] + ['_'] + labels[i];
        PyStr.SplitLastOfSuffix(bones[i], '_', labels[i]);
      }
    }
    r
  }

  /** A row's combo-box choices: the bone index and the interruption type
      index. */
  datatype Choice = Choice(name: string, bone: int, kind: int)

  /** A cached cell: the label text or a combo-box index. */
  datatype Cell = Text(s: string) | Index(i: int)

  /** getCurrentMarkupsData: per control point, [label, bone index,
      interruption index]. */
  function Save(rows: seq<Choice>): (data: seq<seq<Cell>>)
    ensures |data| == |rows|
    ensures forall i :: 0 <= i < |rows| ==> data[i] == [Text(rows[i].name), Index(rows[i].bone), Index(rows[i].kind)]
  {
    seq(|rows|, i requires 0 <= i < |rows| => [Text(rows[i].name), Index(rows[i].bone), Index(rows[i].kind)])
  }

  /** setCurrentIndex takes an index; given the label text it raises
      TypeError (None). */
  function SetIndex(c: Cell): (r: Option<int>)
    ensures r.Some? <==> c.Index?
  {
    match c
    case Index(i) => Some(i)
    case Text(_) => None
  }

  /** The restore loop of onMarkupsNodeChanged reading the bone choice
      from column boneAt and the type from kindAt of each cached row. A
      cached row that is missing raises IndexError (None). */
  function Restore(rows: seq<Choice>, data: seq<seq<Cell>>, boneAt: nat, kindAt: nat): (r: Option<seq<Choice>>)
    ensures r.Some? ==> |r.value| == |rows|
    ensures r.Some? ==> forall i :: 0 <= i < |rows| ==> r.value[i].name == rows[i].name
    decreases |rows|
  {
    if |rows| == 0 then Some([])
    else if |data| == 0 || |data[0]| <= boneAt || |data[0]| <= kindAt then None
    else match (SetIndex(data[0][boneAt]), SetIndex(data[0][kindAt]), Restore(rows[1..], data[1..], boneAt, kindAt))
      case (Some(b), Some(k), Some(rest)) => Some([rows[0].(bone := b, kind := k)] + rest)
      case _ => None
  }

  /** The restore as written: the bone index is read from the label
      column and the type from the bone column. */
  function RestoreAsWritten(rows: seq<Choice>, data: seq<seq<Cell>>): (r: Option<seq<Choice>>)
    ensures r.Some? ==> |r.value| == |rows|
  {
    Restore(rows, data, 0, 1)
  }

  /** The restore reading the columns the cache was written with. */
  function RestoreChoices(rows: seq<Choice>, data: seq<seq<Cell>>): (r: Option<seq<Choice>>)
    ensures r.Some? ==> |r.value| == |rows|
  {
    Restore(rows, data, 1, 2)
  }

  /** As written, coming back to a node with any control point raises:
      its first cached cell is the label text. */
  lemma {:induction false} RestoreAsWrittenRaises(rows: seq<Choice>, saved: seq<Choice>)
    requires |rows| > 0
    ensures RestoreAsWritten(rows, Save(saved)) == None
  {
    var data := Save(saved);
    if |data| > 0 {
      assert data[0][0] == Text(saved[0].name);
    }
  }

  /** Saving the choices and restoring them onto the rebuilt rows of the
      same control points gives the saved choices back. */
  lemma {:induction false} RestoreRoundTrip(rows: seq<Choice>, saved: seq<Choice>)
    requires |rows| == |saved|
    requires forall i :: 0 <= i < |rows| ==> rows[i].name == saved[i].name
    ensures RestoreChoices(rows, Save(saved)) == Some(saved)
    decreases |rows|
  {
    if |rows| > 0 {
      RestoreRoundTrip(rows[1..], saved[1..]);
      assert Save(saved)[1..] == Save(saved[1..]);
      assert [saved[0]] + saved[1..] == saved;
    }
  }

  /** One point with its bone set to 1 (Metacarpal): the restore as
      written raises, the corrected one brings the choice back. */
  lemma RestoreExample()
    ensures RestoreAsWritten([Choice("F-1", 0, 0)], Save([Choice("F-1", 1, 0)])) == None
    ensures RestoreChoices([Choice("F-1", 0, 0)], Save([Choice("F-1", 1, 0)])) == Some([Choice("F-1", 1, 0)])
  {
    RestoreAsWrittenRaises([Choice("F-1", 0, 0)], [Choice("F-1", 1, 0)]);
    RestoreRoundTrip([Choice("F-1", 0, 0)], [Choice("F-1", 1, 0)]);
  }
}
