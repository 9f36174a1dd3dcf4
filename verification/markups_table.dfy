/** MarkupsTable (erosion detection): the table of seed points beside the
    viewer. Each row shows a control point's label and its position in
    ITK coordinates, which differ from Slicer's RAS coordinates by the sign
    of x and y and by the spacing scale. Editing a cell moves the point;
    the context menu deletes the highlighted rows or swaps the current row
    with a neighbour. The markups node enters as the sequence of its
    control points. */
module MarkupsTable {
  import opened Wrappers
  import PyFloat
  import ErosionVolumeLogic

  type Point = ErosionVolumeLogic.Point

  /** rasToITKCoord: x and y change sign and every axis is divided by the
      spacing scale; a zero scale raises ZeroDivisionError (None). */
  function RasToItk(p: Point, scale: real): (r: Option<Point>)
    ensures r.None? <==> scale == 0.0
    ensures r.Some? ==> r.value.x * scale == -p.x && r.value.y * scale == -p.y && r.value.z * scale == p.z
  {
    if scale == 0.0 then None
    else Some(ErosionVolumeLogic.Point(-p.x / scale, -p.y / scale, p.z / scale))
  }

  /** ITKToRasCoord: x and y change sign and every axis is multiplied by
      the spacing scale. For a nonzero scale it undoes RasToItk. */
  function ItkToRas(p: Point, scale: real): (r: Point)
    ensures scale != 0.0 ==> RasToItk(r, scale) == Some(p)
  {
    var r := ErosionVolumeLogic.Point(-p.x * scale, -p.y * scale, p.z * scale);
    if scale != 0.0 then
      assert -r.x / scale == p.x && -r.y / scale == p.y && r.z / scale == p.z;
      r
    else r
  }

  /** RAS to ITK and back is the identity for a nonzero scale. */
  lemma CoordRoundTrip(p: Point, scale: real)
    requires scale != 0.0
    ensures ItkToRas(RasToItk(p, scale).value, scale) == p
  {
    var q := RasToItk(p, scale).value;
    assert q.x * scale == -p.x && q.y * scale == -p.y && q.z * scale == p.z;
  }

  const LabelColumn := 0
  const XColumn := 1
  const YColumn := 2
  const ZColumn := 3

  /** The number typed into a coordinate cell: float(text), or 0.000 when
      float raises ValueError. */
  function CellValue(text: string): (v: real)
    ensures PyFloat.Parse(text).None? ==> v == 0.0
    ensures PyFloat.Parse(text).Some? ==> v == PyFloat.Parse(text).value
  {
    match PyFloat.Parse(text)
    case Some(v) => v
    case None => 0.0
  }

  datatype ControlPoint = ControlPoint(name: string, pos: Point)

  /** The axis of column x, y or z set to v; any other column changes
      nothing. */
  function SetAxis(p: Point, column: int, xColumn: int, yColumn: int, zColumn: int, v: real): Point {
    if column == xColumn then p.(x := v)
    else if column == yColumn then p.(y := v)
    else if column == zColumn then p.(z := v)
    else p
  }

  /** onMarkupsControlPointEdited on the edited row's control point. The
      label column renames the point. Another column reads the point in
      ITK coordinates, replaces the edited axis by the cell's number and
      writes the point back; the label stays. A zero spacing scale raises
      (None). In ITK coordinates only the edited axis changes, and a column
      that is no axis leaves the point where it was. */
  function Edit(cp: ControlPoint, column: int, text: string, scale: real): (r: Option<ControlPoint>)
    ensures column == LabelColumn ==> r == Some(cp.(name := text))
    ensures column != LabelColumn ==> (r.None? <==> scale == 0.0)
    ensures column != LabelColumn && r.Some? ==>
      var before := RasToItk(cp.pos, scale).value;
      var after := RasToItk(r.value.pos, scale).value;
      r.value.name == cp.name &&
      after.x == (if column == XColumn then CellValue(text) else before.x) &&
      after.y == (if column == YColumn then CellValue(text) else before.y) &&
      after.z == (if column == ZColumn then CellValue(text) else before.z)
    ensures r.Some? && column !in {LabelColumn, XColumn, YColumn, ZColumn} ==> r.value == cp
  {
    if column == LabelColumn then Some(cp.(name := text))
    else match RasToItk(cp.pos, scale)
      case None => None
      case Some(itk) =>
        var moved := SetAxis(itk, column, XColumn, YColumn, ZColumn, CellValue(text));
        CoordRoundTrip(cp.pos, scale);
        Some(cp.(pos := ItkToRas(moved, scale)))
  }

  /** The row at the given index edited in place; the other rows stay. */
  function EditRow(points: seq<ControlPoint>, row: int, column: int, text: string, scale: real): (r: Option<seq<ControlPoint>>)
    requires 0 <= row < |points|
    ensures r.None? <==> Edit(points[row], column, text, scale).None?
    ensures r.Some? ==> |r.value| == |points| && r.value[row] == Edit(points[row], column, text, scale).value
    ensures r.Some? ==> forall i :: 0 <= i < |points| && i != row ==> r.value[i] == points[i]
  {
    match Edit(points[row], column, text, scale)
    case None => None
    case Some(cp) => Some(points[row := cp])
  }

  /** The entries of s whose index, counted from start, is not selected. */
  function Kept<T>(s: seq<T>, selected: set<int>, start: int): (r: seq<T>)
    ensures |r| <= |s|
  {
    if |s| == 0 then []
    else (if start in selected then [] else [s[0]]) + Kept(s[1..], selected, start + 1)
  }

  /** The row indices below n that the selection intersects, in ascending
      order: the loop that collects the rows to delete. */
  function SelectedRows(n: nat, selected: set<int>): (r: seq<int>)
    ensures Increasing(r)
    ensures forall k :: 0 <= k < |r| ==> 0 <= r[k] < n
    ensures forall i :: i in r <==> 0 <= i < n && i in selected
  {
    if n == 0 then []
    else SelectedRows(n - 1, selected) + (if n - 1 in selected then [n - 1] else [])
  }

  predicate Increasing(r: seq<int>) {
    forall a, b :: 0 <= a < b < |r| ==> r[a] < r[b]
  }

  /** RemoveNthControlPoint. */
  function RemoveAt<T>(s: seq<T>, i: int): (r: seq<T>)
    requires 0 <= i < |s|
    ensures |r| == |s| - 1
  {
    s[..i] + s[i + 1..]
  }

  /** The removal loop: the collected rows from the last one down, so
      every index still names the row it named before the first removal. */
  function DeleteDescending<T>(s: seq<T>, rows: seq<int>): (r: seq<T>)
    requires Increasing(rows)
    requires forall k :: 0 <= k < |rows| ==> 0 <= rows[k] < |s|
    ensures |r| == |s| - |rows|
    decreases |rows|
  {
    if |rows| == 0 then s
    else
      var last := rows[|rows| - 1];
      DeleteDescending(RemoveAt(s, last), rows[..|rows| - 1])
  }

  /** The rows a list names. */
  function Listed(rows: seq<int>): set<int> {
    set k | 0 <= k < |rows| :: rows[k]
  }

  /** Deleting the highlighted control points: collect the selected rows
      ascending, then remove them in descending order. */
  function DeleteSelected<T>(s: seq<T>, selected: set<int>): (r: seq<T>)
  {
    DeleteDescending(s, SelectedRows(|s|, selected))
  }

  /** Removing in descending order deletes exactly the listed rows: what
      is left is the unlisted points in their order. */
  lemma {:induction false} DeleteDescendingKeeps<T>(s: seq<T>, rows: seq<int>)
    requires Increasing(rows)
    requires forall k :: 0 <= k < |rows| ==> 0 <= rows[k] < |s|
    ensures DeleteDescending(s, rows) == Kept(s, Listed(rows), 0)
    decreases |rows|
  {
    if |rows| > 0 {
      var last := rows[|rows| - 1];
      var init := rows[..|rows| - 1];
      assert DeleteDescending(s, rows) == DeleteDescending(RemoveAt(s, last), init);
      DeleteDescendingKeeps(RemoveAt(s, last), init);
      var before := Listed(init);
      forall j | j in before
        ensures j < last
      {
        var k :| 0 <= k < |init| && init[k] == j;
        assert rows[k] == j;
      }
      RemoveKept(s, last, before);
      assert Listed(rows) == before + {last} by {
        forall j | j in before + {last}
          ensures j in Listed(rows)
        {
          if j in before {
            var k :| 0 <= k < |init| && init[k] == j;
            assert rows[k] == j;
          } else {
            assert rows[|rows| - 1] == j;
          }
        }
      }
    } else {
      KeptNone(s, Listed(rows), 0);
    }
  }

  /** The selection deletes exactly the selected points and keeps the
      others in order. */
  lemma DeleteSelectedKeeps<T>(s: seq<T>, selected: set<int>)
    ensures DeleteSelected(s, selected) == Kept(s, selected, 0)
  {
    var rows := SelectedRows(|s|, selected);
    DeleteDescendingKeeps(s, rows);
    var listed := Listed(rows);
    forall j | 0 <= j < |s|
      ensures j in listed <==> j in selected
    {
      if j in selected {
        assert j in rows;
        var k :| 0 <= k < |rows| && rows[k] == j;
      }
    }
    KeptSame(s, listed, selected, 0);
  }

  /** Removing row i, below which every listed row lies, is deleting it
      along with them. */
  lemma RemoveKept<T>(s: seq<T>, i: int, before: set<int>)
    requires 0 <= i < |s|
    requires forall j :: j in before ==> j < i
    ensures Kept(RemoveAt(s, i), before, 0) == Kept(s, before + {i}, 0)
  {
    var head := s[..i];
    var tail := s[i + 1..];
    assert s == head + ([s[i]] + tail);
    KeptAppend(head, tail, before, 0);
    KeptNone(tail, before, i);
    KeptAppend(head, [s[i]] + tail, before + {i}, 0);
    KeptSame(head, before + {i}, before, 0);
    assert Kept([s[i]] + tail, before + {i}, i) == Kept(tail, before + {i}, i + 1) by {
      assert ([s[i]] + tail)[1..] == tail;
    }
    KeptNone(tail, before + {i}, i + 1);
  }

  lemma {:induction false} KeptAppend<T>(a: seq<T>, b: seq<T>, selected: set<int>, start: int)
    ensures Kept(a + b, selected, start) == Kept(a, selected, start) + Kept(b, selected, start + |a|)
    decreases |a|
  {
    if |a| > 0 {
      assert (a + b)[1..] == a[1..] + b;
      KeptAppend(a[1..], b, selected, start + 1);
    } else {
      assert a + b == b;
    }
  }

  lemma {:induction false} KeptNone<T>(t: seq<T>, selected: set<int>, start: int)
    requires forall j :: j in selected ==> j < start
    ensures Kept(t, selected, start) == t
    decreases |t|
  {
    if |t| > 0 {
      KeptNone(t[1..], selected, start + 1);
      assert [t[0]] + t[1..] == t;
    }
  }

  lemma {:induction false} KeptSame<T>(t: seq<T>, a: set<int>, b: set<int>, start: int)
    requires forall j :: start <= j < start + |t| ==> (j in a <==> j in b)
    ensures Kept(t, a, start) == Kept(t, b, start)
    decreases |t|
  {
    if |t| > 0 {
      KeptSame(t[1..], a, b, start + 1);
    }
  }

  /** SwapControlPoints. */
  function Swap<T>(s: seq<T>, i: int, j: int): (r: seq<T>)
    requires 0 <= i < |s| && 0 <= j < |s|
    ensures |r| == |s| && r[i] == s[j] && r[j] == s[i]
    ensures forall k :: 0 <= k < |s| && k != i && k != j ==> r[k] == s[k]
    ensures multiset(r) == multiset(s)
  {
    s[i := s[j]][j := s[i]]
  }

  /** "Move current control point up": the current row swaps with the one
      above, and the first row stays where it is. */
  function MoveUp<T>(s: seq<T>, row: int): (r: seq<T>)
    requires 0 <= row < |s|
    ensures |r| == |s| && multiset(r) == multiset(s)
    ensures row == 0 ==> r == s
    ensures row > 0 ==> r[row - 1] == s[row] && r[row] == s[row - 1]
    ensures forall k :: 0 <= k < |s| && k != row && k != row - 1 ==> r[k] == s[k]
  {
    if row > 0 then Swap(s, row, row - 1) else s
  }

  /** "Move current control point down": the current row swaps with the one
      below, and the last row stays where it is. */
  function MoveDown<T>(s: seq<T>, row: int): (r: seq<T>)
    requires 0 <= row < |s|
    ensures |r| == |s| && multiset(r) == multiset(s)
    ensures row == |s| - 1 ==> r == s
    ensures row < |s| - 1 ==> r[row + 1] == s[row] && r[row] == s[row + 1]
    ensures forall k :: 0 <= k < |s| && k != row && k != row + 1 ==> r[k] == s[k]
  {
    if row < |s| - 1 then Swap(s, row, row + 1) else s
  }

  /** Moving a point up and then down again from its new row restores the
      table, and so does down then up. */
  lemma MovesUndo<T>(s: seq<T>, row: int)
    requires 0 <= row < |s|
    ensures row > 0 ==> MoveDown(MoveUp(s, row), row - 1) == s
    ensures row < |s| - 1 ==> MoveUp(MoveDown(s, row), row + 1) == s
  {
    if row > 0 {
      UpThenDown(s, row);
    }
    if row < |s| - 1 {
      DownThenUp(s, row);
    }
  }

  lemma UpThenDown<T>(s: seq<T>, row: int)
    requires 0 < row < |s|
    ensures MoveDown(MoveUp(s, row), row - 1) == s
  {
    var up := MoveUp(s, row);
    var back := MoveDown(up, row - 1);
    forall k | 0 <= k < |s|
      ensures back[k] == s[k]
    {
      if k != row && k != row - 1 {
        assert back[k] == up[k];
      }
    }
  }

  lemma DownThenUp<T>(s: seq<T>, row: int)
    requires 0 <= row < |s| - 1
    ensures MoveUp(MoveDown(s, row), row + 1) == s
  {
    var down := MoveDown(s, row);
    var back := MoveUp(down, row + 1);
    forall k | 0 <= k < |s|
      ensures back[k] == s[k]
    {
      if k != row && k != row + 1 {
        assert back[k] == down[k];
      }
    }
  }
}
