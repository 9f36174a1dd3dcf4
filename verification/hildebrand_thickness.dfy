/** hildebrand_thickness: local thickness by Hildebrand's sphere fitting.
    Every mask voxel is the centre of a ball whose squared radius is the
    voxel's squared distance to the background; the balls are visited in
    ascending order and each writes its diameter into the voxels it holds,
    so a voxel ends with the diameter of the largest ball holding it. The
    fill keeps the squared radius rd of that ball; the diameter 2 * sqrt(rd)
    is a strictly increasing function of rd, so "largest ball" means the
    same in either, and it is applied to the filled field afterwards (see
    Diameters). The squared distance map is a SimpleITK filter and enters
    as a given field. */
module HildebrandThickness {
  import opened Wrappers
  import opened Volumes

  /** The voxel_width argument: a number, an iterable, or anything else. */
  datatype WidthArg = Number(w: real) | Items(ws: seq<real>) | Other

  type Width = (real, real, real)

  /** The voxel_width check: a number is used on every axis, an iterable
      must hold three widths, anything else is a ValueError (None). */
  function VoxelWidths(arg: WidthArg): (r: Option<Width>)
    ensures r.None? <==> arg.Other? || (arg.Items? && |arg.ws| != 3)
    ensures arg.Number? ==> r == Some((arg.w, arg.w, arg.w))
    ensures arg.Items? && |arg.ws| == 3 ==> r == Some((arg.ws[0], arg.ws[1], arg.ws[2]))
  {
    match arg
    case Number(w) => Some((w, w, w))
    case Items(ws) => if |ws| != 3 then None else Some((ws[0], ws[1], ws[2]))
    case Other => None
  }

  /** A ball of the distance ridge: squared radius and centre voxel. */
  datatype Ball = Ball(rd: real, c: Idx)

  function Sq(a: real): real {
    a * a
  }

  /** The voxel v lies strictly inside the ball, distances scaled by the
      voxel widths. */
  predicate InBall(b: Ball, w: Width, v: Idx) {
    Sq(w.0 * (v.x - b.c.x) as real) + Sq(w.1 * (v.y - b.c.y) as real) + Sq(w.2 * (v.z - b.c.z) as real) < b.rd
  }

  /** Ball k holds v and no later ball does. */
  predicate LastHolding(balls: seq<Ball>, inside: (Ball, Idx) -> bool, v: Idx, k: int) {
    0 <= k < |balls| && inside(balls[k], v) &&
    forall m :: k < m < |balls| ==> !inside(balls[m], v)
  }

  /** compute_local_thickness_from_sorted_distances on a field of zeros,
      for a given test of which voxels a ball holds: each ball in turn
      overwrites the voxels it holds. */
  function Fill(balls: seq<Ball>, keys: set<Idx>, inside: (Ball, Idx) -> bool): (r: Field)
    ensures r.Keys == keys
  {
    if |balls| == 0 then map v | v in keys :: 0.0
    else
      var prev := Fill(balls[..|balls| - 1], keys, inside);
      var b := balls[|balls| - 1];
      map v | v in keys :: if inside(b, v) then b.rd else prev[v]
  }

  /** A voxel held by no ball stays 0. */
  lemma {:induction false} FillUnheld(balls: seq<Ball>, keys: set<Idx>, inside: (Ball, Idx) -> bool, v: Idx)
    requires v in keys && forall k :: 0 <= k < |balls| ==> !inside(balls[k], v)
    ensures Fill(balls, keys, inside)[v] == 0.0
  {
    if |balls| > 0 {
      var n := |balls| - 1;
      forall k | 0 <= k < n ensures !inside(balls[..n][k], v) {
        assert balls[..n][k] == balls[k];
      }
      FillUnheld(balls[..n], keys, inside, v);
    }
  }

  /** A voxel held by some ball ends with the value of the last ball
      holding it. */
  lemma {:induction false} FillLastHolding(balls: seq<Ball>, keys: set<Idx>, inside: (Ball, Idx) -> bool, v: Idx, j: int)
    requires v in keys && 0 <= j < |balls| && inside(balls[j], v)
    ensures exists k :: LastHolding(balls, inside, v, k) && Fill(balls, keys, inside)[v] == balls[k].rd
  {
    var n := |balls| - 1;
    var r := Fill(balls, keys, inside);
    if inside(balls[n], v) {
      assert LastHolding(balls, inside, v, n) && r[v] == balls[n].rd;
    } else {
      assert inside(balls[..n][j], v);
      FillLastHolding(balls[..n], keys, inside, v, j);
      var k :| LastHolding(balls[..n], inside, v, k) && Fill(balls[..n], keys, inside)[v] == balls[..n][k].rd;
      assert LastHolding(balls, inside, v, k) && r[v] == balls[k].rd;
    }
  }

  predicate Ascending(balls: seq<Ball>) {
    forall p, q :: 0 <= p < q < |balls| ==> balls[p].rd <= balls[q].rd
  }

  /** With the balls in ascending order, every voxel ends with the largest
      squared radius among the balls holding it. */
  lemma AscendingKeepsLargest(balls: seq<Ball>, keys: set<Idx>, inside: (Ball, Idx) -> bool, v: Idx, k: int)
    requires Ascending(balls) && v in keys && 0 <= k < |balls| && inside(balls[k], v)
    ensures balls[k].rd <= Fill(balls, keys, inside)[v]
  {
    FillLastHolding(balls, keys, inside, v, k);
    var r := Fill(balls, keys, inside);
    var j :| LastHolding(balls, inside, v, j) && r[v] == balls[j].rd;
  }

  /** The test of the source: squared scaled distance below rd. */
  function Holds(w: Width): (Ball, Idx) -> bool {
    (b, v) => InBall(b, w, v)
  }

  /** Out of order, a small ball after a large one overwrites it: the sort
      is what makes the field hold the largest ball. */
  lemma OrderMatters()
    ensures Fill([Ball(4.0, Idx(0, 0, 0)), Ball(1.0, Idx(0, 0, 0))], {Idx(0, 0, 0)}, Holds((1.0, 1.0, 1.0)))[Idx(0, 0, 0)] == 1.0
    ensures Fill([Ball(1.0, Idx(0, 0, 0)), Ball(4.0, Idx(0, 0, 0))], {Idx(0, 0, 0)}, Holds((1.0, 1.0, 1.0)))[Idx(0, 0, 0)] == 4.0
  {
    var big, small := Ball(4.0, Idx(0, 0, 0)), Ball(1.0, Idx(0, 0, 0));
    assert [big, small][..1] == [big] && [big][..0] == [];
    assert [small, big][..1] == [small] && [small][..0] == [];
  }

  /** The voxels of a mask above 0. */
  function Positive(mask: Volume): set<Idx> {
    set v | v in mask && mask[v] > 0
  }

  /** balls is the sorted distance ridge of the mask: one ball per mask
      voxel, centred there with the squared distance as its squared
      radius, in ascending order. */
  predicate RidgeOf(balls: seq<Ball>, mask: Volume, dist: Field) {
    mask.Keys == dist.Keys && Ascending(balls) &&
    (forall k :: 0 <= k < |balls| ==> balls[k].c in Positive(mask) && balls[k].rd == dist[balls[k].c]) &&
    (forall v :: v in Positive(mask) ==> exists k :: 0 <= k < |balls| && balls[k].c == v)
  }

  function Zeros(keys: set<Idx>): (r: Field)
    ensures r.Keys == keys && forall v :: v in r ==> r[v] == 0.0
  {
    map v | v in keys :: 0.0
  }

  /** compute_local_thickness_from_mask after the width check: an empty
      mask gives zeros; otherwise the filled field multiplied by the mask.
      The field is 0 off the mask, and on it holds the largest squared
      radius of the ridge balls holding the voxel. */
  function LocalThickness(mask: Volume, dist: Field, balls: seq<Ball>, w: Width): (r: Field)
    requires RidgeOf(balls, mask, dist)
    ensures r.Keys == mask.Keys
    ensures Positive(mask) == {} ==> r == Zeros(mask.Keys)
    ensures forall v :: v in mask && v !in Positive(mask) ==> r[v] == 0.0
    ensures forall v, k :: v in Positive(mask) && 0 <= k < |balls| && InBall(balls[k], w, v) ==> balls[k].rd <= r[v]
    ensures forall v :: v in Positive(mask) && r[v] != 0.0 ==> exists k :: 0 <= k < |balls| && InBall(balls[k], w, v) && r[v] == balls[k].rd
  {
    var pos := Positive(mask);
    if pos == {} then Zeros(mask.Keys)
    else
      var filled := Fill(balls, mask.Keys, Holds(w));
      var r := map v | v in mask :: if v in pos then filled[v] else 0.0;
      assert forall v, k :: v in pos && 0 <= k < |balls| && InBall(balls[k], w, v) ==> balls[k].rd <= r[v] by {
        forall v, k | v in pos && 0 <= k < |balls| && InBall(balls[k], w, v)
          ensures balls[k].rd <= r[v]
        {
          assert Holds(w)(balls[k], v);
          AscendingKeepsLargest(balls, mask.Keys, Holds(w), v, k);
        }
      }
      assert forall v :: v in pos && r[v] != 0.0 ==> exists k :: 0 <= k < |balls| && InBall(balls[k], w, v) && r[v] == balls[k].rd by {
        forall v | v in pos && r[v] != 0.0
          ensures exists k :: 0 <= k < |balls| && InBall(balls[k], w, v) && r[v] == balls[k].rd
        {
          if forall j :: 0 <= j < |balls| ==> !Holds(w)(balls[j], v) {
            FillUnheld(balls, mask.Keys, Holds(w), v);
          }
          var j :| 0 <= j < |balls| && Holds(w)(balls[j], v);
          FillLastHolding(balls, mask.Keys, Holds(w), v, j);
          var k :| LastHolding(balls, Holds(w), v, k) && filled[v] == balls[k].rd;
          assert InBall(balls[k], w, v);
        }
      }
      r
  }

  function SeqMin(s: seq<real>): (r: real)
    requires |s| > 0
    ensures forall k :: 0 <= k < |s| ==> r <= s[k]
    ensures exists k :: 0 <= k < |s| && s[k] == r
  {
    if |s| == 1 then s[0]
    else
      var m := SeqMin(s[1..]);
      assert forall k :: 1 <= k < |s| ==> s[k] == s[1..][k - 1];
      if s[0] <= m then s[0] else m
  }

  function SeqMax(s: seq<real>): (r: real)
    requires |s| > 0
    ensures forall k :: 0 <= k < |s| ==> s[k] <= r
    ensures exists k :: 0 <= k < |s| && s[k] == r
  {
    if |s| == 1 then s[0]
    else
      var m := SeqMax(s[1..]);
      assert forall k :: 1 <= k < |s| ==> s[k] == s[1..][k - 1];
      if s[0] >= m then s[0] else m
  }

  function SeqSum(s: seq<real>): real {
    if |s| == 0 then 0.0 else s[0] + SeqSum(s[1..])
  }

  /** Every value between lo and hi puts the sum between n*lo and n*hi. */
  lemma {:induction false} SumBounds(s: seq<real>, lo: real, hi: real)
    requires forall k :: 0 <= k < |s| ==> lo <= s[k] <= hi
    ensures |s| as real * lo <= SeqSum(s) <= |s| as real * hi
  {
    if |s| > 0 {
      assert forall k :: 0 <= k < |s| - 1 ==> s[1..][k] == s[k + 1];
      SumBounds(s[1..], lo, hi);
      var n := |s| as real;
      var rest := SeqSum(s[1..]);
      assert |s[1..]| as real == n - 1.0;
      assert (n - 1.0) * lo <= rest <= (n - 1.0) * hi;
      assert SeqSum(s) == s[0] + rest && lo <= s[0] <= hi;
      assert (n - 1.0) * lo + lo == n * lo && (n - 1.0) * hi + hi == n * hi;
    }
  }

  /** The arithmetic mean of values between lo and hi lies between them. */
  lemma MeanBetween(s: seq<real>, lo: real, hi: real)
    requires |s| > 0 && forall k :: 0 <= k < |s| ==> lo <= s[k] <= hi
    ensures lo <= SeqSum(s) / |s| as real <= hi
  {
    SumBounds(s, lo, hi);
    DivBounds(SeqSum(s), |s|, lo, hi);
  }

  lemma DivBounds(sum: real, n: nat, lo: real, hi: real)
    requires n > 0 && n as real * lo <= sum <= n as real * hi
    ensures lo <= sum / n as real <= hi
  {
    var m := n as real;
    var mean := sum / m;
    assert mean * m == sum;
  }

  /** order lists the voxels of s once each (numpy's boolean indexing, in
      C order). */
  predicate Lists(order: seq<Idx>, s: set<Idx>) {
    (forall k :: 0 <= k < |order| ==> order[k] in s) &&
    (forall v :: v in s ==> exists k :: 0 <= k < |order| && order[k] == v) &&
    (forall p, q :: 0 <= p < q < |order| ==> order[p] != order[q])
  }

  /** The result of calc_structure_thickness_statistics: four Nones with a
      zeros field, a ValueError, or the mean, minimum and maximum of the
      sampled thickness with the whole field. */
  datatype Stats = NoStructure(field: Field) | Raises | Stats(mean: real, minimum: real, maximum: real, field: Field)

  function Clamp(x: real, lo: real): real {
    if x < lo then lo else x
  }

  /** The statistics of a nonempty sample: mean, minimum and maximum. */
  function Summary(values: seq<real>, field: Field): (r: Stats)
    requires |values| > 0
    ensures r.Stats? && r.field == field
    ensures r.minimum <= r.mean <= r.maximum
    ensures StatsOf(r, values)
  {
    SummaryFacts(values, field);
    Stats(SeqSum(values) / |values| as real, SeqMin(values), SeqMax(values), field)
  }

  lemma SummaryFacts(values: seq<real>, field: Field)
    requires |values| > 0
    ensures var r := Stats(SeqSum(values) / |values| as real, SeqMin(values), SeqMax(values), field);
      r.minimum <= r.mean <= r.maximum && StatsOf(r, values)
  {
    MeanBetween(values, SeqMin(values), SeqMax(values));
  }

  /** The thickness field written by the source: each squared radius rd
      replaced by its diameter. diameter stands for rd |-> 2 * sqrt(rd),
      which Dafny's reals cannot compute; it maps 0 to 0, so the voxels no
      ball holds stay 0. */
  function Diameters(field: Field, diameter: real -> real): (r: Field)
    ensures r.Keys == field.Keys
    ensures forall v :: v in field ==> r[v] == diameter(field[v])
  {
    map v | v in field :: diameter(field[v])
  }

  /** The field at the listed voxels, each value raised to minThickness
      (np.maximum of the boolean-indexed field). */
  function Sample(field: Field, order: seq<Idx>, minThickness: real): (r: seq<real>)
    requires forall k :: 0 <= k < |order| ==> order[k] in field
    ensures |r| == |order|
    ensures forall k :: 0 <= k < |order| ==> r[k] == Clamp(field[order[k]], minThickness) && minThickness <= r[k]
  {
    seq(|order|, k requires 0 <= k < |order| => Clamp(field[order[k]], minThickness))
  }

  /** The field sampled at the listed voxels, each value raised to
      minThickness, and summarised: the mean is the sample's sum over its
      size, and the minimum and maximum are sample values bounding it. */
  function SampleStats(field: Field, order: seq<Idx>, minThickness: real): (r: Stats)
    requires |order| > 0 && forall k :: 0 <= k < |order| ==> order[k] in field
    ensures r.Stats? && r.field == field
    ensures minThickness <= r.minimum <= r.mean <= r.maximum
    ensures StatsOf(r, Sample(field, order, minThickness))
  {
    var values := Sample(field, order, minThickness);
    var r := Summary(values, field);
    assert minThickness <= r.minimum by {
      assert minThickness <= values[0];
    }
    r
  }

  /** r holds the mean, minimum and maximum of the nonempty sample. */
  predicate StatsOf(r: Stats, values: seq<real>) {
    r.Stats? && |values| > 0 &&
    r.mean == SeqSum(values) / |values| as real &&
    (forall k :: 0 <= k < |values| ==> r.minimum <= values[k] <= r.maximum) &&
    (exists k :: 0 <= k < |values| && values[k] == r.minimum) &&
    (exists k :: 0 <= k < |values| && values[k] == r.maximum)
  }

  /** calc_structure_thickness_statistics: an empty mask gives no
      statistics before the width is checked; a bad width raises; an empty
      sub_mask gives no statistics before the shapes are compared; a
      sub_mask of another shape raises. Otherwise the diameter field is
      sampled on the sub_mask (or the mask), each value raised to
      min_thickness, and summarised. */
  function StructureStats(mask: Volume, width: WidthArg, minThickness: real, subMask: Option<Volume>,
                          dist: Field, balls: seq<Ball>, order: seq<Idx>, diameter: real -> real): (r: Stats)
    requires RidgeOf(balls, mask, dist)
    requires Lists(order, if subMask.Some? then Positive(subMask.value) else Positive(mask))
    ensures Positive(mask) == {} ==> r == NoStructure(Zeros(mask.Keys))
    ensures Positive(mask) != {} && VoxelWidths(width).None? ==> r.Raises?
    ensures Positive(mask) != {} && VoxelWidths(width).Some? && subMask.Some? && Positive(subMask.value) == {} ==>
      r == NoStructure(Zeros(mask.Keys))
    ensures (Positive(mask) != {} && VoxelWidths(width).Some? && subMask.Some? && Positive(subMask.value) != {} &&
      subMask.value.Keys != mask.Keys) ==> r.Raises?
    ensures r.Stats? <==> (Positive(mask) != {} && VoxelWidths(width).Some? &&
      (subMask.None? || (Positive(subMask.value) != {} && subMask.value.Keys == mask.Keys)))
    ensures r.Stats? ==> r.field == Diameters(LocalThickness(mask, dist, balls, VoxelWidths(width).value), diameter)
    ensures r.Stats? ==> minThickness <= r.minimum <= r.mean <= r.maximum
    ensures r.Stats? ==> StatsOf(r, Sample(r.field, order, minThickness))
  {
    if Positive(mask) == {} then NoStructure(Zeros(mask.Keys))
    else match VoxelWidths(width)
    case None => Raises
    case Some(w) =>
      if subMask.Some? && Positive(subMask.value) == {} then NoStructure(Zeros(mask.Keys))
      else if subMask.Some? && subMask.value.Keys != mask.Keys then Raises
      else
        var field := Diameters(LocalThickness(mask, dist, balls, w), diameter);
        assert |order| > 0 by {
          var s := if subMask.Some? then Positive(subMask.value) else Positive(mask);
          var v :| v in s;
        }
        SampleStats(field, order, minThickness)
  }
}
