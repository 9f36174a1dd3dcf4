/** Flood fill and connected components over a finite set of voxels.

    SimpleITK's ConnectedThreshold (region growing from seeds through voxels
    whose value lies in a range) and ConnectedComponent / RelabelComponent
    (labelling, with a minimum object size) are stated through one closure:
    the least set that contains the seeds and is closed under adjacency
    inside the allowed voxels. */
module Connectivity {
  import opened Volumes

  /** Face: the 6 face neighbours (SimpleITK's default). Full: all 26
      neighbours (`fullyConnected=True`). InPlane: the 4 face neighbours in
      the same z slice, used for slice-by-slice filling. */
  datatype Neighbourhood = Face | Full | InPlane

  function Abs(n: int): nat {
    if n < 0 then -n else n
  }

  predicate Adjacent(nb: Neighbourhood, i: Idx, j: Idx) {
    var dx, dy, dz := Abs(i.x - j.x), Abs(i.y - j.y), Abs(i.z - j.z);
    match nb
    case Face => dx + dy + dz == 1
    case Full => dx <= 1 && dy <= 1 && dz <= 1 && dx + dy + dz > 0
    case InPlane => dz == 0 && dx + dy == 1
  }

  lemma AdjacentSymmetric(nb: Neighbourhood, i: Idx, j: Idx)
    ensures Adjacent(nb, i, j) <==> Adjacent(nb, j, i)
  {
  }

  /** Nothing adjacent to a voxel of s inside `allowed` lies outside s. */
  predicate Closed(nb: Neighbourhood, allowed: set<Idx>, s: set<Idx>) {
    forall i, j :: i in s && j in allowed && Adjacent(nb, i, j) ==> j in s
  }

  function Neighbours(nb: Neighbourhood, allowed: set<Idx>, cur: set<Idx>): set<Idx> {
    set i, j | i in cur && j in allowed && Adjacent(nb, i, j) :: j
  }

  lemma ProperSubsetSmaller(a: set<Idx>, b: set<Idx>)
    requires a < b
    ensures |a| < |b|
  {
    var extra := b - a;
    assert b == a + extra;
    assert extra != {};
  }

  function Close(nb: Neighbourhood, allowed: set<Idx>, cur: set<Idx>): (r: set<Idx>)
    requires cur <= allowed
    ensures cur <= r <= allowed
    ensures Closed(nb, allowed, r)
    decreases |allowed - cur|
  {
    var next := cur + Neighbours(nb, allowed, cur);
    if next == cur then
      cur
    else
      ProperSubsetSmaller(allowed - next, allowed - cur);
      Close(nb, allowed, next)
  }

  /** The voxels of `allowed` reachable from a seed through `allowed`. */
  function Flood(nb: Neighbourhood, allowed: set<Idx>, seeds: set<Idx>): (r: set<Idx>)
    ensures seeds * allowed <= r <= allowed
    ensures Closed(nb, allowed, r)
  {
    Close(nb, allowed, seeds * allowed)
  }

  lemma {:induction false} CloseLeast(nb: Neighbourhood, allowed: set<Idx>, cur: set<Idx>, s: set<Idx>)
    requires cur <= allowed && cur <= s
    requires Closed(nb, allowed, s)
    ensures Close(nb, allowed, cur) <= s
    decreases |allowed - cur|
  {
    var next := cur + Neighbours(nb, allowed, cur);
    if next != cur {
      ProperSubsetSmaller(allowed - next, allowed - cur);
      CloseLeast(nb, allowed, next, s);
    }
  }

  /** Flood is the LEAST closed set holding the allowed seeds: every set
      that holds them and is closed under adjacency contains the flood. */
  lemma FloodLeast(nb: Neighbourhood, allowed: set<Idx>, seeds: set<Idx>, s: set<Idx>)
    requires seeds * allowed <= s
    requires Closed(nb, allowed, s)
    ensures Flood(nb, allowed, seeds) <= s
  {
    CloseLeast(nb, allowed, seeds * allowed, s);
  }

  lemma FloodMonotone(nb: Neighbourhood, allowed: set<Idx>, seeds: set<Idx>, more: set<Idx>)
    requires seeds <= more
    ensures Flood(nb, allowed, seeds) <= Flood(nb, allowed, more)
  {
    FloodLeast(nb, allowed, seeds, Flood(nb, allowed, more));
  }

  /** The connected component of voxel i inside the object s. */
  function Component(nb: Neighbourhood, s: set<Idx>, i: Idx): (r: set<Idx>)
    ensures i in s ==> i in r
    ensures r <= s
  {
    Flood(nb, s, {i})
  }

  /** Components partition the object: a voxel's component is the
      component of every voxel in it. */
  lemma {:induction false} ComponentShared(nb: Neighbourhood, s: set<Idx>, i: Idx, j: Idx)
    requires j in Component(nb, s, i)
    ensures Component(nb, s, j) == Component(nb, s, i)
  {
    var ci := Component(nb, s, i);
    FloodLeast(nb, s, {j}, ci);
    var t := set k | k in ci && i in Component(nb, s, k);
    assert i in s;
    assert i in t;
    forall k, m | k in t && m in s && Adjacent(nb, k, m) ensures m in t {
      AdjacentSymmetric(nb, k, m);
      assert k in Component(nb, s, m);
      FloodLeast(nb, s, {k}, Component(nb, s, m));
    }
    FloodLeast(nb, s, {i}, t);
    assert j in t;
    FloodLeast(nb, s, {i}, Component(nb, s, j));
  }

  /** RelabelComponent with a minimum object size, binarised: the voxels
      of s whose component holds at least minSize voxels. */
  function SizeFilter(nb: Neighbourhood, s: set<Idx>, minSize: int): (r: set<Idx>)
    ensures r <= s
    ensures forall i :: i in r <==> i in s && |Component(nb, s, i)| >= minSize
  {
    set i | i in s && |Component(nb, s, i)| >= minSize
  }

  /** The size filter keeps or drops whole components. */
  lemma SizeFilterWholeComponents(nb: Neighbourhood, s: set<Idx>, minSize: int, i: Idx, j: Idx)
    requires j in Component(nb, s, i)
    ensures i in SizeFilter(nb, s, minSize) <==> j in SizeFilter(nb, s, minSize)
  {
    ComponentShared(nb, s, i, j);
  }
}
