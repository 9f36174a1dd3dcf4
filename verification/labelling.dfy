/** Relabelling of label images: SimpleITK ChangeLabel, the seed-to-label
    map the erosion pipelines build from connected components, and the
    numpy relabelling through a copy used when exporting erosion segments. */
module Labelling {
  import opened Volumes
  import opened Connectivity

  /** ChangeLabelImageFilter: a voxel whose label is a key of m takes m's
      value for it; every other voxel keeps its label. Labels are read from
      the input only, so one change never feeds another. */
  function ChangeLabel(v: Volume, m: map<int, int>): (r: Volume)
    ensures r.Keys == v.Keys
    ensures forall i :: i in v && v[i] !in m ==> r[i] == v[i]
    ensures forall i, j :: i in v && j in v && v[i] == v[j] ==> r[i] == r[j]
    ensures 0 !in m ==> Support(r) <= Support(v)
  {
    map i | i in v :: if v[i] in m then m[v[i]] else v[i]
  }

  /** No seed after the k-th lies in the same labelled region. */
  predicate LastInRegion(cc: Volume, seeds: seq<Idx>, k: int)
    requires 0 <= k < |seeds| && forall l :: 0 <= l < |seeds| ==> seeds[l] in cc
  {
    forall l :: k < l < |seeds| ==> cc[seeds[l]] != cc[seeds[k]]
  }

  /** m sends the label under each seed that is the last one in its
      region (and not background) to that seed's id. */
  ghost predicate AssignsLast(cc: Volume, seeds: seq<Idx>, ids: seq<int>, m: map<int, int>)
    requires |seeds| == |ids| && forall l :: 0 <= l < |seeds| ==> seeds[l] in cc
  {
    forall k :: 0 <= k < |seeds| && cc[seeds[k]] > 0 && LastInRegion(cc, seeds, k) ==>
      cc[seeds[k]] in m && m[cc[seeds[k]]] == ids[k]
  }

  /** The relabel map labelVoidVolume builds: for each seed, in order, the
      component label under the seed (when it is not background) maps to
      the seed's erosion id; a later seed overwrites an earlier one. */
  function SeedMap(cc: Volume, seeds: seq<Idx>, ids: seq<int>): (m: map<int, int>)
    requires |seeds| == |ids| && forall l :: 0 <= l < |seeds| ==> seeds[l] in cc
    ensures forall key :: key in m <==> key > 0 && exists l :: 0 <= l < |seeds| && cc[seeds[l]] == key
    ensures AssignsLast(cc, seeds, ids, m)
  {
    if |seeds| == 0 then map[]
    else
      var n := |seeds| - 1;
      assert forall k :: 0 <= k < n ==> seeds[..n][k] == seeds[k];
      var m := SeedMap(cc, seeds[..n], ids[..n]);
      SeedMapStep(cc, seeds, ids, m);
      var key := cc[seeds[n]];
      if key > 0 then m[key := ids[n]] else m
  }

  /** Adding the last seed's entry keeps every earlier seed that is still
      the last in its region, and adds the last seed. */
  lemma SeedMapStep(cc: Volume, seeds: seq<Idx>, ids: seq<int>, m0: map<int, int>)
    requires |seeds| == |ids| > 0 && forall l :: 0 <= l < |seeds| ==> seeds[l] in cc
    requires AssignsLast(cc, seeds[..|seeds| - 1], ids[..|ids| - 1], m0)
    ensures var key := cc[seeds[|seeds| - 1]];
      AssignsLast(cc, seeds, ids, if key > 0 then m0[key := ids[|ids| - 1]] else m0)
  {
    var n := |seeds| - 1;
    var key := cc[seeds[n]];
    var m := if key > 0 then m0[key := ids[n]] else m0;
    forall k | 0 <= k < |seeds| && cc[seeds[k]] > 0 && LastInRegion(cc, seeds, k)
      ensures cc[seeds[k]] in m && m[cc[seeds[k]]] == ids[k]
    {
      if k < n {
        assert seeds[..n][k] == seeds[k] && ids[..n][k] == ids[k];
        assert LastInRegion(cc, seeds[..n], k) by {
          forall l | k < l < n ensures cc[seeds[..n][l]] != cc[seeds[..n][k]] {
            assert seeds[..n][l] == seeds[l];
          }
        }
        assert cc[seeds[k]] != key;
      }
    }
  }

  /** cc numbers the components of s: the background is 0 and two voxels
      of s share a label exactly when they are connected within s. */
  predicate LabelsComponents(cc: Volume, nb: Neighbourhood, s: set<Idx>) {
    s <= cc.Keys && Support(cc) == s && NonNegative(cc) &&
    forall i, j :: i in s && j in s ==> (cc[i] == cc[j] <==> j in Component(nb, s, i))
  }

  /** Every voxel of a seeded component ends with the id of the last seed
      in that component. */
  lemma SeedComponentGetsId(cc: Volume, nb: Neighbourhood, s: set<Idx>, seeds: seq<Idx>, ids: seq<int>, k: int, i: Idx)
    requires LabelsComponents(cc, nb, s)
    requires |seeds| == |ids| && forall l :: 0 <= l < |seeds| ==> seeds[l] in cc
    requires 0 <= k < |seeds| && seeds[k] in s && LastInRegion(cc, seeds, k)
    requires i in Component(nb, s, seeds[k])
    ensures ChangeLabel(cc, SeedMap(cc, seeds, ids))[i] == ids[k]
  {
    assert seeds[k] in Support(cc);
    assert i in s;
    assert cc[i] == cc[seeds[k]];
  }

  /** A component that holds no seed keeps its component label. */
  lemma UnseededComponentKeepsLabel(cc: Volume, nb: Neighbourhood, s: set<Idx>, seeds: seq<Idx>, ids: seq<int>, i: Idx)
    requires LabelsComponents(cc, nb, s)
    requires |seeds| == |ids| && forall l :: 0 <= l < |seeds| ==> seeds[l] in cc
    requires i in s
    requires forall l :: 0 <= l < |seeds| ==> seeds[l] !in Component(nb, s, i)
    ensures ChangeLabel(cc, SeedMap(cc, seeds, ids))[i] == cc[i]
  {
    forall l | 0 <= l < |seeds| ensures cc[seeds[l]] != cc[i] {
      if seeds[l] in s {
        assert seeds[l] !in Component(nb, s, i);
      } else {
        assert seeds[l] !in Support(cc);
      }
    }
  }

  /** The map from 1-based segment positions to their export labels. */
  function PositionMap(labelIds: seq<int>): (m: map<int, int>)
    ensures forall key :: key in m <==> 1 <= key <= |labelIds|
    ensures forall key :: 1 <= key <= |labelIds| ==> m[key] == labelIds[key - 1]
  {
    if |labelIds| == 0 then map[]
    else
      var n := |labelIds|;
      assert forall k :: 0 <= k < n - 1 ==> labelIds[..n - 1][k] == labelIds[k];
      PositionMap(labelIds[..n - 1])[n := labelIds[n - 1]]
  }

  /** exportErosionsToLabelmap's relabelling: for each position k, the
      voxels whose label in the untouched copy is k+1 are set to
      labelIds[k]. */
  method ExportRelabel(v: Volume, labelIds: seq<int>) returns (r: Volume)
    ensures r == ChangeLabel(v, PositionMap(labelIds))
  {
    var copy := v;
    r := v;
    var key := 0;
    while key < |labelIds|
      invariant 0 <= key <= |labelIds|
      invariant r.Keys == v.Keys
      invariant forall i :: i in v ==> r[i] == if 1 <= v[i] <= key then labelIds[v[i] - 1] else v[i]
    {
      r := map i | i in r :: if copy[i] == key + 1 then labelIds[key] else r[i];
      key := key + 1;
    }
  }

  /** One assignment `a[a == from] = to` on the array a itself. */
  function Replace(v: Volume, from: int, to: int): (r: Volume)
    ensures r.Keys == v.Keys
  {
    map i | i in v :: if v[i] == from then to else v[i]
  }

  lemma ReplaceSingle(i: Idx, c: int, from: int, to: int)
    ensures Replace(map[i := c], from, to) == map[i := if c == from then to else c]
  {
  }

  /** The same loop without the copy: each assignment reads the array the
      previous ones changed. */
  function InPlaceRelabel(v: Volume, labelIds: seq<int>, key: nat): Volume
    requires key <= |labelIds|
    decreases |labelIds| - key
  {
    if key == |labelIds| then v
    else InPlaceRelabel(Replace(v, key + 1, labelIds[key]), labelIds, key + 1)
  }

  /** Reading the copy matters: relabelling 1 -> 2 and 2 -> 3 sends a
      voxel labelled 1 to 2, where the in-place loop would chain it to 3. */
  lemma CopyPreventsChaining()
    ensures ChangeLabel(map[Idx(0, 0, 0) := 1], PositionMap([2, 3]))[Idx(0, 0, 0)] == 2
    ensures InPlaceRelabel(map[Idx(0, 0, 0) := 1], [2, 3], 0)[Idx(0, 0, 0)] == 3
  {
    var o := Idx(0, 0, 0);
    ReplaceSingle(o, 1, 1, 2);
    ReplaceSingle(o, 2, 2, 3);
    assert InPlaceRelabel(map[o := 1], [2, 3], 0) == InPlaceRelabel(map[o := 2], [2, 3], 1);
    assert InPlaceRelabel(map[o := 2], [2, 3], 1) == InPlaceRelabel(map[o := 3], [2, 3], 2);
  }
}
