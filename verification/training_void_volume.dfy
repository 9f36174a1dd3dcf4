/** Training's VoidVolumeLogic: segments erosions from a greyscale scan, a
    periosteal mask and seed points in eight numbered steps (initialise and
    smooth, region of interest, distance selection, erode, keep the voids
    connected to seeds, dilate, level-set growth, label by seed). The
    smoothing, distance, morphology, level-set and connected-component
    filters enter as given images. */
module TrainingVoidVolume {
  import opened Wrappers
  import opened Volumes
  import opened Connectivity
  import Labelling
  import Cropping

  /** Erosion ids 1, 2, ..., n: the default label of each seed. */
  function DefaultIds(n: nat): (r: seq<int>)
    ensures |r| == n
    ensures forall k :: 0 <= k < n ==> r[k] == k + 1
  {
    seq(n, k => k + 1)
  }

  datatype Params = Params(
    lower: int, upper: int,
    seeds: Option<seq<Idx>>, erosionIds: seq<int>,
    minimalRadius: int, dilateErodeDistance: int,
    autoThresh: bool, threshMethod: Option<int>)

  /** One erosion id per seed, and none while no seeds are set. */
  predicate Paired(p: Params) {
    match p.seeds
    case None => p.erosionIds == []
    case Some(s) => |p.erosionIds| == |s|
  }

  /** The constructor: thresholds 530..15000, radius 3, distance 4, and
      ids 1..n when seeds are given. */
  function New(seeds: Option<seq<Idx>>): (p: Params)
    ensures Paired(p) && p.seeds == seeds && !p.autoThresh
    ensures seeds.Some? ==> p.erosionIds == DefaultIds(|seeds.value|)
  {
    Params(530, 15000, seeds, if seeds.Some? then DefaultIds(|seeds.value|) else [], 3, 4, false, None)
  }

  /** setSeeds resets the ids to 1..n. */
  function SetSeeds(p: Params, seeds: seq<Idx>): (r: Params)
    ensures Paired(r) && r.seeds == Some(seeds) && r.erosionIds == DefaultIds(|seeds|)
  {
    p.(seeds := Some(seeds), erosionIds := DefaultIds(|seeds|))
  }

  /** setErosionIds takes effect only when there is one id per seed; None
      stands for the TypeError len(None) raises before seeds are set. */
  function SetErosionIds(p: Params, ids: seq<int>): (r: Option<Params>)
    requires Paired(p)
    ensures r.None? <==> p.seeds.None?
    ensures r.Some? ==> Paired(r.value) && r.value.seeds == p.seeds
    ensures r.Some? ==> r.value.erosionIds == if |ids| == |p.seeds.value| then ids else p.erosionIds
  {
    match p.seeds
    case None => None
    case Some(s) => Some(if |ids| == |s| then p.(erosionIds := ids) else p)
  }

  function Shift(seeds: seq<Idx>, dest: Idx): (r: seq<Idx>)
    ensures |r| == |seeds|
    ensures forall k :: 0 <= k < |seeds| ==> r[k] == Cropping.Plus(seeds[k], dest)
  {
    seq(|seeds|, k requires 0 <= k < |seeds| => Cropping.Plus(seeds[k], dest))
  }

  /** The entries of xs whose shifted seed lies inside the w x h x d grid. */
  function KeepInRange<T>(crop: seq<Idx>, xs: seq<T>, w: int, h: int, d: int): (r: seq<T>)
    requires |crop| == |xs|
    ensures |r| <= |xs|
  {
    if |crop| == 0 then []
    else (if InGrid(crop[0], w, h, d) then [xs[0]] else []) + KeepInRange(crop[1..], xs[1..], w, h, d)
  }

  /** The positions, from start on, of the in-range shifted seeds, in
      increasing order. */
  function KeptFrom(crop: seq<Idx>, start: nat, w: int, h: int, d: int): (r: seq<int>)
    requires start <= |crop|
    ensures |r| <= |crop| - start
    ensures forall k :: 0 <= k < |r| ==> start <= r[k] < |crop| && InGrid(crop[r[k]], w, h, d)
    decreases |crop| - start
  {
    if start == |crop| then []
    else (if InGrid(crop[start], w, h, d) then [start] else []) + KeptFrom(crop, start + 1, w, h, d)
  }

  function KeptIndices(crop: seq<Idx>, w: int, h: int, d: int): (r: seq<int>)
    ensures forall k :: 0 <= k < |r| ==> 0 <= r[k] < |crop| && InGrid(crop[r[k]], w, h, d)
  {
    KeptFrom(crop, 0, w, h, d)
  }

  predicate Increasing(r: seq<int>)
  {
    forall k, l :: 0 <= k < l < |r| ==> r[k] < r[l]
  }

  /** A value below every element of an increasing list, put in front,
      keeps it increasing. */
  lemma ConsIncreasing(x: int, rest: seq<int>)
    requires Increasing(rest) && forall j :: 0 <= j < |rest| ==> x < rest[j]
    ensures Increasing([x] + rest)
  {
    var r := [x] + rest;
    forall k, l | 0 <= k < l < |r| ensures r[k] < r[l] {
      assert r[l] == rest[l - 1];
      if k > 0 {
        assert r[k] == rest[k - 1];
      }
    }
  }

  /** The kept positions are strictly increasing. */
  lemma {:induction false} KeptIncreasing(crop: seq<Idx>, start: nat, w: int, h: int, d: int)
    requires start <= |crop|
    ensures Increasing(KeptFrom(crop, start, w, h, d))
    decreases |crop| - start
  {
    if start < |crop| {
      KeptIncreasing(crop, start + 1, w, h, d);
      var r := KeptFrom(crop, start, w, h, d);
      var rest := KeptFrom(crop, start + 1, w, h, d);
      if InGrid(crop[start], w, h, d) {
        assert r == [start] + rest;
        ConsIncreasing(start, rest);
      } else {
        assert r == rest;
      }
    }
  }

  /** No in-range shifted seed at or after start is dropped. */
  lemma {:induction false} KeptComplete(crop: seq<Idx>, start: nat, w: int, h: int, d: int)
    requires start <= |crop|
    ensures var r := KeptFrom(crop, start, w, h, d);
      forall j :: start <= j < |crop| && InGrid(crop[j], w, h, d) ==> j in r
    decreases |crop| - start
  {
    if start < |crop| {
      KeptComplete(crop, start + 1, w, h, d);
      var rest := KeptFrom(crop, start + 1, w, h, d);
      var head := if InGrid(crop[start], w, h, d) then [start] else [];
      assert KeptFrom(crop, start, w, h, d) == head + rest;
    }
  }

  /** Every list filtered by the same seeds is the selection of the same
      positions: seeds, ids and shifted seeds stay in step. */
  lemma {:induction false} KeepIsSelection<T>(crop: seq<Idx>, xs: seq<T>, start: nat, w: int, h: int, d: int)
    requires |crop| == |xs| && start <= |crop|
    ensures var j := KeptFrom(crop, start, w, h, d);
      |KeepInRange(crop[start..], xs[start..], w, h, d)| == |j| &&
      forall k :: 0 <= k < |j| ==> KeepInRange(crop[start..], xs[start..], w, h, d)[k] == xs[j[k]]
    decreases |crop| - start
  {
    if start < |crop| {
      KeepIsSelection(crop, xs, start + 1, w, h, d);
      assert crop[start..][1..] == crop[start + 1..] && xs[start..][1..] == xs[start + 1..];
    }
  }

  /** One iteration of the removal loop on one of the three lists. */
  lemma RemovalStep<T>(crop: seq<Idx>, xs: seq<T>, cur: seq<T>, i: int, w: int, h: int, d: int)
    requires |crop| == |xs| && 0 <= i < |crop|
    requires cur == xs[..i + 1] + KeepInRange(crop[i + 1..], xs[i + 1..], w, h, d)
    ensures InGrid(crop[i], w, h, d) ==> cur == xs[..i] + KeepInRange(crop[i..], xs[i..], w, h, d)
    ensures !InGrid(crop[i], w, h, d) ==> cur[..i] + cur[i + 1..] == xs[..i] + KeepInRange(crop[i..], xs[i..], w, h, d)
  {
    assert crop[i..][1..] == crop[i + 1..] && xs[i..][1..] == xs[i + 1..];
    assert xs[..i + 1] == xs[..i] + [xs[i]];
    if !InGrid(crop[i], w, h, d) {
      assert cur[..i] == xs[..i];
      assert cur[i + 1..] == KeepInRange(crop[i + 1..], xs[i + 1..], w, h, d);
    }
  }

  /** The loop of _initializeParams: walk the shifted seeds from the last
      to the first and remove each out-of-range one, at the same index,
      from the shifted seeds, the seeds and the ids. */
  method RemoveOutOfRange(crop: seq<Idx>, seeds: seq<Idx>, ids: seq<int>, w: int, h: int, d: int)
      returns (crop': seq<Idx>, seeds': seq<Idx>, ids': seq<int>)
    requires |crop| == |seeds| == |ids|
    ensures crop' == KeepInRange(crop, crop, w, h, d)
    ensures seeds' == KeepInRange(crop, seeds, w, h, d)
    ensures ids' == KeepInRange(crop, ids, w, h, d)
  {
    crop', seeds', ids' := crop, seeds, ids;
    var i := |crop|;
    while i > 0
      invariant 0 <= i <= |crop|
      invariant crop' == crop[..i] + KeepInRange(crop[i..], crop[i..], w, h, d)
      invariant seeds' == seeds[..i] + KeepInRange(crop[i..], seeds[i..], w, h, d)
      invariant ids' == ids[..i] + KeepInRange(crop[i..], ids[i..], w, h, d)
    {
      i := i - 1;
      RemovalStep(crop, crop, crop', i, w, h, d);
      RemovalStep(crop, seeds, seeds', i, w, h, d);
      RemovalStep(crop, ids, ids', i, w, h, d);
      if !InGrid(crop[i], w, h, d) {
        crop' := crop'[..i] + crop'[i + 1..];
        seeds' := seeds'[..i] + seeds'[i + 1..];
        ids' := ids'[..i] + ids'[i + 1..];
      }
    }
    assert crop[0..] == crop && seeds[0..] == seeds && ids[0..] == ids;
  }

  /** _initializeParams' seed update: shift every seed by the crop's
      destination index and drop the ones that fall outside the mask grid,
      from the seeds and ids too. None stands for the TypeError of
      iterating seeds that were never set. */
  function InitializeSeeds(p: Params, dest: Idx, w: int, h: int, d: int): (r: Option<(Params, seq<Idx>)>)
    requires Paired(p)
    ensures r.None? <==> p.seeds.None?
    ensures r.Some? ==> var (q, crop) := r.value;
      Paired(q) && q.seeds.Some? && |crop| == |q.seeds.value| &&
      (forall k :: 0 <= k < |crop| ==> InGrid(crop[k], w, h, d) && crop[k] == Cropping.Plus(q.seeds.value[k], dest)) &&
      q == p.(seeds := q.seeds, erosionIds := q.erosionIds)
    ensures r.Some? ==> var (q, crop) := r.value;
      var kept := KeptIndices(Shift(p.seeds.value, dest), w, h, d);
      |crop| == |kept| &&
      forall k :: 0 <= k < |kept| ==> q.seeds.value[k] == p.seeds.value[kept[k]] && q.erosionIds[k] == p.erosionIds[kept[k]]
  {
    match p.seeds
    case None => None
    case Some(seeds) =>
      var shifted := Shift(seeds, dest);
      var crop := KeepInRange(shifted, shifted, w, h, d);
      var kept := KeepInRange(shifted, seeds, w, h, d);
      var ids := KeepInRange(shifted, p.erosionIds, w, h, d);
      KeepIsSelection(shifted, shifted, 0, w, h, d);
      KeepIsSelection(shifted, seeds, 0, w, h, d);
      KeepIsSelection(shifted, p.erosionIds, 0, w, h, d);
      assert shifted[0..] == shifted && seeds[0..] == seeds && p.erosionIds[0..] == p.erosionIds;
      Some((p.(seeds := Some(kept), erosionIds := ids), crop))
  }

  datatype Error = Raised

  /** createROI: the voxels of the mask that are not bone. Bone is
      lower <= g <= upper on the smoothed image, or, with an automatic
      method 0..4, the voxels the histogram filter marks 0; any other
      method leaves the filter unbound and raises. */
  function CreateROI(p: Params, contour: Volume, gauss: Field, auto: Volume): (r: Result<Volume, Error>)
    requires contour.Keys == gauss.Keys == auto.Keys && IsBinary(auto, 1)
    ensures r.Failure? <==> p.autoThresh && (p.threshMethod.None? || !(0 <= p.threshMethod.value <= 4))
    ensures r.Success? ==> r.value.Keys == contour.Keys
    ensures r.Success? && !p.autoThresh ==>
      Support(r.value) == Support(contour) * set i | i in gauss && !(p.lower as real <= gauss[i] <= p.upper as real)
    ensures r.Success? && p.autoThresh ==> Support(r.value) == Support(contour) - Support(auto)
    ensures r.Success? && IsBinary(contour, 1) ==> IsBinary(r.value, 1)
  {
    if p.autoThresh && (p.threshMethod.None? || !(0 <= p.threshMethod.value <= 4)) then Failure(Raised)
    else
      var bone := if p.autoThresh then auto else Band(gauss, p.lower as real, p.upper as real, 1);
      var voids := Invert(bone, 1);
      if IsBinary(contour, 1) then MulBinary(contour, voids); Success(Mul(contour, voids))
      else Success(Mul(contour, voids))
  }

  lemma OrBinary(a: Volume, b: Volume)
    requires SameGrid(a, b) && IsBinary(a, 1) && IsBinary(b, 1)
    ensures NonNegative(a) && NonNegative(b)
    ensures IsBinary(Or(a, b), 1)
  {
    assert BitOr(1, 1) == 1 by { assert BitOr(1, 1) == 2 * BitOr(0, 0) + 1; }
  }

  /** The set of seed positions. */
  function SeedSet(crop: seq<Idx>): set<Idx> {
    set k | 0 <= k < |crop| :: crop[k]
  }

  /** Seeds inflated to distance <= `distance` (the distance map from the
      seed image is given), joined with the eroded voids. */
  function SeedsAndVoids(eroded: Volume, seedDist: Field, distance: int): (r: Volume)
    requires eroded.Keys == seedDist.Keys && IsBinary(eroded, 1)
    ensures r.Keys == eroded.Keys && IsBinary(r, 1)
    ensures Support(r) == Support(eroded) + set i | i in seedDist && 0.0 <= seedDist[i] <= distance as real
  {
    var inflated := Band(seedDist, 0.0, distance as real, 1);
    OrBinary(inflated, eroded);
    Or(inflated, eroded)
  }

  /** connectVoidVolume: ConnectedThreshold [1, 1] from the seeds over
      seeds-and-voids, face connected, then masked by the eroded voids. The
      result is exactly the eroded voids reachable from a seed. */
  function ConnectVoid(eroded: Volume, crop: seq<Idx>, seedDist: Field, distance: int): (r: Volume)
    requires eroded.Keys == seedDist.Keys && IsBinary(eroded, 1)
    ensures r.Keys == eroded.Keys && IsBinary(r, 1)
    ensures Support(r) == Support(eroded) * Flood(Face, Level(SeedsAndVoids(eroded, seedDist, distance), 1), SeedSet(crop))
    ensures Support(r) <= Support(eroded)
  {
    var both := SeedsAndVoids(eroded, seedDist, distance);
    var reached := Indicator(eroded.Keys, Flood(Face, Level(both, 1), SeedSet(crop)), 1);
    MulBinary(eroded, reached);
    Mul(eroded, reached)
  }

  /** dilateVoidVolume: the dilated voids (given) masked by the contour. */
  function DilateVoid(dilated: Volume, contour: Volume): (r: Volume)
    requires SameGrid(dilated, contour)
    ensures r.Keys == contour.Keys
    ensures Support(r) == Support(dilated) * Support(contour)
    ensures IsBinary(dilated, 1) && IsBinary(contour, 1) ==> IsBinary(r, 1)
  {
    if IsBinary(dilated, 1) && IsBinary(contour, 1) then MulBinary(dilated, contour); Mul(dilated, contour)
    else Mul(dilated, contour)
  }

  /** growVoidVolume: the level-set region (value in 1..255, given) inside the
      contour, joined with the input voids, which are therefore kept. */
  function GrowVoid(levelSet: Field, contour: Volume, voids: Volume): (r: Volume)
    requires levelSet.Keys == contour.Keys == voids.Keys
    requires IsBinary(contour, 1) && IsBinary(voids, 1)
    ensures r.Keys == contour.Keys && IsBinary(r, 1)
    ensures Support(voids) <= Support(r)
    ensures Support(r) == (Support(contour) * set i | i in levelSet && 1.0 <= levelSet[i] <= UpperDefault as real) + Support(voids)
  {
    var grown := BandAbove(levelSet, 1.0, 1);
    var inside := Mul(grown, contour);
    MulBinary(grown, contour);
    OrBinary(inside, voids);
    Or(inside, voids)
  }

  /** labelVoidVolume: each seeded component (numbered by the given
      connected-component image) takes the id of its last seed. */
  function LabelVoid(components: Volume, crop: seq<Idx>, ids: seq<int>): (r: Volume)
    requires |crop| == |ids| && forall k :: 0 <= k < |crop| ==> crop[k] in components
    ensures r.Keys == components.Keys && Support(r) <= Support(components)
    ensures forall k :: 0 <= k < |crop| && components[crop[k]] > 0 && Labelling.LastInRegion(components, crop, k) ==>
      r[crop[k]] == ids[k]
  {
    Labelling.ChangeLabel(components, Labelling.SeedMap(components, crop, ids))
  }

  /** The object between steps: parameters, the cropped mask on its
      w x h x d grid, the shifted seeds (set by step 1), the working image
      and the output. */
  datatype State = State(
    p: Params, contour: Volume, w: int, h: int, d: int,
    crop: Option<seq<Idx>>, ero1: Option<Volume>, output: Option<Volume>)

  predicate StateOk(s: State) {
    Paired(s.p) && s.contour.Keys == Grid(s.w, s.h, s.d) && IsBinary(s.contour, 1) &&
    (s.crop.Some? ==>
       (s.p.seeds.Some? && |s.crop.value| == |s.p.seeds.value| &&
        forall k :: 0 <= k < |s.crop.value| ==> InGrid(s.crop.value[k], s.w, s.h, s.d))) &&
    (s.ero1.Some? ==> s.ero1.value.Keys == s.contour.Keys && IsBinary(s.ero1.value, 1)) &&
    (s.output.Some? ==> s.output.value.Keys == s.contour.Keys)
  }

  /** What the filters the model leaves abstract produce: the crop's
      destination index, the smoothed image, the automatic threshold
      mask, the distance-selected, eroded and dilated voids, the seed
      distance map, the level-set image and a component numbering of
      step 7's output (step 8 keeps it only where that output is set). */
  datatype Env = Env(
    dest: Idx, gauss: Field, auto: Volume, distance: Volume, eroded: Volume,
    seedDist: Field, dilated: Volume, levelSet: Field, components: Volume)

  predicate EnvOk(s: State, e: Env) {
    var g := s.contour.Keys;
    e.gauss.Keys == g && e.auto.Keys == g && e.distance.Keys == g && e.eroded.Keys == g &&
    e.seedDist.Keys == g && e.dilated.Keys == g && e.levelSet.Keys == g && e.components.Keys == g &&
    IsBinary(e.auto, 1) && IsBinary(e.distance, 1) && IsBinary(e.eroded, 1) && IsBinary(e.dilated, 1)
  }

  /** execute(step): steps 1..8 update the object and report True; any
      other step reports False and changes nothing. A step that needs an
      attribute an earlier step sets raises (Failure) when it is missing. */
  function Execute(s: State, step: int, e: Env): (r: Result<(State, bool), Error>)
    requires StateOk(s) && EnvOk(s, e)
    ensures r.Success? ==> StateOk(r.value.0)
    ensures r.Success? && !r.value.1 <==> step < 1 || step > 8
    ensures (step < 1 || step > 8) ==> r == Success((s, false))
    ensures r.Success? ==> r.value.0.contour == s.contour && r.value.0.w == s.w && r.value.0.h == s.h && r.value.0.d == s.d
    ensures r.Success? && step == 6 ==>
      r.value.0.ero1.Some? && Support(r.value.0.ero1.value) <= Support(s.contour)
    ensures r.Success? && step == 7 ==>
      s.ero1.Some? && r.value.0.output.Some? &&
      Support(s.ero1.value) <= Support(r.value.0.output.value) <= Support(s.contour) + Support(s.ero1.value)
    ensures r.Success? && step == 8 ==>
      s.output.Some? && r.value.0.output.Some? && Support(r.value.0.output.value) <= Support(s.output.value)
  {
    if step == 1 then
      match InitializeSeeds(s.p, e.dest, s.w, s.h, s.d)
      case None => Failure(Raised)
      case Some((q, crop)) => Success((s.(p := q, crop := Some(crop)), true))
    else if step == 2 then
      match CreateROI(s.p, s.contour, e.gauss, e.auto)
      case Failure(err) => Failure(err)
      case Success(roi) => Success((s.(ero1 := Some(roi)), true))
    else if step == 3 then
      if s.ero1.None? then Failure(Raised) else Success((s.(ero1 := Some(e.distance)), true))
    else if step == 4 then
      if s.ero1.None? then Failure(Raised) else Success((s.(ero1 := Some(e.eroded)), true))
    else if step == 5 then
      if s.ero1.None? || s.crop.None? then Failure(Raised)
      else Success((s.(ero1 := Some(ConnectVoid(s.ero1.value, s.crop.value, e.seedDist, s.p.dilateErodeDistance))), true))
    else if step == 6 then
      if s.ero1.None? then Failure(Raised) else Success((s.(ero1 := Some(DilateVoid(e.dilated, s.contour))), true))
    else if step == 7 then
      if s.ero1.None? then Failure(Raised)
      else Success((s.(output := Some(GrowVoid(e.levelSet, s.contour, s.ero1.value))), true))
    else if step == 8 then
      if s.output.None? || s.crop.None? then Failure(Raised)
      else
        var components := Mask(e.components, s.output.value, 0, 0);
        MaskedSupport(e.components, s.output.value);
        Success((s.(output := Some(LabelVoid(components, s.crop.value, s.p.erosionIds))), true))
    else Success((s, false))
  }

  lemma MaskedSupport(a: Volume, m: Volume)
    requires SameGrid(a, m)
    ensures Support(Mask(a, m, 0, 0)) <= Support(m)
  {
  }

  /** The driver loop: execute step, step + 1, ... while execute reports
      True; fuel bounds the number of calls. */
  function Run(s: State, e: Env, step: int, fuel: nat): (r: Result<State, Error>)
    requires StateOk(s) && EnvOk(s, e)
    ensures r.Success? ==> StateOk(r.value) && r.value.contour == s.contour
    decreases fuel
  {
    if fuel == 0 then Success(s)
    else
      match Execute(s, step, e)
      case Failure(err) => Failure(err)
      case Success((t, more)) => if more then Run(t, e, step + 1, fuel - 1) else Success(t)
  }

  predicate Fresh(s: State) {
    s.crop.None? && s.ero1.None? && s.output.None?
  }

  /** With seeds set and, for automatic thresholding, a known method, the
      eight steps all succeed, the ninth reports the end, and the labelled
      voids lie inside the contour. */
  lemma {:induction false} RunCompletes(s: State, e: Env)
    requires StateOk(s) && EnvOk(s, e) && Fresh(s)
    requires s.p.seeds.Some?
    requires s.p.autoThresh ==> s.p.threshMethod.Some? && 0 <= s.p.threshMethod.value <= 4
    ensures Run(s, e, 1, 9).Success?
    ensures Run(s, e, 1, 9).value.output.Some?
    ensures Support(Run(s, e, 1, 9).value.output.value) <= Support(s.contour)
  {
    var s4 := RunFront(s, e);
    RunBack(s4, e);
  }

  /** Steps 1..4 set the seed crop and the first void image. */
  lemma RunFront(s: State, e: Env) returns (s4: State)
    requires StateOk(s) && EnvOk(s, e) && Fresh(s)
    requires s.p.seeds.Some?
    requires s.p.autoThresh ==> s.p.threshMethod.Some? && 0 <= s.p.threshMethod.value <= 4
    ensures StateOk(s4) && EnvOk(s4, e) && s4.contour == s.contour
    ensures s4.ero1.Some? && s4.crop.Some?
    ensures Run(s, e, 1, 9) == Run(s4, e, 5, 5)
  {
    var s1 := Execute(s, 1, e).value.0;
    Turn(s, e, 1, 9, s1);
    var s2 := Execute(s1, 2, e).value.0;
    Turn(s1, e, 2, 8, s2);
    var s3 := s2.(ero1 := Some(e.distance));
    Turn(s2, e, 3, 7, s3);
    s4 := s3.(ero1 := Some(e.eroded));
    Turn(s3, e, 4, 6, s4);
  }

  /** Steps 5..8 then succeed, and the ninth call reports the end. */
  lemma RunBack(s4: State, e: Env)
    requires StateOk(s4) && EnvOk(s4, e) && s4.ero1.Some? && s4.crop.Some?
    ensures Run(s4, e, 5, 5).Success?
    ensures Run(s4, e, 5, 5).value.output.Some?
    ensures Support(Run(s4, e, 5, 5).value.output.value) <= Support(s4.contour)
  {
    var s5 := s4.(ero1 := Some(ConnectVoid(s4.ero1.value, s4.crop.value, e.seedDist, s4.p.dilateErodeDistance)));
    Turn(s4, e, 5, 5, s5);
    var s6 := s5.(ero1 := Some(DilateVoid(e.dilated, s5.contour)));
    Turn(s5, e, 6, 4, s6);
    RunLast(s6, e);
  }

  /** Steps 7 and 8 grow and label the voids inside the contour. */
  lemma RunLast(s6: State, e: Env)
    requires StateOk(s6) && EnvOk(s6, e) && s6.ero1.Some? && s6.crop.Some?
    requires Support(s6.ero1.value) <= Support(s6.contour)
    ensures Run(s6, e, 7, 3).Success?
    ensures Run(s6, e, 7, 3).value.output.Some?
    ensures Support(Run(s6, e, 7, 3).value.output.value) <= Support(s6.contour)
  {
    var s7 := s6.(output := Some(GrowVoid(e.levelSet, s6.contour, s6.ero1.value)));
    Turn(s6, e, 7, 3, s7);
    var s8 := s7.(output := Some(LabelVoid(Mask(e.components, s7.output.value, 0, 0), s7.crop.value, s7.p.erosionIds)));
    Turn(s7, e, 8, 2, s8);
    assert Execute(s8, 9, e) == Success((s8, false));
    assert Run(s8, e, 9, 1) == Success(s8);
  }

  /** One turn of the driver loop: a step that succeeds hands its state
      to the next step with one call less. */
  lemma Turn(s: State, e: Env, step: int, fuel: nat, t: State)
    requires StateOk(s) && EnvOk(s, e) && 1 <= step <= 8 && fuel >= 1
    requires Execute(s, step, e) == Success((t, true))
    ensures StateOk(t) && EnvOk(t, e) && t.contour == s.contour
    ensures Run(s, e, step, fuel) == Run(t, e, step + 1, fuel - 1)
  {
  }
}
