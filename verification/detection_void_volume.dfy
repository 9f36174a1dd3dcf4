/** ErosionDetection's VoidVolumeLogic: finds cortical interruptions and
    erosions in eight steps driven by an internal step counter (binarise,
    region of interest around the seeds, distance selection, erode, keep
    the voids connected to seeds, dilate, combine with the less
    conservative region of interest, label and drop small objects). After
    the eighth step the next call resets the counter and reports False;
    an exception also resets it before propagating. The smoothing,
    distance, morphology and component-numbering filters enter as given
    images. */
module DetectionVoidVolume {
  import opened Wrappers
  import opened Volumes
  import opened Connectivity
  import TrainingVoidVolume

  /** Bone particles smaller than this many voxels are removed. */
  const MinBoneParticle := 420
  /** The region of interest reaches this far from the seeds. */
  const RoiRadius := 63
  /** Labelled voids smaller than this many voxels are dropped. */
  const MinVoidSize := 927
  /** Seeds are inflated this far before the connectivity step. */
  const SeedRadius := 5
  const StepNum := 8

  datatype State = State(
    model: Volume, contour: Volume, w: int, h: int, d: int,
    seedsImg: Option<Field>, ero1: Option<Volume>, ero2: Option<Volume>, output: Option<Volume>,
    lower: int, upper: int, ero1Distance: int, ero1Radius: int,
    seeds: Option<seq<Idx>>, step: int)

  /** The constructor with its defaults: thresholds 3000..10000, minimal
      radius 3, morphological radius 4, step counter 0. */
  function New(img: Volume, mask: Volume, w: int, h: int, d: int, seeds: Option<seq<Idx>>): (s: State)
    ensures s.step == 0 && s.lower == 3000 && s.upper == 10000
    ensures s.ero1Distance == 3 && s.ero1Radius == 4
    ensures s.model == img && s.contour == mask && s.seeds == seeds
    ensures s.seedsImg.None? && s.ero1.None? && s.ero2.None? && s.output.None?
  {
    State(img, mask, w, h, d, None, None, None, None, 3000, 10000, 3, 4, seeds, 0)
  }

  /** setContourImage: every mask voxel in 1..255 becomes 1 (the upper
      threshold is BinaryThreshold's default). */
  function SetContourImage(s: State, mask: Volume): (r: State)
    ensures r.contour.Keys == mask.Keys && IsBinary(r.contour, 1)
    ensures Support(r.contour) == set i | i in mask && 1 <= mask[i] <= UpperDefault
    ensures r == s.(contour := r.contour)
  {
    s.(contour := ThresholdAbove(mask, 1, 1))
  }

  /** Every seed can be written into an image on the mask's grid. */
  predicate SeedsFit(s: State) {
    s.seeds.Some? && forall k :: 0 <= k < |s.seeds.value| ==> InGrid(s.seeds.value[k], s.w, s.h, s.d)
  }

  /** binarize: the smoothed image (given) thresholded to lower..upper,
      keeping only face-connected bone particles of at least 420 voxels. */
  function Binarize(gauss: Field, lower: int, upper: int): (r: Volume)
    ensures r.Keys == gauss.Keys && IsBinary(r, 1)
    ensures Support(r) == SizeFilter(Face, (set i | i in gauss && lower as real <= gauss[i] <= upper as real), MinBoneParticle)
    ensures forall i :: i in Support(r) ==> lower as real <= gauss[i] <= upper as real
  {
    var bone := Band(gauss, lower as real, upper as real, 1);
    Indicator(gauss.Keys, SizeFilter(Face, Support(bone), MinBoneParticle), 1)
  }

  /** The seed image: 1 at every seed, 0 elsewhere. */
  function SeedImage(keys: set<Idx>, seeds: seq<Idx>): (r: Volume)
    ensures r.Keys == keys && IsBinary(r, 1)
    ensures Support(r) == keys * TrainingVoidVolume.SeedSet(seeds)
  {
    Indicator(keys, TrainingVoidVolume.SeedSet(seeds), 1)
  }

  /** createROI: the voids (not bone) of the mask within 63 of a seed
      (the seed distance map is given) or at a seed. */
  function CreateROI(bone: Volume, contour: Volume, seeds: seq<Idx>, seedDist: Field): (r: Volume)
    requires bone.Keys == contour.Keys == seedDist.Keys && IsBinary(bone, 1)
    ensures r.Keys == contour.Keys
    ensures Support(r) ==
      ((set i | i in seedDist && 1.0 <= seedDist[i] <= RoiRadius as real) + contour.Keys * TrainingVoidVolume.SeedSet(seeds))
      * Support(contour) - Support(bone)
  {
    var seedImg := SeedImage(contour.Keys, seeds);
    var inflate := Add(Band(seedDist, 1.0, RoiRadius as real, 1), seedImg);
    var roi := Mul(inflate, contour);
    Mul(roi, Invert(bone, 1))
  }

  /** combineVoidVolume: the first void image dilated (given) and masked by
      the second, then only the voxels of value 1 face-connected to a seed. */
  function CombineVoid(dilated: Volume, ero2: Volume, seeds: seq<Idx>): (r: Volume)
    requires SameGrid(dilated, ero2)
    ensures r.Keys == dilated.Keys && IsBinary(r, 1)
    ensures Support(r) == Flood(Face, Level(Mul(dilated, ero2), 1), TrainingVoidVolume.SeedSet(seeds))
    ensures Support(r) <= Support(dilated) * Support(ero2)
  {
    var masked := Mul(dilated, ero2);
    Indicator(dilated.Keys, Flood(Face, Level(masked, 1), TrainingVoidVolume.SeedSet(seeds)), 1)
  }

  /** labelVoidVolume: the component numbering (given) kept only on
      components of at least 927 voxels. */
  function LabelVoid(components: Volume, voids: Volume): (r: Volume)
    requires SameGrid(components, voids)
    ensures r.Keys == components.Keys
    ensures Support(r) == SizeFilter(Face, Support(voids), MinVoidSize) * Support(components)
    ensures forall i :: i in r && r[i] != 0 ==> r[i] == components[i]
  {
    var big := SizeFilter(Face, Support(voids), MinVoidSize);
    map i | i in components :: if i in big then components[i] else 0
  }

  /** What holds after each completed step. */
  predicate StateOk(s: State) {
    var g := s.contour.Keys;
    0 <= s.step <= StepNum && s.contour.Keys == Grid(s.w, s.h, s.d) && s.model.Keys == g &&
    (s.step >= 1 ==> IsBinary(s.model, 1)) &&
    (s.step >= 2 ==> SeedsFit(s) && s.seedsImg.Some? && s.seedsImg.value.Keys == g &&
                     s.ero2.Some? && s.ero2.value.Keys == g &&
                     Support(s.ero2.value) <= Support(s.contour)) &&
    (s.step >= 3 ==> s.ero1.Some? && s.ero1.value.Keys == g) &&
    (s.step == 4 ==> IsBinary(s.ero1.value, 1)) &&
    (s.step >= 7 ==> s.output.Some? && s.output.value.Keys == g &&
                     Support(s.output.value) <= Support(s.ero2.value))
  }

  /** The filters the model leaves abstract: the smoothed image, the seed
      distance map, the distance-selected voids, the eroded voids, the
      step 6 and step 7 dilations and a component numbering of step 7's
      output. */
  datatype Env = Env(
    gauss: Field, seedDist: Field, distance: Volume, eroded: Volume,
    dilated: Volume, combineDilated: Volume, components: Volume)

  predicate EnvOk(s: State, e: Env) {
    var g := s.contour.Keys;
    e.gauss.Keys == g && e.seedDist.Keys == g && e.distance.Keys == g && e.eroded.Keys == g &&
    e.dilated.Keys == g && e.combineDilated.Keys == g && e.components.Keys == g &&
    IsBinary(e.eroded, 1)
  }

  /** The state the step counter resets to. */
  function Reset(s: State): (r: State)
    ensures r.step == 0 && r == s.(step := 0)
  {
    s.(step := 0)
  }

  /** execute(): advance the step counter and run that step; past step 8
      reset the counter and report False. Placing a seed outside the image
      raises in step 2; the exception resets the counter (Failure carries
      the state left behind). */
  function Execute(s: State, e: Env): (r: Result<(State, bool), State>)
    requires StateOk(s) && EnvOk(s, e)
    ensures r.Failure? <==> s.step == 1 && !SeedsFit(s)
    ensures r.Failure? ==> r.error == Reset(s)
    ensures r.Success? ==> StateOk(r.value.0) && r.value.0.contour == s.contour
    ensures r.Success? ==> (r.value.1 <==> s.step < StepNum)
    ensures r.Success? ==> r.value.0.step == if s.step < StepNum then s.step + 1 else 0
    ensures r.Success? && s.step == 0 ==>
      Support(r.value.0.model) <= set i | i in e.gauss && s.lower as real <= e.gauss[i] <= s.upper as real
    ensures r.Success? && s.step == 3 ==> r.value.0.ero1 == Some(e.eroded)
    ensures r.Success? && s.step == 4 ==>
      r.value.0.ero1.Some? && s.ero1.Some? && Support(r.value.0.ero1.value) <= Support(s.ero1.value)
    ensures r.Success? && s.step == 6 ==>
      r.value.0.output.Some? && s.ero1.Some? && s.ero2.Some? && s.seeds.Some? &&
      Support(r.value.0.output.value) ==
        Flood(Face, Level(Mul(e.combineDilated, s.ero2.value), 1), TrainingVoidVolume.SeedSet(s.seeds.value))
    ensures r.Success? && s.step == 7 ==>
      r.value.0.output.Some? && s.output.Some? &&
      Support(r.value.0.output.value) == SizeFilter(Face, Support(s.output.value), MinVoidSize) * Support(e.components)
  {
    var step := s.step + 1;
    if step == 1 then Success((StepBinarize(s, e), true))
    else if step == 2 then
      if !SeedsFit(s) then Failure(Reset(s)) else Success((StepRoi(s, e), true))
    else if step <= 6 then Success((StepVoids(s, e), true))
    else if step <= 8 then Success((StepOutput(s, e), true))
    else Success((Reset(s), false))
  }

  /** Step 1: binarise the smoothed image. */
  function StepBinarize(s: State, e: Env): (r: State)
    requires StateOk(s) && EnvOk(s, e) && s.step == 0
    ensures StateOk(r) && r.step == 1 && r == s.(model := r.model, step := 1)
    ensures Support(r.model) <= set i | i in e.gauss && s.lower as real <= e.gauss[i] <= s.upper as real
  {
    s.(model := Binarize(e.gauss, s.lower, s.upper), step := 1)
  }

  /** Step 2: the region of interest becomes the second void image. */
  function StepRoi(s: State, e: Env): (r: State)
    requires StateOk(s) && EnvOk(s, e) && s.step == 1 && SeedsFit(s)
    ensures StateOk(r) && r.step == 2 && r.contour == s.contour
  {
    var roi := CreateROI(s.model, s.contour, s.seeds.value, e.seedDist);
    s.(seedsImg := Some(e.seedDist), ero2 := Some(roi), step := 2)
  }

  /** Steps 3 to 6 rework the first void image: distance selection and
      erosion (given), connection to the seeds, dilation inside the mask. */
  function StepVoids(s: State, e: Env): (r: State)
    requires StateOk(s) && EnvOk(s, e) && 2 <= s.step <= 5
    ensures StateOk(r) && r.step == s.step + 1 && r.contour == s.contour
    ensures r == s.(ero1 := r.ero1, step := r.step)
    ensures s.step == 3 ==> r.ero1 == Some(e.eroded)
  {
    if s.step == 2 then s.(ero1 := Some(e.distance), step := 3)
    else if s.step == 3 then s.(ero1 := Some(e.eroded), step := 4)
    else if s.step == 4 then StepConnect(s, e)
    else StepDilate(s, e)
  }

  function StepConnect(s: State, e: Env): (r: State)
    requires StateOk(s) && EnvOk(s, e) && s.step == 4
    ensures StateOk(r) && r == s.(ero1 := r.ero1, step := 5)
    ensures Support(r.ero1.value) <= Support(s.ero1.value)
  {
    s.(ero1 := Some(TrainingVoidVolume.ConnectVoid(s.ero1.value, s.seeds.value, s.seedsImg.value, SeedRadius)), step := 5)
  }

  function StepDilate(s: State, e: Env): (r: State)
    requires StateOk(s) && EnvOk(s, e) && s.step == 5
    ensures StateOk(r) && r == s.(ero1 := r.ero1, step := 6)
    ensures Support(r.ero1.value) <= Support(s.contour)
  {
    s.(ero1 := Some(TrainingVoidVolume.DilateVoid(e.dilated, s.contour)), step := 6)
  }

  /** Steps 7 and 8 combine the void images and label the result. */
  function StepOutput(s: State, e: Env): (r: State)
    requires StateOk(s) && EnvOk(s, e) && 6 <= s.step <= 7
    ensures StateOk(r) && r.step == s.step + 1 && r.contour == s.contour && r.output.Some?
    ensures s.step == 6 ==>
      Support(r.output.value) ==
        Flood(Face, Level(Mul(e.combineDilated, s.ero2.value), 1), TrainingVoidVolume.SeedSet(s.seeds.value))
    ensures s.step == 7 ==>
      Support(r.output.value) == SizeFilter(Face, Support(s.output.value), MinVoidSize) * Support(e.components)
  {
    if s.step == 6 then
      s.(output := Some(CombineVoid(e.combineDilated, s.ero2.value, s.seeds.value)), step := 7)
    else
      var labelled := LabelVoid(e.components, s.output.value);
      assert Support(labelled) <= Support(s.output.value);
      s.(output := Some(labelled), step := 8)
  }

  /** The command-line driver: call execute until it reports False; fuel
      bounds the number of calls. */
  function Run(s: State, e: Env, fuel: nat): (r: Result<State, State>)
    requires StateOk(s) && EnvOk(s, e)
    ensures r.Success? ==> StateOk(r.value) && r.value.contour == s.contour
    ensures r.Failure? ==> r.error.step == 0
    decreases fuel
  {
    if fuel == 0 then Success(s)
    else
      match Execute(s, e)
      case Failure(t) => Failure(t)
      case Success((t, more)) => if more then Run(t, e, fuel - 1) else Success(t)
  }

  /** A failed step 2 resets the counter, so the next call starts over at
      step 1. */
  lemma RestartAfterFailure(s: State, e: Env)
    requires StateOk(s) && EnvOk(s, e)
    requires Execute(s, e).Failure?
    ensures StateOk(Execute(s, e).error) && Execute(s, e).error.step == 0
    ensures var t := Execute(s, e).error;
      Execute(t, e).Success? && Execute(t, e).value.0.step == 1
  {
  }

  /** From a reset object whose seeds all lie in the image, nine calls run
      the eight steps and report the end; the counter is back at 0, so the
      object can run again, and the labelled voids lie inside the mask. */
  lemma {:induction false} RunCompletes(s: State, e: Env)
    requires StateOk(s) && EnvOk(s, e)
    requires s.step == 0 && SeedsFit(s)
    ensures Run(s, e, 9).Success?
    ensures Run(s, e, 9).value.step == 0
    ensures Run(s, e, 9).value.output.Some?
    ensures Support(Run(s, e, 9).value.output.value) <= Support(s.contour)
  {
    RunFrom(s, e);
    assert StepNum + 1 - s.step == 9;
  }

  /** From any completed step with the seeds in the image, the remaining
      calls run to the end. */
  lemma {:induction false} RunFrom(s: State, e: Env)
    requires StateOk(s) && EnvOk(s, e) && SeedsFit(s)
    ensures Run(s, e, StepNum + 1 - s.step).Success?
    ensures Run(s, e, StepNum + 1 - s.step).value.step == 0
    ensures Run(s, e, StepNum + 1 - s.step).value.output.Some?
    ensures Support(Run(s, e, StepNum + 1 - s.step).value.output.value) <= Support(s.contour)
    decreases StepNum - s.step
  {
    if s.step == StepNum {
      LastCall(s, e);
    } else {
      var t := Turn(s, e, StepNum + 1 - s.step);
      RunFrom(t, e);
    }
  }

  /** A call that runs a step before the last hands its state to the rest
      of the run; the seeds still fit and the mask is unchanged. */
  lemma Turn(s: State, e: Env, fuel: nat) returns (t: State)
    requires StateOk(s) && EnvOk(s, e) && s.step < StepNum && SeedsFit(s) && fuel >= 1
    ensures StateOk(t) && EnvOk(t, e) && SeedsFit(t) && t.step == s.step + 1 && t.contour == s.contour
    ensures Run(s, e, fuel) == Run(t, e, fuel - 1)
  {
    t := Execute(s, e).value.0;
    if s.step == 0 {
      assert t == StepBinarize(s, e);
    }
  }

  /** The call after step 8 resets the counter and ends the run; the
      labelled voids lie inside the mask. */
  lemma LastCall(s: State, e: Env)
    requires StateOk(s) && EnvOk(s, e) && s.step == StepNum
    ensures Run(s, e, 1) == Success(Reset(s))
    ensures s.output.Some? && Support(s.output.value) <= Support(s.contour)
  {
    assert Execute(s, e) == Success((Reset(s), false));
  }
}
