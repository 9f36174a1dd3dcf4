/** FastContourLogic: the contour pipeline with the dilate / fill / erode
    steps replaced by distance-map inflation and deflation, eight steps in
    all, and bones merged by masking instead of or-ing. */
module FastContourLogic {
  import opened Wrappers
  import opened Volumes
  import ContourLogic

  type Contour = ContourLogic.Contour

  /** inflate: voxels whose (given) Maurer distance to the object lies in
      [1, radius] are set to the foreground f and added to the image. */
  function Inflate(img: Volume, dist: Field, radius: int, f: int): (r: Volume)
    requires dist.Keys == img.Keys
    ensures r.Keys == img.Keys
  {
    Add(Band(dist, 1.0, radius as real, f), img)
  }

  /** The Maurer map is not positive on the object it measures from. */
  predicate NotPositiveOn(dist: Field, s: set<Idx>) {
    forall i :: i in s && i in dist ==> dist[i] <= 0.0
  }

  /** inflate grows a 0/f object by exactly the band of voxels at distance
      1..radius, and the result stays a 0/f mask. */
  lemma InflateGrows(img: Volume, dist: Field, radius: int, f: int)
    requires dist.Keys == img.Keys && f > 0 && IsBinary(img, f)
    requires NotPositiveOn(dist, Support(img))
    ensures IsBinary(Inflate(img, dist, radius, f), f)
    ensures Support(Inflate(img, dist, radius, f))
            == Support(img) + set i | i in dist && 1.0 <= dist[i] <= radius as real
  {
    var band := Band(dist, 1.0, radius as real, f);
    var r := Inflate(img, dist, radius, f);
    forall i | i in r ensures r[i] == 0 || r[i] == f {
      if img[i] != 0 { assert i in Support(img); }
    }
  }

  /** deflate: the Maurer map is taken with the foreground as background,
      so it measures from the outside in; object voxels at distance
      1..radius from the outside are removed. */
  function Deflate(img: Volume, dist: Field, radius: int, f: int): (r: Volume)
    requires dist.Keys == img.Keys
    ensures r.Keys == img.Keys
  {
    Sub(img, Band(dist, 1.0, radius as real, f))
  }

  /** deflate removes exactly the object voxels within 1..radius of the
      outside, and the result stays a 0/f mask. */
  lemma DeflateShrinks(img: Volume, dist: Field, radius: int, f: int)
    requires dist.Keys == img.Keys && f > 0 && IsBinary(img, f)
    requires NotPositiveOn(dist, img.Keys - Support(img))
    ensures IsBinary(Deflate(img, dist, radius, f), f)
    ensures Support(Deflate(img, dist, radius, f))
            == Support(img) - set i | i in dist && 1.0 <= dist[i] <= radius as real
  {
    var r := Deflate(img, dist, radius, f);
    forall i | i in r ensures r[i] == 0 || r[i] == f {
      if img[i] == 0 { assert i in img.Keys - Support(img); }
    }
  }

  /** Step 8's merge of a later bone: voxels the new bone labels with
      boneNum take that label; every other voxel keeps the earlier output. */
  function Merge(output: Volume, pasted: Volume, boneNum: int): (r: Volume)
    requires SameGrid(output, pasted)
    ensures r.Keys == output.Keys
    ensures forall i :: i in r ==> r[i] == (if pasted[i] == boneNum then boneNum else output[i])
    ensures Level(pasted, boneNum) <= Level(r, boneNum)
  {
    Mask(output, pasted, boneNum, boneNum)
  }

  /** Labels already written by earlier bones survive a merge wherever the
      new bone does not claim the voxel. */
  lemma MergeKeepsEarlierBones(output: Volume, pasted: Volume, boneNum: int, earlier: int)
    requires SameGrid(output, pasted)
    ensures Level(output, earlier) - Level(pasted, boneNum) <= Level(Merge(output, pasted, boneNum), earlier)
  {
  }

  datatype Env = Env(raised: bool, found: int, pasted: Volume)

  predicate Mergeable(c: Contour, pasted: Volume) {
    c.output.Some? ==> SameGrid(c.output.value, pasted)
  }

  /** One call of execute: steps 1..7 advance, step 3 relabels, step 8
      merges, decrements the bone count and returns to step 3 while bones
      remain; a later step resets to 0 and reports the end; an exception
      resets to 0 and propagates. */
  function Execute(c: Contour, e: Env): (r: (Contour, Result<bool, ContourLogic.Error>))
    requires Mergeable(c, e.pasted)
    ensures e.raised ==> r.0.step == 0 && r.1 == Failure(ContourLogic.Raised)
    ensures !e.raised && 1 <= c.step + 1 <= 7 ==> r.0.step == c.step + 1 && r.1 == Success(true)
    ensures !e.raised && c.step + 1 == 8 ==>
      r.1 == Success(true) && r.0.boneNum == c.boneNum - 1 &&
      r.0.step == (if c.boneNum - 1 > 0 then 3 else 8) && r.0.output.Some?
    ensures !e.raised && (c.step + 1 < 1 || c.step + 1 > 8) ==> r == (c.(step := 0), Success(false))
    ensures Mergeable(r.0, e.pasted)
  {
    var step := c.step + 1;
    if e.raised then
      (c.(step := 0), Failure(ContourLogic.Raised))
    else if step == 1 then
      (c.(step := 1, output := None), Success(true))
    else if step == 3 then
      var relabelled :=
        if c.hasSeparateMap then ContourLogic.SetBoneNum(c, e.found)
        else ContourLogic.RelabelWithConnect(c, e.found);
      (relabelled.(step := 3), Success(true))
    else if 2 <= step <= 7 then
      (c.(step := step), Success(true))
    else if step == 8 then
      var merged := match c.output
        case None => e.pasted
        case Some(o) => Merge(o, e.pasted, c.boneNum);
      var bones := c.boneNum - 1;
      (c.(step := if bones > 0 then 3 else 8, boneNum := bones, output := Some(merged)), Success(true))
    else
      (c.(step := 0), Success(false))
  }

  /** execute as written: step 1 calls `self.binarize` after the cleanup
      and step 6 calls `self.fillHole`, neither of which ContourLogic
      defines (AttributeError); step 2 calls denoise without its
      foreground argument and step 3 calls relabelWithConnect with too few
      and relabelWithMap with too many arguments (TypeError, here Raised).
      Each exception resets the counter to 0 and propagates; the other
      steps are those of Execute. */
  function ExecuteAsWritten(c: Contour, e: Env): (r: (Contour, Result<bool, ContourLogic.Error>))
    requires Mergeable(c, e.pasted)
    ensures c.step + 1 == 1 ==> r == (c.(step := 0, output := None), Failure(ContourLogic.AttributeError))
    ensures c.step + 1 == 6 ==> r == (c.(step := 0), Failure(ContourLogic.AttributeError))
    ensures c.step + 1 == 2 || c.step + 1 == 3 ==> r.0 == c.(step := 0) && r.1.Failure?
    ensures r.1.Success? ==> r == Execute(c, e)
    ensures Mergeable(r.0, e.pasted)
  {
    var step := c.step + 1;
    if step == 1 then (c.(step := 0, output := None), Failure(ContourLogic.AttributeError))
    else if step == 2 || step == 3 then (c.(step := 0), Failure(ContourLogic.Raised))
    else if step == 6 then (c.(step := 0), Failure(ContourLogic.AttributeError))
    else Execute(c, e)
  }

  /** As written no run gets anywhere: from the start the first call fails
      and leaves the counter at 0, so the next call fails the same way,
      whereas the corrected Execute reports True there unless a filter
      raises. */
  lemma AsWrittenNeverStarts(c: Contour, e: Env)
    requires Mergeable(c, e.pasted) && c.step == 0
    ensures ExecuteAsWritten(c, e).1.Failure? && ExecuteAsWritten(c, e).0.step == 0
    ensures ExecuteAsWritten(ExecuteAsWritten(c, e).0, e) == ExecuteAsWritten(c, e)
    ensures !e.raised ==> Execute(c, e).1 == Success(true)
  {
  }

  /** The driver of the run, kept apart from ContourLogic.Drive because it
      calls this module's eight-step Execute rather than the six-step one;
      it counts the calls reporting True. */
  function Drive(c: Contour, e: Env, fuel: nat): (r: (nat, Contour))
    requires Mergeable(c, e.pasted)
    ensures r.0 <= fuel
    decreases fuel
  {
    if fuel == 0 then (0, c)
    else
      var (next, res) := Execute(c, e);
      if res == Success(true) then
        var (k, last) := Drive(next, e, fuel - 1);
        (k + 1, last)
      else (0, next)
  }

  lemma {:induction false} DriveBones(c: Contour, e: Env, fuel: nat)
    requires Mergeable(c, e.pasted) && !e.raised
    requires c.step == 3 && c.boneNum >= 1
    requires fuel >= 5 * c.boneNum + 1
    ensures Drive(c, e, fuel).0 == 5 * c.boneNum
    ensures Drive(c, e, fuel).1.step == 0
    decreases c.boneNum
  {
    var c4 := Execute(c, e).0;
    var c5 := Execute(c4, e).0;
    var c6 := Execute(c5, e).0;
    var c7 := Execute(c6, e).0;
    var c8 := Execute(c7, e).0;
    assert c7.step == 7 && c7.boneNum == c.boneNum;
    assert Drive(c, e, fuel).0 == 1 + Drive(c4, e, fuel - 1).0;
    assert Drive(c4, e, fuel - 1).0 == 1 + Drive(c5, e, fuel - 2).0;
    assert Drive(c5, e, fuel - 2).0 == 1 + Drive(c6, e, fuel - 3).0;
    assert Drive(c6, e, fuel - 3).0 == 1 + Drive(c7, e, fuel - 4).0;
    assert Drive(c7, e, fuel - 4).0 == 1 + Drive(c8, e, fuel - 5).0;
    assert Drive(c, e, fuel).1 == Drive(c8, e, fuel - 5).1;
    if c.boneNum - 1 > 0 {
      DriveBones(c8, e, fuel - 5);
    } else {
      assert c8.step == 8;
      assert Drive(c8, e, fuel - 5) == (0, c8.(step := 0));
    }
  }

  /** A full run reports True 5*boneNum+3 times (steps 1-3 once, steps 4-8
      per bone) and then False; boneNum is the count left by step 3. */
  lemma RunLength(c: Contour, e: Env, fuel: nat)
    requires Mergeable(c, e.pasted) && !e.raised && c.step == 0
    requires Execute(Execute(Execute(c, e).0, e).0, e).0.boneNum >= 1
    requires fuel >= 5 * Execute(Execute(Execute(c, e).0, e).0, e).0.boneNum + 4
    ensures Drive(c, e, fuel).0 == 5 * Execute(Execute(Execute(c, e).0, e).0, e).0.boneNum + 3
    ensures Drive(c, e, fuel).1.step == 0
  {
    var c1 := Execute(c, e).0;
    var c2 := Execute(c1, e).0;
    var c3 := Execute(c2, e).0;
    DriveBones(c3, e, fuel - 3);
    assert Drive(c, e, fuel).0 == 1 + Drive(c1, e, fuel - 1).0;
    assert Drive(c1, e, fuel - 1).0 == 1 + Drive(c2, e, fuel - 2).0;
    assert Drive(c2, e, fuel - 2).0 == 1 + Drive(c3, e, fuel - 3).0;
  }
}
