/** AutomaticContourLogic: validates the user's parameters, hands them to
    a ContourLogic object and drives its step machine, advancing a
    progress value after every step. */
module AutomaticContourLogic {
  import opened Wrappers
  import opened Volumes
  import opened PyNum
  import ContourLogic

  type Contour = ContourLogic.Contour

  /** SimpleITK Cast of an integer label map to UInt8: the value modulo 256. */
  function CastUInt8(v: Volume): (r: Volume)
    ensures r.Keys == v.Keys
    ensures forall i :: i in r ==> 0 <= r[i] < 256
    ensures forall i :: i in r && 0 <= v[i] < 256 ==> r[i] == v[i]
    ensures forall i :: i in r ==> (v[i] - r[i]) % 256 == 0
  {
    map i | i in v :: v[i] % 256
  }

  /** setParameters: None stands for the False it returns when the input
      and output nodes coincide or lower > upper. Otherwise the contour
      object gets the thresholds and bone count (so its step count is
      6*boneNum+1) and the separate map, cast to UInt8, or None. */
  function SetParameters(c: Contour, inputId: string, outputId: string, lower: int, upper: int,
                         boneNum: int, separateMap: Option<Volume>): (r: Option<(Contour, Option<Volume>)>)
    ensures r.None? <==> inputId == outputId || lower > upper
    ensures r.Some? ==>
      var (d, m) := r.value;
      d.lower == lower && d.upper == upper && d.boneNum == boneNum && d.step == c.step &&
      d.stepNum == Some(ContourLogic.StepCount(boneNum)) &&
      d.hasSeparateMap == separateMap.Some? && m.Some? == separateMap.Some? &&
      (m.Some? ==> m.value.Keys == separateMap.value.Keys)
  {
    if inputId == outputId then None
    else if lower > upper then None
    else
      var withThreshold := c.(lower := lower, upper := upper);
      var withBones := ContourLogic.SetBoneNum(withThreshold, boneNum);
      match separateMap
      case None => Some((withBones.(hasSeparateMap := false), None))
      case Some(m) => Some((withBones.(hasSeparateMap := true), Some(CastUInt8(m))))
  }

  /** How getContour's loop ends: execute reported False (with the progress
      reached and the final state), something raised, or the model's call
      budget ran out. */
  datatype Loop = Finished(progress: int, state: Contour) | Exception | Unfinished

  /** getContour's loop: execute while it reports True, adding
      100 // getStepNum() to the progress after each True step. An
      exception from execute, from getStepNum or from the division ends the
      loop as an exception. */
  function RunLoop(c: Contour, e: ContourLogic.Env, fuel: nat, progress: int): (r: Loop)
    requires ContourLogic.Mergeable(c, e.pasted)
    ensures e.raised ==> r != Finished(progress, c) && (fuel > 0 ==> r == Exception)
    decreases fuel
  {
    if fuel == 0 then Unfinished
    else
      var (next, res) := ContourLogic.Execute(c, e);
      if res.Failure? then Exception
      else if !res.value then Finished(progress, next)
      else
        match ContourLogic.GetStepNumAsWritten(next)
        case Failure(_) => Exception
        case Success(n) =>
          if n == 0 then Exception
          else RunLoop(next, e, fuel - 1, progress + FloorDiv(100, n))
  }

  /** getContour: True with the merged output when the loop finishes,
      False when anything raised. */
  function GetContour(c: Contour, e: ContourLogic.Env, fuel: nat): (r: (bool, Option<Volume>))
    requires ContourLogic.Mergeable(c, e.pasted)
    ensures e.raised && fuel > 0 ==> !r.0
    ensures r.0 ==> RunLoop(c, e, fuel, 0).Finished? && r.1 == RunLoop(c, e, fuel, 0).state.output
  {
    match RunLoop(c, e, fuel, 0)
    case Finished(_, s) => (true, s.output)
    case _ => (false, None)
  }

  /** From the end of step 1 with k >= 1 bones, the loop adds the same
      increment 100 // s for each of the remaining 6k steps. */
  lemma {:induction false} LoopBones(c: Contour, e: ContourLogic.Env, fuel: nat, p: int, s: int)
    requires ContourLogic.Mergeable(c, e.pasted) && !e.raised
    requires c.step == 1 && c.boneNum >= 1 && c.stepNum == Some(s) && s != 0
    requires fuel >= 6 * c.boneNum + 1
    ensures RunLoop(c, e, fuel, p).Finished?
    ensures RunLoop(c, e, fuel, p).progress == p + 6 * c.boneNum * FloorDiv(100, s)
    ensures RunLoop(c, e, fuel, p).state.step == 0
    decreases c.boneNum
  {
    var q := FloorDiv(100, s);
    var c2 := LoopTurn(c, e, fuel, p, s);
    var c3 := LoopTurn(c2, e, fuel - 1, p + q, s);
    var c4 := LoopTurn(c3, e, fuel - 2, p + 2 * q, s);
    var c5 := LoopTurn(c4, e, fuel - 3, p + 3 * q, s);
    var c6 := LoopTurn(c5, e, fuel - 4, p + 4 * q, s);
    var c7 := LoopTurn(c6, e, fuel - 5, p + 5 * q, s);
    assert RunLoop(c, e, fuel, p) == RunLoop(c7, e, fuel - 6, p + 6 * q);
    if c.boneNum - 1 > 0 {
      LoopBones(c7, e, fuel - 6, p + 6 * q, s);
      BoneShares(c.boneNum, q);
    } else {
      assert c.boneNum == 1 && c7.step == 7;
      assert ContourLogic.Execute(c7, e) == (c7.(step := 0), Success(false));
      assert RunLoop(c7, e, fuel - 6, p + 6 * q) == Finished(p + 6 * q, c7.(step := 0));
    }
  }

  /** Six increments for this bone and 6(k - 1) for the rest make 6k. */
  lemma BoneShares(k: int, q: int)
    ensures 6 * q + 6 * (k - 1) * q == 6 * k * q
  {
  }

  /** One True step inside a bone's six steps: the counter advances (from
      6 back to 1, or on to 7 after the last bone), the step count stays,
      and the progress grows by 100 // s. */
  lemma LoopTurn(c: Contour, e: ContourLogic.Env, fuel: nat, p: int, s: int) returns (c2: Contour)
    requires ContourLogic.Mergeable(c, e.pasted) && !e.raised
    requires 1 <= c.step <= 6 && c.stepNum == Some(s) && s != 0 && fuel >= 1
    ensures ContourLogic.Mergeable(c2, e.pasted) && c2.stepNum == Some(s)
    ensures c.step < 6 ==> c2.step == c.step + 1 && c2.boneNum == c.boneNum
    ensures c.step == 6 ==> c2.boneNum == c.boneNum - 1 && c2.step == (if c2.boneNum > 0 then 1 else 7)
    ensures RunLoop(c, e, fuel, p) == RunLoop(c2, e, fuel - 1, p + FloorDiv(100, s))
  {
    c2 := ContourLogic.Execute(c, e).0;
  }

  /** A full run after setParameters: the loop finishes, having added
      100 // (6n+1) once for each of the 6n+1 True steps, where n >= 1 is
      the bone count step 1 settles on; so the progress never exceeds 100
      and falls short of it by less than 6n+1. */
  lemma GetContourProgress(c: Contour, e: ContourLogic.Env, fuel: nat)
    requires ContourLogic.Mergeable(c, e.pasted) && !e.raised
    requires c.step == 0 && c.stepNum == Some(ContourLogic.StepCount(c.boneNum))
    requires ContourLogic.Execute(c, e).0.boneNum >= 1
    requires fuel >= ContourLogic.StepCount(ContourLogic.Execute(c, e).0.boneNum) + 1
    ensures var n := ContourLogic.StepCount(ContourLogic.Execute(c, e).0.boneNum);
      RunLoop(c, e, fuel, 0).Finished? &&
      RunLoop(c, e, fuel, 0).progress == n * FloorDiv(100, n) &&
      100 - n < RunLoop(c, e, fuel, 0).progress <= 100
    ensures GetContour(c, e, fuel).0
  {
    var c1 := ContourLogic.Execute(c, e).0;
    var n := ContourLogic.StepCount(c1.boneNum);
    var q := FloorDiv(100, n);
    assert c1.stepNum == Some(n);
    assert RunLoop(c, e, fuel, 0) == RunLoop(c1, e, fuel - 1, q);
    LoopBones(c1, e, fuel - 1, q, n);
    ShareSum(c1.boneNum, q);
  }

  /** One increment and 6k more make n = 6k + 1 increments. */
  lemma ShareSum(k: int, q: int)
    ensures q + 6 * k * q == ContourLogic.StepCount(k) * q
  {
  }
}
