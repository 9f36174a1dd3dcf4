/** Training widget: the erosion-size presets of step 4 and the feedback
    that compares a trainee's erosions with reference erosions. Label
    statistics (the centroids, the number of labels) and the similarity
    index of each matched pair are SimpleITK filters and enter as data.
    The labels of both images are 1..n, the numbering the centroid lists
    are indexed by. */
module TrainingWidget {
  import opened Wrappers
  import PyNum
  import ErosionVolumeLogic

  type Point = ErosionVolumeLogic.Point

  /** The two check boxes and the parameters they set. */
  datatype Sizes = Sizes(large: bool, small: bool, minimalRadius: int, distance: int)

  const Initial := Sizes(false, false, 3, 4)

  /** The parameters go with the boxes: (6, 6) for large erosions, (2, 3)
      for small ones, otherwise (3, 4); at most one box is checked. */
  predicate Consistent(s: Sizes) {
    !(s.large && s.small) &&
    (s.minimalRadius, s.distance) == (if s.large then (6, 6) else if s.small then (2, 3) else (3, 4))
  }

  /** onLargeErosionsChecked after a click toggled the large box: checked
      gives (6, 6) and unchecks the small box, unchecked gives (3, 4).
      Setting the other box from code sends no click, so its handler does
      not run. */
  function ClickLarge(s: Sizes): (r: Sizes)
    ensures r.large == !s.large
    ensures r.large ==> !r.small && r.minimalRadius == 6 && r.distance == 6
    ensures !r.large ==> r.small == s.small && r.minimalRadius == 3 && r.distance == 4
  {
    if !s.large then Sizes(true, false, 6, 6) else s.(large := false, minimalRadius := 3, distance := 4)
  }

  /** onSmallErosionsChecked after a click toggled the small box: checked
      gives (2, 3) and unchecks the large box, unchecked gives (3, 4). */
  function ClickSmall(s: Sizes): (r: Sizes)
    ensures r.small == !s.small
    ensures r.small ==> !r.large && r.minimalRadius == 2 && r.distance == 3
    ensures !r.small ==> r.large == s.large && r.minimalRadius == 3 && r.distance == 4
  {
    if !s.small then Sizes(false, true, 2, 3) else s.(small := false, minimalRadius := 3, distance := 4)
  }

  /** The widget starts consistent and every click keeps it so: the radius
      and distance passed to the logic always match the boxes shown. */
  lemma ClicksKeepConsistent(s: Sizes)
    ensures Consistent(Initial)
    ensures Consistent(s) ==> Consistent(ClickLarge(s)) && Consistent(ClickSmall(s))
  {
  }

  /** Any run of clicks from the start, true for the large box and false
      for the small one, leaves the widget consistent. */
  function Clicks(s: Sizes, clicks: seq<bool>): Sizes
    decreases |clicks|
  {
    if |clicks| == 0 then s
    else Clicks(if clicks[0] then ClickLarge(s) else ClickSmall(s), clicks[1..])
  }

  lemma {:induction false} ClicksConsistent(s: Sizes, clicks: seq<bool>)
    requires Consistent(s)
    ensures Consistent(Clicks(s, clicks))
    decreases |clicks|
  {
    if |clicks| > 0 {
      ClicksKeepConsistent(s);
      ClicksConsistent(if clicks[0] then ClickLarge(s) else ClickSmall(s), clicks[1..]);
    }
  }

  /** A reference centroid with a zero coordinate: the relative difference
      divides by it. */
  predicate HasZero(p: Point) {
    p.x == 0.0 || p.y == 0.0 || p.z == 0.0
  }

  /** The relative difference |(ref - c) / ref| is below 0.05 on every
      axis. */
  predicate Close(ref: Point, c: Point)
    requires !HasZero(ref)
  {
    PyNum.Abs((ref.x - c.x) / ref.x) < 0.05 &&
    PyNum.Abs((ref.y - c.y) / ref.y) < 0.05 &&
    PyNum.Abs((ref.z - c.z) / ref.z) < 0.05
  }

  datatype Matched = Unmapped | MappedTo(ref: nat)

  /** The reference label a detected centroid maps to: the last one, in
      label order, whose centroid is close. */
  function LastClose(c: Point, refs: seq<Point>, n: nat): (r: Matched)
    requires n <= |refs|
    requires forall j :: 0 <= j < |refs| ==> !HasZero(refs[j])
    ensures r.MappedTo? ==> (1 <= r.ref <= n && Close(refs[r.ref - 1], c) &&
      forall j :: r.ref <= j < n ==> !Close(refs[j], c))
    ensures r.Unmapped? <==> forall j :: 0 <= j < n ==> !Close(refs[j], c)
  {
    if n == 0 then Unmapped
    else if Close(refs[n - 1], c) then MappedTo(n)
    else LastClose(c, refs, n - 1)
  }

  /** The mapper loop as written: the labels in ascending order, each
      close one overwriting the mapping. */
  function Scan(c: Point, refs: seq<Point>, j: nat, acc: Matched): Matched
    requires j <= |refs|
    requires forall k :: 0 <= k < |refs| ==> !HasZero(refs[k])
    decreases |refs| - j
  {
    if j == |refs| then acc
    else Scan(c, refs, j + 1, if Close(refs[j], c) then MappedTo(j + 1) else acc)
  }

  /** The loop finds the last close reference. */
  lemma {:induction false} ScanFindsLast(c: Point, refs: seq<Point>, j: nat)
    requires j <= |refs|
    requires forall k :: 0 <= k < |refs| ==> !HasZero(refs[k])
    ensures Scan(c, refs, j, LastClose(c, refs, j)) == LastClose(c, refs, |refs|)
    decreases |refs| - j
  {
    if j < |refs| {
      assert LastClose(c, refs, j + 1) == if Close(refs[j], c) then MappedTo(j + 1) else LastClose(c, refs, j);
      ScanFindsLast(c, refs, j + 1);
    }
  }

  /** The mapping of every detected label. Any detected label and a
      reference centroid with a zero coordinate raise ZeroDivisionError
      (None). */
  function MapLabels(cents: seq<Point>, refs: seq<Point>): (r: Option<seq<Matched>>)
    ensures r.None? <==> |cents| > 0 && exists j :: 0 <= j < |refs| && HasZero(refs[j])
    ensures r.Some? ==> (|r.value| == |cents| &&
      forall i :: 0 <= i < |cents| ==> r.value[i] == LastClose(cents[i], refs, |refs|))
  {
    if |cents| == 0 then Some([])
    else if exists j :: 0 <= j < |refs| && HasZero(refs[j]) then None
    else
      var m := seq(|cents|, i requires 0 <= i < |cents| => Scan(cents[i], refs, 0, Unmapped));
      assert forall i :: 0 <= i < |cents| ==> m[i] == LastClose(cents[i], refs, |refs|) by {
        forall i | 0 <= i < |cents|
          ensures m[i] == LastClose(cents[i], refs, |refs|)
        {
          ScanFindsLast(cents[i], refs, 0);
        }
      }
      Some(m)
  }

  /** The flags the per-label loop raises. */
  datatype Flags = Flags(error: bool, sim: bool)

  /** The feedback loop over the detected labels, with their similarity
      indices. A mapped label above 0.9 is correct; at most 0.9 it sets
      both flags. An unmapped label sets the sim flag, and the error flag
      too when unmappedIsError: as written it does not. */
  function Judge(m: seq<Matched>, sims: seq<real>, f: Flags, unmappedIsError: bool): (r: Flags)
    requires |m| == |sims|
    ensures r.error <==> (f.error ||
      (exists k :: 0 <= k < |m| && m[k].MappedTo? && sims[k] <= 0.9) ||
      (unmappedIsError && exists k :: 0 <= k < |m| && m[k].Unmapped?))
    ensures r.sim <==> (f.sim ||
      (exists k :: 0 <= k < |m| && (m[k].Unmapped? || sims[k] <= 0.9)))
    decreases |m|
  {
    if |m| == 0 then f
    else
      var f' := match m[0]
        case Unmapped => Flags(f.error || unmappedIsError, true)
        case MappedTo(_) => if sims[0] > 0.9 then f else Flags(true, true);
      var r := Judge(m[1..], sims[1..], f', unmappedIsError);
      assert forall k :: 1 <= k < |m| ==> m[k] == m[1..][k - 1] && sims[k] == sims[1..][k - 1];
      r
  }

  /** The lines of the message, in order. */
  datatype Line = Mismatch | WrongLocations | NoneDetected | NotAllDetected | TooMany | TooFew | Succeeded

  /** The message head: "Success!" with no error, otherwise "Error" and
      the reasons that apply. */
  function Messages(f: Flags, points: int, detected: int, refCount: int): (r: seq<Line>)
    ensures Succeeded in r <==> !f.error
    ensures f.error ==> (Mismatch in r <==> f.sim)
    ensures f.error ==> (WrongLocations in r <==> f.sim && points == refCount)
    ensures f.error ==> (TooMany in r <==> points > refCount) && (TooFew in r <==> points < refCount)
    ensures f.error ==> ((NoneDetected in r <==> detected == 0) &&
      (NotAllDetected in r <==> detected != 0 && points > detected))
  {
    if !f.error then [Succeeded]
    else SimLines(f.sim, points, refCount) + DetectionLines(points, detected) + CountLines(points, refCount)
  }

  /** The lines on the detected erosions matching the reference. */
  function SimLines(sim: bool, points: int, refCount: int): (r: seq<Line>)
    ensures forall x :: x in r <==> sim && (x == Mismatch || (x == WrongLocations && points == refCount))
  {
    LineIf(sim, Mismatch) + LineIf(sim && points == refCount, WrongLocations)
  }

  /** The lines on erosions missing at the seed points. */
  function DetectionLines(points: int, detected: int): (r: seq<Line>)
    ensures forall x :: x in r <==> (x == NoneDetected && detected == 0) || (x == NotAllDetected && detected != 0 && points > detected)
  {
    LineIf(detected == 0, NoneDetected) + LineIf(detected != 0 && points > detected, NotAllDetected)
  }

  /** The lines on the number of seed points. */
  function CountLines(points: int, refCount: int): (r: seq<Line>)
    ensures forall x :: x in r <==> (x == TooMany && points > refCount) || (x == TooFew && points < refCount)
  {
    LineIf(points > refCount, TooMany) + LineIf(points < refCount, TooFew)
  }

  /** The line l when c holds, and nothing otherwise. */
  function LineIf(c: bool, l: Line): (r: seq<Line>)
    ensures forall x :: x in r <==> c && x == l
  {
    if c then [l] else []
  }

  /** An error from the counts alone, with every detected erosion
      matched: the message names only the missing detection, and not the
      seed locations, although the seed count equals the reference count. */
  lemma CountErrorOnly()
    ensures Messages(Flags(true, false), 2, 1, 2) == [NotAllDetected]
  {
  }

  /** The whole feedback: the start flags from the counts, the mapping,
      the per-label loop and the message. */
  function Feedback(points: int, cents: seq<Point>, refs: seq<Point>, sims: seq<real>, unmappedIsError: bool): (r: Option<(Flags, seq<Line>)>)
    requires |sims| == |cents|
    ensures r.None? <==> MapLabels(cents, refs).None?
    ensures r.Some? ==> (Succeeded in r.value.1 <==> !r.value.0.error)
    ensures r.Some? && r.value.0.error ==>
      (WrongLocations in r.value.1 <==> r.value.0.sim && points == |refs|)
    ensures r.Some? ==> var m := MapLabels(cents, refs).value;
      (r.value.0.error <==> (points > |cents| || points != |refs| ||
        (exists k :: 0 <= k < |m| && m[k].MappedTo? && sims[k] <= 0.9) ||
        (unmappedIsError && exists k :: 0 <= k < |m| && m[k].Unmapped?)))
  {
    match MapLabels(cents, refs)
    case None => None
    case Some(m) =>
      var f := Judge(m, sims, Flags(points > |cents| || points != |refs|, false), unmappedIsError);
      Some((f, Messages(f, points, |cents|, |refs|)))
  }

  /** onGetErosionsButton's feedback as written: a seed whose erosion maps
      to no reference erosion does not raise the error flag. */
  function FeedbackAsWritten(points: int, cents: seq<Point>, refs: seq<Point>, sims: seq<real>): (r: Option<(Flags, seq<Line>)>)
    requires |sims| == |cents|
    ensures r.Some? ==> (Succeeded in r.value.1 <==> !r.value.0.error)
  {
    Feedback(points, cents, refs, sims, false)
  }

  /** The feedback with an unmapped seed counted as an error: "Success!"
      only when the counts agree and every detected erosion matches a
      reference erosion with similarity above 0.9. */
  function CorrectedFeedback(points: int, cents: seq<Point>, refs: seq<Point>, sims: seq<real>): (r: Option<(Flags, seq<Line>)>)
    requires |sims| == |cents|
    ensures r.Some? && Succeeded in r.value.1 ==>
      points == |refs| && points <= |cents| &&
      MapLabels(cents, refs).Some? &&
      forall k :: 0 <= k < |cents| ==> MapLabels(cents, refs).value[k].MappedTo? && sims[k] > 0.9
  {
    Feedback(points, cents, refs, sims, true)
  }

  /** One seed, one detected erosion and one reference erosion far from
      it: the feedback tells the trainee to move the seed, yet the message
      as written is "Success!"; the corrected one reports an error. */
  lemma UnmappedSeedSucceeds()
    ensures var c := ErosionVolumeLogic.Point(10.0, 10.0, 10.0);
      var ref := ErosionVolumeLogic.Point(50.0, 50.0, 50.0);
      FeedbackAsWritten(1, [c], [ref], [0.0]) == Some((Flags(false, true), [Succeeded])) &&
      CorrectedFeedback(1, [c], [ref], [0.0]).Some? &&
      Succeeded !in CorrectedFeedback(1, [c], [ref], [0.0]).value.1
  {
    var c := ErosionVolumeLogic.Point(10.0, 10.0, 10.0);
    var ref := ErosionVolumeLogic.Point(50.0, 50.0, 50.0);
    assert !Close(ref, c);
    assert MapLabels([c], [ref]).value[0] == Unmapped;
    assert MapLabels([c], [ref]).value == [Unmapped];
  }
}
