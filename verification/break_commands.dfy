/** The command lines of the cortical break detection: the single-scan
    Peters scripts (paths, presets, the seed table) and the batch script
    that pairs scans with contours and chooses what to write. */
module BreakCommands {
  import opened Wrappers
  import opened Volumes
  import PyStr
  import Paths
  import CommandPaths
  import PetersBreaks

  const ContourMarker := "_MASK.mha"
  const OutputMarker := "_BREAKS.nrrd"
  const SeedsMarker := "_SEEDS.csv"

  /** The seeds path as written: the default becomes the input's stem plus
      the marker; any other path is checked with seeds_dir[-4] != ".csv",
      which compares one character with a four-character string, so ".csv"
      is always appended; a path shorter than four characters raises
      IndexError (None). */
  function SeedsPathAsWritten(input: string, arg: string): (r: Option<string>)
    ensures arg == SeedsMarker ==> r == CommandPaths.Derived(input, SeedsMarker)
    ensures arg != SeedsMarker ==> (r.None? <==> |arg| < 4)
  {
    if arg == SeedsMarker then CommandPaths.Derived(input, SeedsMarker)
    else if |arg| < 4 then None
    else if [arg[|arg| - 4]] != ".csv" then Some(arg + ".csv")
    else Some(arg)
  }

  /** Every explicit seeds path of four or more characters gets ".csv"
      appended, so "out.csv" becomes "out.csv.csv". */
  lemma SeedsPathAlwaysAppends(input: string, arg: string)
    requires arg != SeedsMarker && |arg| >= 4
    ensures SeedsPathAsWritten(input, arg) == Some(arg + ".csv")
    ensures PyStr.EndsWith(arg, ".csv") ==> PyStr.EndsWith(SeedsPathAsWritten(input, arg).value, ".csv.csv")
  {
    assert |[arg[|arg| - 4]]| != |".csv"|;
    if PyStr.EndsWith(arg, ".csv") {
      var r := arg + ".csv";
      assert r[|r| - 8..] == arg[|arg| - 4..] + ".csv";
    }
  }

  /** The seeds path as intended: ".csv" is appended only when the path
      does not already end with it. */
  function SeedsPath(input: string, arg: string): (r: Option<string>)
    ensures arg == SeedsMarker ==> r == CommandPaths.Derived(input, SeedsMarker)
    ensures arg != SeedsMarker ==> r.Some?
    ensures r.Some? ==> PyStr.EndsWith(r.value, ".csv")
    ensures arg != SeedsMarker && PyStr.EndsWith(arg, ".csv") ==> r == Some(arg)
    ensures arg != SeedsMarker && !PyStr.EndsWith(arg, ".csv") ==> r == Some(arg + ".csv")
  {
    if arg == SeedsMarker then
      var d := CommandPaths.Derived(input, SeedsMarker);
      assert d.Some? ==> PyStr.EndsWith(d.value, ".csv") by {
        if d.Some? {
          var v := d.value;
          assert v[|v| - 4..] == v[|v| - |SeedsMarker|..][6..];
        }
      }
      d
    else if PyStr.EndsWith(arg, ".csv") then Some(arg)
    else Some(arg + ".csv")
  }

  /** Feeding the fixed path back in changes nothing. */
  lemma SeedsPathIdempotent(input: string, arg: string)
    requires SeedsPath(input, arg).Some? && SeedsPath(input, arg).value != SeedsMarker
    ensures SeedsPath(input, SeedsPath(input, arg).value) == SeedsPath(input, arg)
  {
  }

  datatype BreakPaths = BreakPaths(contour: string, output: string, seeds: string)

  /** The Peters command lines' paths as written: the contour, output and
      seeds markers default to the input's stem plus the marker, an output
      without '.' gets ".nrrd", and an explicit seeds path always gets
      ".csv" appended, or raises IndexError under four characters. */
  function PetersPaths(input: string, contour: string, output: string, seeds: string): (r: Option<BreakPaths>)
    ensures r.None? <==>
      ('.' !in input && (contour == ContourMarker || output == OutputMarker || seeds == SeedsMarker)) ||
      (seeds != SeedsMarker && |seeds| < 4)
    ensures r.Some? ==> '.' in r.value.output && PyStr.EndsWith(r.value.seeds, ".csv")
    ensures r.Some? && seeds != SeedsMarker ==> r.value.seeds == seeds + ".csv"
    ensures r.Some? && contour != ContourMarker ==> r.value.contour == contour
    ensures r.Some? && output != OutputMarker && '.' in output ==> r.value.output == output
  {
    var c := CommandPaths.InputPath(input, contour, ContourMarker);
    assert '.' in OutputMarker[7..] && '.' in ".nrrd";
    var o := CommandPaths.OutputPath(input, output, OutputMarker, ".nrrd");
    var s := SeedsPathAsWritten(input, seeds);
    SeedsAsWrittenCsv(input, seeds);
    if c.Some? && o.Some? && s.Some? then Some(BreakPaths(c.value, o.value, s.value)) else None
  }

  /** As written the seeds path, when there is one, ends in ".csv". */
  lemma SeedsAsWrittenCsv(input: string, seeds: string)
    ensures SeedsPathAsWritten(input, seeds).Some? ==> PyStr.EndsWith(SeedsPathAsWritten(input, seeds).value, ".csv")
  {
    if seeds == SeedsMarker {
      assert SeedsPathAsWritten(input, seeds) == SeedsPath(input, seeds);
    } else if |seeds| >= 4 {
      SeedsPathAlwaysAppends(input, seeds);
      var v := seeds + ".csv";
      assert v[|v| - 4..] == ".csv";
    }
  }

  /** The same paths with the seeds path fixed as intended: no explicit
      seeds path fails, and one already ending in ".csv" is kept. */
  function PetersPathsCorrected(input: string, contour: string, output: string, seeds: string): (r: Option<BreakPaths>)
    ensures r.None? <==> '.' !in input && (contour == ContourMarker || output == OutputMarker || seeds == SeedsMarker)
    ensures r.Some? ==> '.' in r.value.output && PyStr.EndsWith(r.value.seeds, ".csv")
    ensures r.Some? && seeds != SeedsMarker && PyStr.EndsWith(seeds, ".csv") ==> r.value.seeds == seeds
    ensures r.Some? && contour != ContourMarker ==> r.value.contour == contour
    ensures r.Some? && output != OutputMarker && '.' in output ==> r.value.output == output
  {
    var c := CommandPaths.InputPath(input, contour, ContourMarker);
    assert '.' in OutputMarker[7..] && '.' in ".nrrd";
    var o := CommandPaths.OutputPath(input, output, OutputMarker, ".nrrd");
    var s := SeedsPath(input, seeds);
    if c.Some? && o.Some? && s.Some? then Some(BreakPaths(c.value, o.value, s.value)) else None
  }

  /** The parameters a scanner preset sets. */
  datatype Setting = Setting(voxelSize: real, thickness: int, distance: int)

  /** The Peters command line's presets: 1 (XCT I) sets 82 um, thickness 4
      and distance 1; 2 (XCT II) sets 60.7 um, 5 and 2; anything else keeps
      the arguments. */
  function PetersPreset(preset: Option<int>, given: Setting): (r: Setting)
    ensures preset == Some(1) ==> r == Setting(82.0, 4, 1)
    ensures preset == Some(2) ==> r == Setting(60.7, 5, 2)
    ensures preset != Some(1) && preset != Some(2) ==> r == given
  {
    if preset == Some(1) then Setting(82.0, 4, 1)
    else if preset == Some(2) then Setting(60.7, 5, 2)
    else given
  }

  /** What the presets mean for the break filter: XCT I keeps breaks of 20
      voxels and more, XCT II of 49 and more, whatever was passed. */
  lemma PresetBreakSizes(given: Setting)
    ensures PetersBreaks.MinBreakSize(PetersPreset(Some(1), given).voxelSize) == 20
    ensures PetersBreaks.MinBreakSize(PetersPreset(Some(2), given).voxelSize) == 49
  {
    PetersBreaks.MinBreakSizes();
  }

  /** The batch script's presets: XCT I sets 82, 4 and 2; XCT II sets 60.7,
      5 and 3. */
  function BatchPreset(preset: Option<int>, given: Setting): (r: Setting)
    ensures preset == Some(1) ==> r == Setting(82.0, 4, 2)
    ensures preset == Some(2) ==> r == Setting(60.7, 5, 3)
    ensures preset != Some(1) && preset != Some(2) ==> r == given
  {
    if preset == Some(1) then Setting(82.0, 4, 2)
    else if preset == Some(2) then Setting(60.7, 5, 3)
    else given
  }

  /** The two scripts agree on everything but the dilate/erode distance,
      which the batch script sets one higher. */
  lemma PresetsDiffer(preset: int, given: Setting)
    requires preset == 1 || preset == 2
    ensures BatchPreset(Some(preset), given).voxelSize == PetersPreset(Some(preset), given).voxelSize
    ensures BatchPreset(Some(preset), given).thickness == PetersPreset(Some(preset), given).thickness
    ensures BatchPreset(Some(preset), given).distance == PetersPreset(Some(preset), given).distance + 1
  {
  }

  /** The seed table: row i is [i] followed by the seed's coordinates. */
  function SeedRows(seeds: seq<Idx>): (rows: seq<seq<int>>)
    ensures |rows| == |seeds|
    ensures forall i :: 0 <= i < |rows| ==> |rows[i]| == 4 && rows[i][0] == i
    ensures forall i :: 0 <= i < |rows| ==> Idx(rows[i][1], rows[i][2], rows[i][3]) == seeds[i]
  {
    seq(|seeds|, i requires 0 <= i < |seeds| => [i, seeds[i].x, seeds[i].y, seeds[i].z])
  }

  /** csv.writer's line for a row of integers. */
  function CsvLine(row: seq<int>): string {
    PyStr.Join(seq(|row|, k requires 0 <= k < |row| => PyStr.IntToString(row[k])), ",")
  }

  /** Reading a line back: split on ',' and int() each field. */
  function ReadRow(line: string): Option<seq<int>> {
    ParseAll(PyStr.Split(line, ','))
  }

  function ParseAll(fields: seq<string>): (r: Option<seq<int>>)
    ensures r.Some? ==> |r.value| == |fields|
  {
    if |fields| == 0 then Some([])
    else
      match (PyStr.ParseInt(fields[0]), ParseAll(fields[1..]))
      case (Some(n), Some(rest)) => Some([n] + rest)
      case _ => None
  }

  lemma {:induction false} ParseAllInts(row: seq<int>)
    ensures ParseAll(seq(|row|, k requires 0 <= k < |row| => PyStr.IntToString(row[k]))) == Some(row)
  {
    var fields := seq(|row|, k requires 0 <= k < |row| => PyStr.IntToString(row[k]));
    if |row| > 0 {
      PyStr.ParseIntToString(row[0]);
      ParseAllInts(row[1..]);
      assert fields[1..] == seq(|row[1..]|, k requires 0 <= k < |row[1..]| => PyStr.IntToString(row[1..][k]));
      assert [row[0]] + row[1..] == row;
    }
  }

  /** A written row reads back as the same integers. */
  lemma RowRoundTrip(row: seq<int>)
    requires |row| >= 1
    ensures ReadRow(CsvLine(row)) == Some(row)
  {
    var fields := seq(|row|, k requires 0 <= k < |row| => PyStr.IntToString(row[k]));
    forall k | 0 <= k < |fields|
      ensures ',' !in fields[k]
    {
      CommandPaths.NoCommaInInt(row[k]);
    }
    PyStr.SplitJoin(fields, ',');
    ParseAllInts(row);
  }

  /** Each line of the seeds file reads back as its index and seed. */
  lemma SeedTableRoundTrip(seeds: seq<Idx>, i: int)
    requires 0 <= i < |seeds|
    ensures ReadRow(CsvLine(SeedRows(seeds)[i])) == Some([i, seeds[i].x, seeds[i].y, seeds[i].z])
  {
    RowRoundTrip(SeedRows(seeds)[i]);
  }

  /** The seeds folder of the batch script: the output folder unless one
      is given. */
  function SeedsFolder(arg: Option<string>, outputFolder: string): (r: string)
    ensures arg.None? || arg.value == "" ==> r == outputFolder
    ensures arg.Some? && arg.value != "" ==> r == arg.value
  {
    if arg.None? || arg.value == "" then outputFolder else arg.value
  }

  /** The contours of a scan: the names in the contour folder that contain
      the scan's name without its extension, in listing order. */
  function ContoursFor(file: string, contours: seq<string>): (r: seq<string>)
    ensures |r| <= |contours|
    ensures forall c :: c in r <==> c in contours && PyStr.Contains(c, Paths.Splitext(file).0)
  {
    if |contours| == 0 then []
    else
      var rest := ContoursFor(file, contours[1..]);
      assert forall c :: c in contours <==> c == contours[0] || c in contours[1..];
      if PyStr.Contains(contours[0], Paths.Splitext(file).0) then [contours[0]] + rest else rest
  }

  /** The files written for one contour: the breaks image for output type
      1 or 3, the erosions image for 2 or 3, and always the seeds table. */
  function OutputFiles(outputTypes: int, outputFolder: string, seedsFolder: string, contour: string): (r: seq<string>)
    ensures |r| >= 1 && r[|r| - 1] == seedsFolder + "/" + Paths.Splitext(contour).0 + "_SEEDS.csv"
    ensures outputFolder + "/" + Paths.Splitext(contour).0 + "_BREAKS.mha" in r[..|r| - 1] <==> outputTypes == 1 || outputTypes == 3
    ensures outputFolder + "/" + Paths.Splitext(contour).0 + "_EROSIONS.mha" in r[..|r| - 1] <==> outputTypes == 2 || outputTypes == 3
    ensures |r| == 1 <==> outputTypes !in {1, 2, 3}
  {
    var stem := Paths.Splitext(contour).0;
    var breaks := outputFolder + "/" + stem + "_BREAKS.mha";
    var erosions := outputFolder + "/" + stem + "_EROSIONS.mha";
    assert breaks != erosions by {
      assert |breaks| != |erosions|;
    }
    var images := (if outputTypes == 1 || outputTypes == 3 then [breaks] else []) +
                  (if outputTypes == 2 || outputTypes == 3 then [erosions] else []);
    var r := images + [seedsFolder + "/" + stem + "_SEEDS.csv"];
    assert r[..|r| - 1] == images;
    r
  }
}
