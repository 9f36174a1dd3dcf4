/** The path handling of the command-line drivers: defaults derived from
    the input path, extension fixing, the seed file reader of the erosion
    and void-volume command lines, the batch contour file filter and the
    file converter's selection and output names. */
module CommandPaths {
  import opened Wrappers
  import opened Volumes
  import PyStr
  import PyFloat
  import PyNum
  import Paths

  /** input[:input.index('.')] + suffix, the default of a path argument;
      None stands for the ValueError of an input path without '.'. */
  function Derived(input: string, suffix: string): (r: Option<string>)
    ensures r.None? <==> '.' !in input
    ensures r.Some? ==> PyStr.EndsWith(r.value, suffix)
    ensures r.Some? ==> var stem := r.value[..|r.value| - |suffix|];
      '.' !in stem && |stem| < |input| && input[..|stem| + 1] == stem + "."
  {
    match PyStr.BeforeFirst(input, '.')
    case None => None
    case Some(stem) =>
      assert input[..|stem| + 1] == input[..|stem|] + [input[|stem|]];
      assert (stem + suffix)[..|stem|] == stem;
      Some(stem + suffix)
  }

  /** A path without '.' gets ext appended; one with '.' is kept. */
  function WithExtension(path: string, ext: string): (r: string)
    ensures '.' in path ==> r == path
    ensures '.' !in path ==> r == path + ext
  {
    if PyStr.Find(path, '.') == -1 then path + ext else path
  }

  /** With an extension that has a dot, the fixed path has a dot, and fixing
      it again changes nothing. */
  lemma WithExtensionIdempotent(path: string, ext: string)
    ensures '.' in ext ==> '.' in WithExtension(path, ext)
    ensures '.' in ext ==> WithExtension(WithExtension(path, ext), ext) == WithExtension(path, ext)
  {
    if '.' !in path && '.' in ext {
      var k :| 0 <= k < |ext| && ext[k] == '.';
      assert (path + ext)[|path| + k] == '.';
    }
  }

  /** An input path argument: the marker default becomes the input's stem
      plus the marker; anything else is used as given. */
  function InputPath(input: string, arg: string, marker: string): (r: Option<string>)
    ensures arg != marker ==> r == Some(arg)
    ensures arg == marker ==> r == Derived(input, marker)
  {
    if arg == marker then Derived(input, marker) else Some(arg)
  }

  /** An output path argument: the marker default becomes the input's stem
      plus the marker, and a path without '.' gets ext. */
  function OutputPath(input: string, arg: string, marker: string, ext: string): (r: Option<string>)
    ensures r.None? <==> arg == marker && '.' !in input
    ensures '.' in marker && '.' in ext && r.Some? ==> '.' in r.value
    ensures arg != marker && '.' in arg ==> r == Some(arg)
  {
    if arg == marker then Derived(input, marker)
    else
      WithExtensionIdempotent(arg, ext);
      Some(WithExtension(arg, ext))
  }

  /** A marker that has a dot leaves one in the derived path. */
  lemma DerivedHasDot(input: string, marker: string)
    requires '.' in marker && '.' in input
    ensures '.' in Derived(input, marker).value
  {
    var r := Derived(input, marker).value;
    var k :| 0 <= k < |marker| && marker[k] == '.';
    assert r[|r| - |marker|..][k] == '.';
  }

  datatype ErosionPaths = ErosionPaths(mask: string, output: string, seeds: string)

  /** The erosion volume and void volume command lines: mask "_MASK.mha",
      output "_ER.nrrd" (".nrrd" added to a path without '.') and seeds
      "_SEEDS.csv" default to the input's stem plus the marker. */
  function ErosionVolumePaths(input: string, mask: string, output: string, seeds: string): (r: Option<ErosionPaths>)
    ensures r.None? <==> '.' !in input && (mask == "_MASK.mha" || output == "_ER.nrrd" || seeds == "_SEEDS.csv")
    ensures r.Some? ==> '.' in r.value.output
    ensures r.Some? && mask != "_MASK.mha" ==> r.value.mask == mask
    ensures r.Some? && seeds != "_SEEDS.csv" ==> r.value.seeds == seeds
    ensures r.Some? && seeds == "_SEEDS.csv" ==> PyStr.EndsWith(r.value.seeds, "_SEEDS.csv")
  {
    var m := InputPath(input, mask, "_MASK.mha");
    var o := OutputPath(input, output, "_ER.nrrd", ".nrrd");
    var s := InputPath(input, seeds, "_SEEDS.csv");
    assert '.' in "_ER.nrrd"[3..] && '.' in ".nrrd";
    if m.Some? && o.Some? && s.Some? then Some(ErosionPaths(m.value, o.value, s.value)) else None
  }

  /** The header lines of a Slicer markups file. */
  const Header := 3

  /** One seed line: int(float(c)) of columns 1..3; too few columns (an
      IndexError) or a column float() rejects give None. */
  function SeedOf(line: string): Option<Idx> {
    SeedOfColumns(PyStr.Split(line, ','))
  }

  function SeedOfColumns(cols: seq<string>): (r: Option<Idx>)
    ensures r.Some? ==> |cols| >= 4
  {
    if |cols| < 4 then None
    else
      match (PyFloat.Parse(cols[1]), PyFloat.Parse(cols[2]), PyFloat.Parse(cols[3]))
      case (Some(x), Some(y), Some(z)) => Some(Idx(PyNum.Trunc(x), PyNum.Trunc(y), PyNum.Trunc(z)))
      case _ => None
  }

  /** The line reader shared by the command lines: skip the header lines
      and parse each remaining line in file order; a line that fails
      anywhere aborts the read. */
  function ReadLines<T>(lines: seq<string>, parse: string -> Option<T>): (r: Option<seq<T>>)
    ensures r.Some? <==> forall k :: Header <= k < |lines| ==> parse(lines[k]).Some?
    ensures r.Some? ==> |r.value| == if |lines| <= Header then 0 else |lines| - Header
    ensures r.Some? ==> forall k :: 0 <= k < |r.value| ==> r.value[k] == parse(lines[Header + k]).value
  {
    if forall k :: Header <= k < |lines| ==> parse(lines[k]).Some? then
      var n := if |lines| <= Header then 0 else |lines| - Header;
      Some(seq(n, k requires 0 <= k < n => parse(lines[Header + k]).value))
    else None
  }

  /** The seed file reader of the erosion and void volume command lines. */
  function ReadSeeds(lines: seq<string>): Option<seq<Idx>> {
    ReadLines(lines, SeedOf)
  }

  /** A markups line: an id, the three coordinates written as integers,
      and further columns. */
  function MarkupLine(id: string, p: Idx, rest: seq<string>): string {
    PyStr.Join([id, PyStr.IntToString(p.x), PyStr.IntToString(p.y), PyStr.IntToString(p.z)] + rest, ",")
  }

  lemma NoCommaInInt(n: int)
    ensures ',' !in PyStr.IntToString(n)
  {
    var s := PyStr.IntToString(n);
    if n < 0 {
      assert PyStr.AllDigits(s[1..]);
      assert forall k :: 1 <= k < |s| ==> s[k] == s[1..][k - 1];
    }
  }

  /** A line written with integer coordinates reads back as that seed. */
  lemma SeedOfMarkupLine(id: string, p: Idx, rest: seq<string>)
    requires ',' !in id && forall k :: 0 <= k < |rest| ==> ',' !in rest[k]
    ensures SeedOf(MarkupLine(id, p, rest)) == Some(p)
  {
    var parts := [id, PyStr.IntToString(p.x), PyStr.IntToString(p.y), PyStr.IntToString(p.z)] + rest;
    MarkupColumns(id, p, rest);
    assert PyStr.Split(MarkupLine(id, p, rest), ',') == parts;
    ColumnsOfInts(parts, p);
  }

  lemma MarkupColumns(id: string, p: Idx, rest: seq<string>)
    requires ',' !in id && forall k :: 0 <= k < |rest| ==> ',' !in rest[k]
    ensures PyStr.Split(MarkupLine(id, p, rest), ',') ==
      [id, PyStr.IntToString(p.x), PyStr.IntToString(p.y), PyStr.IntToString(p.z)] + rest
  {
    var parts := [id, PyStr.IntToString(p.x), PyStr.IntToString(p.y), PyStr.IntToString(p.z)] + rest;
    NoCommaInInt(p.x);
    NoCommaInInt(p.y);
    NoCommaInInt(p.z);
    assert forall k :: 0 <= k < |parts| ==> ',' !in parts[k] by {
      forall k | 0 <= k < |parts| ensures ',' !in parts[k] {
        if k >= 4 {
          assert parts[k] == rest[k - 4];
        }
      }
    }
    PyStr.SplitJoin(parts, ',');
  }

  lemma ColumnsOfInts(cols: seq<string>, p: Idx)
    requires |cols| >= 4
    requires cols[1] == PyStr.IntToString(p.x) && cols[2] == PyStr.IntToString(p.y) && cols[3] == PyStr.IntToString(p.z)
    ensures SeedOfColumns(cols) == Some(p)
  {
    PyFloat.ReadBackInt(p.x);
    PyFloat.ReadBackInt(p.y);
    PyFloat.ReadBackInt(p.z);
  }

  /** Writing seeds with integer coordinates after any three header lines
      and reading the file back gives the seeds, in order. */
  lemma ReadWrittenSeeds(header: seq<string>, ids: seq<string>, seeds: seq<Idx>, rest: seq<string>)
    requires |header| == Header && |ids| == |seeds|
    requires forall k :: 0 <= k < |ids| ==> ',' !in ids[k]
    requires forall k :: 0 <= k < |rest| ==> ',' !in rest[k]
    ensures ReadSeeds(header + seq(|seeds|, k requires 0 <= k < |seeds| => MarkupLine(ids[k], seeds[k], rest))) == Some(seeds)
  {
    var body := seq(|seeds|, k requires 0 <= k < |seeds| => MarkupLine(ids[k], seeds[k], rest));
    LinesParse(ids, seeds, rest, body);
    ReadBodyOf(header, body, SeedOf, seeds);
  }

  /** Each written line parses back to its seed. */
  lemma LinesParse(ids: seq<string>, seeds: seq<Idx>, rest: seq<string>, body: seq<string>)
    requires |ids| == |seeds| == |body|
    requires forall k :: 0 <= k < |ids| ==> ',' !in ids[k]
    requires forall k :: 0 <= k < |rest| ==> ',' !in rest[k]
    requires forall k :: 0 <= k < |body| ==> body[k] == MarkupLine(ids[k], seeds[k], rest)
    ensures forall k :: 0 <= k < |body| ==> SeedOf(body[k]) == Some(seeds[k])
  {
    forall k | 0 <= k < |body|
      ensures SeedOf(body[k]) == Some(seeds[k])
    {
      LineParses(body[k], ids[k], seeds[k], rest);
    }
  }

  lemma LineParses(line: string, id: string, p: Idx, rest: seq<string>)
    requires ',' !in id && forall k :: 0 <= k < |rest| ==> ',' !in rest[k]
    requires line == MarkupLine(id, p, rest)
    ensures SeedOf(line) == Some(p)
  {
    SeedOfMarkupLine(id, p, rest);
  }

  /** Header lines followed by lines that each parse to the given values
      are read as exactly those values. */
  lemma ReadBodyOf<T>(header: seq<string>, body: seq<string>, parse: string -> Option<T>, values: seq<T>)
    requires |header| == Header && |body| == |values|
    requires forall k :: 0 <= k < |body| ==> parse(body[k]) == Some(values[k])
    ensures ReadLines(header + body, parse) == Some(values)
  {
    var lines := header + body;
    assert forall k :: Header <= k < |lines| ==> lines[k] == body[k - Header];
    var r := ReadLines(lines, parse);
    assert r.Some?;
    assert |r.value| == |values|;
    forall k | 0 <= k < |values|
      ensures r.value[k] == values[k]
    {
      assert lines[Header + k] == body[k];
    }
    assert r.value == values;
  }

  /** The automatic contour and contour command lines: no output (None or
      empty) gives the input's stem + "_MASK.mha"; a path without '.' gets
      ".mha"; anything else is kept. */
  function ContourOutput(input: string, arg: Option<string>): (r: Option<string>)
    ensures (arg.None? || arg.value == "") ==> r == Derived(input, "_MASK.mha")
    ensures arg.Some? && arg.value != "" ==> r.Some? && '.' in r.value
    ensures arg.Some? && '.' in arg.value ==> r == arg
  {
    if arg.None? || arg.value == "" then Derived(input, "_MASK.mha")
    else
      WithExtensionIdempotent(arg.value, ".mha");
      assert '.' in ".mha";
      Some(WithExtension(arg.value, ".mha"))
  }

  /** The rough mask argument: the empty default means no rough mask. */
  function RoughMaskPath(arg: string): (r: Option<string>)
    ensures r.None? <==> arg == ""
    ensures r.Some? ==> r.value == arg
  {
    if arg == "" then None else Some(arg)
  }

  /** The extensions the batch contour script processes. */
  const FileExtensions := ["mha", "nii"]
  const MaskPostfix := "_MASK"
  const RoughMaskPostfix := "_separated"

  /** The batch contour filter as written: the lower-cased splitext
      extension (which keeps its leading '.') must be in FileExtensions,
      and the base name must not carry a mask postfix. No file passes: the
      extension is empty or starts with '.', and neither "mha" nor "nii"
      does. */
  function AcceptsAsWritten(file: string): (r: bool)
    ensures !r
  {
    var (base, ext) := Paths.Splitext(file);
    var low := PyStr.Lower(ext);
    assert low !in FileExtensions by {
      if |ext| > 0 {
        assert low[0] == PyStr.LowerChar('.') == '.';
      }
    }
    low in FileExtensions && !PyStr.Contains(base, MaskPostfix) && !PyStr.Contains(base, RoughMaskPostfix)
  }

  /** The filter as intended: the extension without its dot, lower-cased,
      is "mha" or "nii". An accepted name ends in '.' and three characters
      that lower-case to one of them. */
  function Accepts(file: string): (r: bool)
    ensures r ==> |file| >= 4 && file[|file| - 4] == '.' && PyStr.Lower(file[|file| - 3..]) in FileExtensions
  {
    var (base, ext) := Paths.Splitext(file);
    if |ext| > 0 && PyStr.Lower(ext[1..]) in FileExtensions &&
       !PyStr.Contains(base, MaskPostfix) && !PyStr.Contains(base, RoughMaskPostfix) then
      assert |ext| == 4;
      assert file[|file| - 4] == ext[0] && file[|file| - 3..] == ext[1..];
      true
    else false
  }

  /** "scan.mha" is skipped as written and processed as intended. */
  lemma ScanSkipped()
    ensures !AcceptsAsWritten("scan.mha") && Accepts("scan.mha")
  {
    ScanParts();
    AcceptsExtension("scan", ".mha");
    assert PyStr.Lower("mha") == "mha";
    NotContainsLonger("scan", MaskPostfix);
    NotContainsLonger("scan", RoughMaskPostfix);
  }

  lemma ScanParts()
    ensures "scan.mha" == "scan" + ".mha"
    ensures '.' !in ".mha"[1..] && '/' !in ".mha"
    ensures Paths.NonDotBetween("scan", Paths.RFind("scan", '/'), 4)
  {
    assert Paths.RFind("scan", '/') == -1;
    assert "scan"[0] != '.';
  }

  /** A string never contains a longer one. */
  lemma {:induction false} NotContainsLonger(s: string, needle: string)
    requires |s| < |needle|
    ensures !PyStr.Contains(s, needle)
    decreases |s|
  {
    if |s| > 0 {
      NotContainsLonger(s[1..], needle);
    }
  }

  /** A scan named root + ext, ext one dot and a suffix, is processed
      exactly when the suffix lower-cases to "mha" or "nii" and root has no
      mask postfix. */
  lemma AcceptsExtension(root: string, ext: string)
    requires |ext| >= 1 && ext[0] == '.' && '.' !in ext[1..] && '/' !in ext
    requires Paths.NonDotBetween(root, Paths.RFind(root, '/'), |root|)
    ensures Accepts(root + ext) <==>
      PyStr.Lower(ext[1..]) in FileExtensions && !PyStr.Contains(root, MaskPostfix) && !PyStr.Contains(root, RoughMaskPostfix)
  {
    Paths.SplitextOfExtension(root, ext);
  }

  /** The output name as intended: out_dir/base + "_MASK." + extension. */
  function BatchOutput(outDir: string, file: string): (r: string)
    requires Accepts(file)
    ensures PyStr.EndsWith(r, Paths.Splitext(file).0 + MaskPostfix + "." + PyStr.Lower(Paths.Splitext(file).1[1..]))
  {
    var (base, ext) := Paths.Splitext(file);
    Paths.Join(outDir, base + MaskPostfix + "." + PyStr.Lower(ext[1..]))
  }

  /** The scan extensions the file converter picks up from a directory. */
  const ScancoExtensions := [".aim", ".AIM", ".isq", ".ISQ"]

  /** The files of a directory listing with a Scanco extension, as
      folder/name, in listing order. */
  function DirectoryScans(folder: string, listing: seq<string>): (r: seq<string>)
    ensures |r| <= |listing|
    ensures forall f :: f in r <==> exists g :: g in listing && Paths.Splitext(g).1 in ScancoExtensions && f == folder + "/" + g
  {
    if |listing| == 0 then []
    else
      var rest := DirectoryScans(folder, listing[1..]);
      assert forall g :: g in listing <==> g == listing[0] || g in listing[1..];
      if Paths.Splitext(listing[0]).1 in ScancoExtensions then [folder + "/" + listing[0]] + rest else rest
  }

  /** The converter's file selection: a mode containing 'd' lists the
      first path's Scanco files; otherwise one containing 'f' takes the
      paths as given; any other mode leaves the list undefined (None). */
  function SelectFiles(mode: string, paths: seq<string>, listing: seq<string>): (r: Option<seq<string>>)
    requires |paths| >= 1
    ensures r.None? <==> !PyStr.Contains(PyStr.Lower(mode), "d") && !PyStr.Contains(PyStr.Lower(mode), "f")
    ensures PyStr.Contains(PyStr.Lower(mode), "d") ==> r == Some(DirectoryScans(paths[0], listing))
    ensures !PyStr.Contains(PyStr.Lower(mode), "d") && PyStr.Contains(PyStr.Lower(mode), "f") ==> r == Some(paths)
  {
    var m := PyStr.Lower(mode);
    if PyStr.Contains(m, "d") then Some(DirectoryScans(paths[0], listing))
    else if PyStr.Contains(m, "f") then Some(paths)
    else None
  }

  /** An output format other than ".mha" or ".nii" becomes ".mha". */
  function OutputFormat(fmt: string): (r: string)
    ensures r == ".mha" || r == ".nii"
    ensures fmt == ".mha" || fmt == ".nii" ==> r == fmt
  {
    if fmt in [".mha", ".nii"] then fmt else ".mha"
  }

  /** The converted file's path: folder/name + fmt when an output folder
      is given, else the input path without its extension + fmt. */
  function ConvertedPath(file: string, folder: Option<string>, fmt: string): (r: string)
    ensures PyStr.EndsWith(r, fmt)
  {
    var root := Paths.Splitext(file).0;
    if folder.Some? && folder.value != "" then folder.value + "/" + Paths.Basename(root) + fmt
    else root + fmt
  }

  /** For a scan root + ext the converted path replaces the extension, in
      place or under the output folder with root's last component. */
  lemma ConvertedPathOf(root: string, ext: string, folder: Option<string>, fmt: string)
    requires |ext| >= 1 && ext[0] == '.' && '.' !in ext[1..] && '/' !in ext
    requires Paths.NonDotBetween(root, Paths.RFind(root, '/'), |root|)
    ensures folder.None? || folder.value == "" ==> ConvertedPath(root + ext, folder, fmt) == root + fmt
    ensures folder.Some? && folder.value != "" ==>
      ConvertedPath(root + ext, folder, fmt) == folder.value + "/" + Paths.Basename(root) + fmt
  {
    Paths.SplitextOfExtension(root, ext);
  }

  /** The progress after k of n files: 100 / n added per file. */
  function Progress(k: nat, n: nat): real
    requires n > 0
  {
    if k == 0 then 0.0 else Progress(k - 1, n) + 100.0 / n as real
  }

  /** The running sum is k / n of 100, so it reaches 100 after the last
      file and never passes it before. */
  lemma {:induction false} ProgressIsShare(k: nat, n: nat)
    requires n > 0
    ensures Progress(k, n) == k as real * (100.0 / n as real)
    ensures k <= n ==> 0.0 <= Progress(k, n) <= 100.0
  {
    if k > 0 {
      ProgressIsShare(k - 1, n);
    }
    var step := 100.0 / n as real;
    assert step * n as real == 100.0;
    assert step > 0.0;
    assert k <= n ==> (n as real - k as real) * step >= 0.0;
  }
}
