/** The os.path operations the drivers use on POSIX paths: splitext,
    the last component (split()[1]) and join. */
module Paths {
  import PyStr

  /** str.rfind(c): the last index of c, or -1. */
  function RFind(s: string, c: char): (r: int)
    ensures -1 <= r < |s|
    ensures r == -1 <==> c !in s
    ensures r >= 0 ==> s[r] == c && c !in s[r + 1..]
  {
    if |s| == 0 then -1
    else if s[|s| - 1] == c then |s| - 1
    else
      var k := RFind(s[..|s| - 1], c);
      assert k >= 0 ==> s[k + 1..] == s[..|s| - 1][k + 1..] + [s[|s| - 1]];
      k
  }

  /** Some character strictly between positions lo and hi is not a dot. */
  predicate NonDotBetween(p: string, lo: int, hi: int)
    requires -1 <= lo && hi <= |p|
  {
    exists k :: lo < k < hi && p[k] != '.'
  }

  /** os.path.splitext: the extension starts at the last '.' of the last
      component, unless everything before that dot in the component is
      dots (".bashrc" has no extension). */
  function Splitext(p: string): (r: (string, string))
    ensures r.0 + r.1 == p
    ensures r.1 == [] || (r.1[0] == '.' && '.' !in r.1[1..] && '/' !in r.1)
    ensures r.1 != [] ==> NonDotBetween(p, RFind(p, '/'), |r.0|)
  {
    var sepIndex := RFind(p, '/');
    var dotIndex := RFind(p, '.');
    if dotIndex > sepIndex && NonDotBetween(p, sepIndex, dotIndex) then
      assert '/' !in p[dotIndex..] by {
        assert forall k :: dotIndex <= k < |p| ==> p[k] == p[sepIndex + 1..][k - sepIndex - 1];
      }
      (p[..dotIndex], p[dotIndex..])
    else (p, [])
  }

  /** Splitting a name built from a root and a one-dot extension gives them
      back, when the root's last component has a character other than a
      dot. */
  lemma SplitextOfExtension(root: string, ext: string)
    requires |ext| >= 1 && ext[0] == '.' && '.' !in ext[1..] && '/' !in ext
    requires NonDotBetween(root, RFind(root, '/'), |root|)
    ensures Splitext(root + ext) == (root, ext)
  {
    var p := root + ext;
    ExtensionPositions(root, ext);
    assert p[..|root|] == root && p[|root|..] == ext;
  }

  /** Where the last '/' and the last '.' of root + ext lie. */
  lemma ExtensionPositions(root: string, ext: string)
    requires |ext| >= 1 && ext[0] == '.' && '.' !in ext[1..] && '/' !in ext
    requires NonDotBetween(root, RFind(root, '/'), |root|)
    ensures RFind(root + ext, '/') == RFind(root, '/')
    ensures RFind(root + ext, '.') == |root|
    ensures NonDotBetween(root + ext, RFind(root, '/'), |root|)
  {
    RFindAppendWithout(root, ext, '/');
    LastDotAt(root, ext);
    var k :| RFind(root, '/') < k < |root| && root[k] != '.';
    assert (root + ext)[k] == root[k];
  }

  lemma LastDotAt(root: string, ext: string)
    requires |ext| >= 1 && ext[0] == '.' && '.' !in ext[1..]
    ensures RFind(root + ext, '.') == |root|
  {
    DotLast(root);
    DotThenRest(root, ext);
    RFindAppendWithout(root + ".", ext[1..], '.');
  }

  lemma DotLast(root: string)
    ensures RFind(root + ".", '.') == |root|
  {
    var dotted := root + ".";
    assert dotted[|dotted| - 1] == '.';
  }

  lemma DotThenRest(root: string, ext: string)
    requires |ext| >= 1 && ext[0] == '.'
    ensures (root + ".") + ext[1..] == root + ext
  {
    assert ext == ['.'] + ext[1..];
    assert root + (['.'] + ext[1..]) == (root + ['.']) + ext[1..];
  }

  /** Appending text without c leaves the last c where it was. */
  lemma {:induction false} RFindAppendWithout(x: string, y: string, c: char)
    requires c !in y
    ensures RFind(x + y, c) == RFind(x, c)
    decreases |y|
  {
    if |y| > 0 {
      assert (x + y)[..|x + y| - 1] == x + y[..|y| - 1];
      assert y[|y| - 1] in y;
      RFindAppendWithout(x, y[..|y| - 1], c);
    } else {
      assert x + y == x;
    }
  }

  /** A path without a dot has no extension. */
  lemma SplitextNoDot(p: string)
    requires '.' !in p
    ensures Splitext(p) == (p, [])
  {
  }

  /** os.path.split(p)[1]: the text after the last '/'. */
  function Basename(p: string): (r: string)
    ensures '/' !in r && PyStr.EndsWith(p, r)
    ensures |r| == |p| || p[|p| - |r| - 1] == '/'
  {
    PyStr.SplitLast(p, '/')
  }

  /** os.path.join(a, b): b alone when it is absolute, otherwise a and b
      with one '/' between them. */
  function Join(a: string, b: string): (r: string)
    ensures PyStr.EndsWith(r, b)
    ensures |b| > 0 && b[0] == '/' ==> r == b
    ensures (|b| == 0 || b[0] != '/') && |a| > 0 ==> |r| >= |a| + |b| && r[..|a|] == a && r[|r| - |b| - 1] == '/'
  {
    if |b| > 0 && b[0] == '/' then b
    else if |a| == 0 || a[|a| - 1] == '/' then a + b
    else a + "/" + b
  }

  /** The last component of a joined path is the last component of b. */
  lemma BasenameOfJoin(a: string, b: string)
    ensures Basename(Join(a, b)) == Basename(b)
  {
    var r := Join(a, b);
    if !(|b| > 0 && b[0] == '/') && |r| > |b| {
      assert r[|r| - |b| - 1] == '/';
      assert r == r[..|r| - |b| - 1] + "/" + b;
      if '/' in b {
        LastOfTailWithSep(r[..|r| - |b| - 1] + "/", b);
      } else {
        PyStr.SplitLastOfSuffix(r[..|r| - |b| - 1], '/', b);
        PyStr.SplitNoSep(b, '/');
        assert Basename(b) == b;
      }
    }
  }

  lemma {:induction false} LastOfTailWithSep(x: string, y: string)
    requires '/' in y
    ensures PyStr.SplitLast(x + y, '/') == PyStr.SplitLast(y, '/')
    decreases |y|
  {
    var s := x + y;
    if y[|y| - 1] != '/' {
      assert s[..|s| - 1] == x + y[..|y| - 1];
      var k :| 0 <= k < |y| && y[k] == '/';
      assert k < |y| - 1 && y[..|y| - 1][k] == '/';
      LastOfTailWithSep(x, y[..|y| - 1]);
    }
  }
}
