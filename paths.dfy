/**
 * The `os.path` operations (POSIX flavour) the translator uses to build its default
 * output path: `dirname`, `basename`, `splitext` and `join`.
 */
module Paths {

  /** `s.rfind(c)`: the index of the last `c`, or -1. */
  function RFind(s: string, c: char): (r: int)
    ensures -1 <= r < |s|
    ensures r >= 0 ==> s[r] == c
    ensures forall j :: r < j < |s| ==> s[j] != c
  {
    if s == [] then -1
    else if s[|s| - 1] == c then |s| - 1
    else RFind(s[..|s| - 1], c)
  }

  /** Where the last `c` of `a + b` is, in terms of `a` and `b`. */
  lemma {:induction false} RFindAppend(a: string, b: string, c: char)
    ensures RFind(a + b, c) == if RFind(b, c) >= 0 then |a| + RFind(b, c) else RFind(a, c)
    decreases |b|
  {
    if b != [] && b[|b| - 1] != c {
      assert (a + b)[..|a + b| - 1] == a + b[..|b| - 1];
      RFindAppend(a, b[..|b| - 1], c);
    } else if b == [] {
      assert a + b == a;
    }
  }

  predicate AllSlashes(s: string) {
    forall i :: 0 <= i < |s| ==> s[i] == '/'
  }

  /** The number of '/' that `s` ends with. */
  function TrailingSlashes(s: string): (n: nat)
    ensures n <= |s|
    ensures forall i :: |s| - n <= i < |s| ==> s[i] == '/'
    ensures n < |s| ==> s[|s| - 1 - n] != '/'
  {
    if s != [] && s[|s| - 1] == '/' then 1 + TrailingSlashes(s[..|s| - 1]) else 0
  }

  /** `s.rstrip('/')`. */
  function StripTrailingSlashes(s: string): string {
    s[..|s| - TrailingSlashes(s)]
  }

  /** `os.path.dirname(p)`: everything before the last '/', without trailing slashes unless it is all slashes. */
  function Dirname(p: string): (r: string)
    ensures r == [] || AllSlashes(r) || r[|r| - 1] != '/'
  {
    var head := p[..RFind(p, '/') + 1];
    if head != [] && !AllSlashes(head) then StripTrailingSlashes(head) else head
  }

  /** `os.path.basename(p)`: everything after the last '/'. */
  function Basename(p: string): (r: string)
    ensures '/' !in r
    ensures |r| <= |p| && r == p[|p| - |r|..]
  {
    p[RFind(p, '/') + 1..]
  }

  /** Some character in `p[lo..hi]` is not a dot. */
  predicate HasNonDot(p: string, lo: int, hi: int)
    requires 0 <= lo <= hi <= |p|
  {
    exists j :: lo <= j < hi && p[j] != '.'
  }

  /** An extension as `splitext` returns it: empty, or one leading dot and no other dot or slash. */
  predicate IsExtension(e: string) {
    e == [] || (e[0] == '.' && '.' !in e[1..] && '/' !in e)
  }

  /**
   * `os.path.splitext(p)`: the extension starts at the last dot of the last component,
   * unless everything before that dot in the component is a dot too (".bashrc" has none).
   */
  function Splitext(p: string): (r: (string, string))
    ensures r.0 + r.1 == p
    ensures IsExtension(r.1)
  {
    var sepIndex := RFind(p, '/');
    var dotIndex := RFind(p, '.');
    if dotIndex > sepIndex && HasNonDot(p, sepIndex + 1, dotIndex) then
      assert forall i :: 0 <= i < |p[dotIndex..]| - 1 ==> p[dotIndex..][1..][i] == p[dotIndex + 1 + i];
      (p[..dotIndex], p[dotIndex..])
    else (p, [])
  }

  /** `os.path.join(a, b)` for a `b` that does not start with '/'. */
  function Join(a: string, b: string): string {
    if a == [] || a[|a| - 1] == '/' then a + b else a + "/" + b
  }

  const Suffix: string := "_translated"

  /** `name_translated.ext` in the directory of the input, for `name.ext` the input's file name. */
  function DefaultOutputPath(inputPath: string): string {
    var parts := Splitext(Basename(inputPath));
    Join(Dirname(inputPath), parts.0 + Suffix + parts.1)
  }

  /** Joining a directory as `dirname` gives it with a file name gives back that directory and name. */
  lemma JoinDirname(d: string, b: string)
    requires d == [] || AllSlashes(d) || d[|d| - 1] != '/'
    requires b != [] && '/' !in b
    ensures Dirname(Join(d, b)) == d
    ensures Basename(Join(d, b)) == b
  {
    var out := Join(d, b);
    assert RFind(b, '/') == -1;
    if d == [] {
      assert out == b;
    } else if d[|d| - 1] == '/' {
      RFindAppend(d, b, '/');
      assert RFind(out, '/') == |d| - 1;
      assert out[..|d|] == d;
    } else {
      RFindAppend(d + "/", b, '/');
      assert RFind(out, '/') == |d|;
      var head := out[..|d| + 1];
      assert head == d + "/";
      assert head[|d| - 1] != '/';
      assert head[..|d|] == d;
      assert !AllSlashes(head);
      assert StripTrailingSlashes(head) == StripTrailingSlashes(d);
    }
  }

  /** Appending `Suffix` and an extension keeps `splitext` splitting at the same place. */
  lemma SplitextAfterSuffix(base: string)
    requires '/' !in base
    ensures var parts := Splitext(base);
            Splitext(parts.0 + Suffix + parts.1) == (parts.0 + Suffix, parts.1)
  {
    var parts := Splitext(base);
    var root, ext := parts.0, parts.1;
    assert '/' !in root by {
      assert forall i :: 0 <= i < |root| ==> root[i] == base[i];
    }
    if ext != [] {
      SplitextWithExtension(root, ext);
    } else {
      SplitextWithoutExtension(base);
    }
  }

  /** Before a proper extension, the suffix ends in '_', so the extension's dot still counts. */
  lemma SplitextWithExtension(root: string, ext: string)
    requires '/' !in root && ext != [] && IsExtension(ext)
    ensures Splitext(root + Suffix + ext) == (root + Suffix, ext)
  {
    var r := root + Suffix;
    assert r[|root|] == '_';
    assert '/' !in r by {
      assert forall i :: 0 <= i < |r| ==> r[i] == if i < |root| then root[i] else Suffix[i - |root|];
    }
    SplitextAt(r, ext);
  }

  /** A name without an extension keeps none: the suffix holds no dot, and dots before it stay leading. */
  lemma SplitextWithoutExtension(base: string)
    requires '/' !in base && Splitext(base).1 == []
    ensures Splitext(base + Suffix) == (base + Suffix, [])
  {
    var b := base + Suffix;
    RFindAppend(base, Suffix, '/');
    assert '/' !in Suffix;
    assert RFind(base, '/') == -1;
    RFindAppend(base, Suffix, '.');
    assert '.' !in Suffix;
    var k := RFind(base, '.');
    assert RFind(b, '.') == k;
    if k >= 0 {
      assert !HasNonDot(base, 0, k);
      forall j | 0 <= j < k ensures b[j] == '.' { assert b[j] == base[j]; }
    }
  }

  /**
   * The default output path stays in the input's directory, and its file name is the input's
   * name with "_translated" inserted before the extension, which stays the extension.
   */
  lemma DefaultOutputPathShape(inputPath: string)
    ensures var parts := Splitext(Basename(inputPath));
            var out := DefaultOutputPath(inputPath);
            && parts.0 + parts.1 == Basename(inputPath)
            && Dirname(out) == Dirname(inputPath)
            && Basename(out) == parts.0 + Suffix + parts.1
            && Splitext(Basename(out)) == (parts.0 + Suffix, parts.1)
  {
    var d, base := Dirname(inputPath), Basename(inputPath);
    var parts := Splitext(base);
    var b := parts.0 + Suffix + parts.1;
    assert DefaultOutputPath(inputPath) == Join(d, b);
    NoSlashAfterSuffix(base);
    JoinDirname(d, b);
    SplitextAfterSuffix(base);
  }

  /** The new file name holds no '/'. */
  lemma NoSlashAfterSuffix(base: string)
    requires '/' !in base
    ensures var parts := Splitext(base);
            var b := parts.0 + Suffix + parts.1;
            b != [] && '/' !in b
  {
    var parts := Splitext(base);
    assert forall i :: 0 <= i < |parts.0| ==> parts.0[i] == base[i];
    assert forall i :: 0 <= i < |parts.1| ==> parts.1[i] == base[|parts.0| + i];
  }

  /** `splitext` splits a name at a proper extension whose dot follows some other character. */
  lemma SplitextAt(root: string, ext: string)
    requires '/' !in root && HasNonDot(root, 0, |root|) && ext != [] && IsExtension(ext)
    ensures Splitext(root + ext) == (root, ext)
  {
    var b := root + ext;
    assert RFind(root, '/') == -1;
    assert RFind(ext, '/') == -1;
    RFindAppend(root, ext, '/');
    RFindAppend(root, ext, '.');
    assert RFind(ext, '.') == 0 by {
      forall j | 0 < j < |ext| ensures ext[j] != '.' { assert ext[j] == ext[1..][j - 1]; }
    }
    var j :| 0 <= j < |root| && root[j] != '.';
    assert b[j] == root[j];
    assert b[..|root|] == root && b[|root|..] == ext;
  }

  /**
   * A path "dir/root.ext", with a directory free of '/', a root with a character other than a
   * dot and a proper extension, becomes "dir/root_translated.ext".
   */
  lemma DefaultOutputPathOf(d: string, root: string, ext: string)
    requires d != [] && '/' !in d
    requires '/' !in root && HasNonDot(root, 0, |root|) && ext != [] && IsExtension(ext)
    ensures DefaultOutputPath(d + "/" + (root + ext)) == d + "/" + (root + Suffix + ext)
  {
    var n := root + ext;
    assert '/' !in n by {
      assert forall i :: 0 <= i < |n| ==> n[i] == if i < |root| then root[i] else ext[i - |root|];
    }
    assert d[|d| - 1] != '/';
    assert Join(d, n) == d + "/" + n;
    JoinDirname(d, n);
    SplitextAt(root, ext);
  }

  /** The pieces of the example path, apart. */
  lemma ExampleLiterals()
    ensures "data" + "/" + ("report" + ".xlsx") == "data/report.xlsx"
    ensures "data" + "/" + ("report" + Suffix + ".xlsx") == "data/report_translated.xlsx"
  {
  }

  /** For example "data/report.xlsx" becomes "data/report_translated.xlsx". */
  lemma DefaultOutputPathExample(p: string)
    requires p == "data/report.xlsx"
    ensures DefaultOutputPath(p) == "data/report_translated.xlsx"
  {
    ExampleLiterals();
    var d, root, ext := "data", "report", ".xlsx";
    assert root[0] != '.';
    assert ext[1..] == "xlsx";
    DefaultOutputPathOf(d, root, ext);
  }
}
