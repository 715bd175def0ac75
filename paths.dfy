/**
 * The part of `std::filesystem::path` that the focus rules use, on Windows
 * paths held as strings: the filename, whether a parent path is present, the
 * extension and the filename with its extension removed.
 */
module Paths {

  /** A directory separator: Windows accepts both `\` and `/`. */
  predicate IsSep(c: char)
  {
    c == '\\' || c == '/'
  }

  /** Where the filename of `p` starts: just past its last separator, or 0. */
  function FilenameStart(p: string): (k: nat)
    ensures k <= |p|
    ensures k > 0 ==> IsSep(p[k - 1])
    ensures forall i | k <= i < |p| :: !IsSep(p[i])
    decreases |p|
  {
    if p == [] then 0
    else if IsSep(p[|p| - 1]) then |p|
    else FilenameStart(p[..|p| - 1])
  }

  /** Only one position has the three properties of FilenameStart. */
  lemma FilenameStartUnique(p: string, k: nat)
    requires k <= |p|
    requires k > 0 ==> IsSep(p[k - 1])
    requires forall i | k <= i < |p| :: !IsSep(p[i])
    ensures FilenameStart(p) == k
  {
    var f := FilenameStart(p);
    if f != k {
      assert false;
    }
  }

  /** path::filename: the text after the last separator. */
  function Filename(p: string): (f: string)
    ensures |f| <= |p| && p[|p| - |f|..] == f
    ensures forall i | 0 <= i < |f| :: !IsSep(f[i])
  {
    p[FilenameStart(p)..]
  }

  /** path::has_parent_path: some separator is present. */
  function HasParentPath(p: string): (b: bool)
    ensures b <==> exists i | 0 <= i < |p| :: IsSep(p[i])
  {
    FilenameStart(p) > 0
  }

  /** `p` with its leading separators removed. */
  function DropSeps(p: string): (r: string)
    ensures |r| <= |p| && p[|p| - |r|..] == r
    ensures r == [] || !IsSep(r[0])
    ensures forall i | 0 <= i < |p| - |r| :: IsSep(p[i])
    decreases |p|
  {
    if p != [] && IsSep(p[0]) then DropSeps(p[1..]) else p
  }

  /**
   * The spelling of `p` that path comparison sees: every run of separators,
   * `\` or `/`, becomes a single `\`.  Two paths compare equal element by
   * element exactly when these spellings are equal (root names aside).
   */
  function Collapse(p: string): (c: string)
    ensures |c| <= |p|
    decreases |p|
  {
    if p == [] then []
    else if IsSep(p[0]) then "\\" + Collapse(DropSeps(p[1..]))
    else [p[0]] + Collapse(p[1..])
  }

  /** A spelling in normal form: only `\` as separator, and never two in a row. */
  predicate Collapsed(c: string)
  {
    && (forall i | 0 <= i < |c| :: c[i] != '/')
    && (forall i | 0 <= i < |c| - 1 :: IsSep(c[i]) ==> !IsSep(c[i + 1]))
  }

  /** Collapse yields the normal form, and starts with a separator exactly when `p` does. */
  lemma {:induction false} CollapseIsCollapsed(p: string)
    ensures Collapsed(Collapse(p))
    ensures Collapse(p) != [] <==> p != []
    ensures p != [] ==> (IsSep(Collapse(p)[0]) <==> IsSep(p[0]))
    decreases |p|
  {
    if p == [] {
    } else if IsSep(p[0]) {
      var rest := DropSeps(p[1..]);
      CollapseIsCollapsed(rest);
    } else {
      CollapseIsCollapsed(p[1..]);
    }
  }

  /** A spelling in normal form is left unchanged. */
  lemma {:induction false} CollapseKeepsCollapsed(c: string)
    requires Collapsed(c)
    ensures Collapse(c) == c
    decreases |c|
  {
    if c != [] {
      assert Collapsed(c[1..]);
      if IsSep(c[0]) {
        assert c[0] == '\\';
        assert DropSeps(c[1..]) == c[1..] by {
          assert c[1..] == [] || !IsSep(c[1..][0]);
        }
      }
      CollapseKeepsCollapsed(c[1..]);
      assert c == [c[0]] + c[1..];
    }
  }

  /** Collapsing is idempotent: the normal form of a normal form is itself. */
  lemma CollapseIdempotent(p: string)
    ensures Collapse(Collapse(p)) == Collapse(p)
  {
    CollapseIsCollapsed(p);
    CollapseKeepsCollapsed(Collapse(p));
  }

  /** A run of separators is dropped up to the first character that is not one. */
  lemma {:induction false} DropSepsRun(run: string, b: string)
    requires forall i | 0 <= i < |run| :: IsSep(run[i])
    requires b == [] || !IsSep(b[0])
    ensures DropSeps(run + b) == b
    decreases |run|
  {
    if run != [] {
      assert (run + b)[1..] == run[1..] + b;
      DropSepsRun(run[1..], b);
    } else {
      assert run + b == b;
    }
  }

  /** A character that is not a separator is kept as it is. */
  lemma CollapseCons(c: char, rest: string)
    requires !IsSep(c)
    ensures Collapse([c] + rest) == [c] + Collapse(rest)
  {
    assert ([c] + rest)[1..] == rest;
  }

  /** A run of separators before a path that does not start with one collapses to one `\`. */
  lemma CollapseRun(run: string, b: string)
    requires run != [] && forall i | 0 <= i < |run| :: IsSep(run[i])
    requires b == [] || !IsSep(b[0])
    ensures Collapse(run + b) == "\\" + Collapse(b)
  {
    assert (run + b)[0] == run[0];
    assert (run + b)[1..] == run[1..] + b;
    DropSepsRun(run[1..], b);
  }

  /**
   * Joining `a` and `b` with any run of separators collapses to `a`, one `\`
   * and the collapsed `b`, when `a` holds no separator and `b` does not start
   * with one.
   */
  lemma {:induction false} CollapseJoin(a: string, run: string, b: string)
    requires forall i | 0 <= i < |a| :: !IsSep(a[i])
    requires run != [] && forall i | 0 <= i < |run| :: IsSep(run[i])
    requires b == [] || !IsSep(b[0])
    ensures Collapse(a + run + b) == a + "\\" + Collapse(b)
    decreases |a|
  {
    if a == [] {
      assert a + run + b == run + b;
      CollapseRun(run, b);
      assert a + "\\" + Collapse(b) == "\\" + Collapse(b);
    } else {
      var tail := a[1..] + run + b;
      assert a + run + b == [a[0]] + tail;
      CollapseCons(a[0], tail);
      CollapseJoin(a[1..], run, b);
      assert a + "\\" + Collapse(b) == [a[0]] + (a[1..] + "\\" + Collapse(b));
    }
  }

  /** A nonempty run of separators. */
  predicate SepRun(run: string)
  {
    run != [] && forall i | 0 <= i < |run| :: IsSep(run[i])
  }

  /**
   * Between the same elements, any two runs of separators, of any spelling
   * and length, give the same collapsed path: C:/x//a.exe and C:\x\a.exe
   * collapse alike.
   */
  lemma SeparatorRuns(drive: string, dir: string, file: string, r1: string, r2: string, s1: string, s2: string)
    requires forall i | 0 <= i < |drive| :: !IsSep(drive[i])
    requires dir != [] && forall i | 0 <= i < |dir| :: !IsSep(dir[i])
    requires forall i | 0 <= i < |file| :: !IsSep(file[i])
    requires SepRun(r1) && SepRun(r2) && SepRun(s1) && SepRun(s2)
    ensures Collapse(drive + r1 + dir + r2 + file) == Collapse(drive + s1 + dir + s2 + file)
  {
    assert drive + r1 + dir + r2 + file == drive + r1 + (dir + r2 + file);
    assert drive + s1 + dir + s2 + file == drive + s1 + (dir + s2 + file);
    CollapseJoin(dir, r2, file);
    CollapseJoin(dir, s2, file);
    CollapseJoin(drive, r1, dir + r2 + file);
    CollapseJoin(drive, s1, dir + s2 + file);
  }

  /** A path without a separator collapses to itself. */
  lemma CollapseNoSep(a: string)
    requires forall i | 0 <= i < |a| :: !IsSep(a[i])
    ensures Collapse(a) == a
  {
    CollapseKeepsCollapsed(a);
  }

  /** `p` with every `/` spelled `\`. */
  function Backslashed(p: string): (r: string)
    ensures |r| == |p|
    ensures forall i | 0 <= i < |p| :: r[i] == if p[i] == '/' then '\\' else p[i]
  {
    seq(|p|, i requires 0 <= i < |p| => if p[i] == '/' then '\\' else p[i])
  }

  /** Dropping leading separators commutes with respelling them. */
  lemma {:induction false} DropSepsBackslashed(p: string)
    ensures DropSeps(Backslashed(p)) == Backslashed(DropSeps(p))
    decreases |p|
  {
    if p != [] && IsSep(p[0]) {
      assert Backslashed(p)[1..] == Backslashed(p[1..]);
      DropSepsBackslashed(p[1..]);
    }
  }

  /** Which separator a path spells, `\` or `/`, does not matter to path comparison. */
  lemma {:induction false} CollapseIgnoresSlashes(p: string)
    ensures Collapse(Backslashed(p)) == Collapse(p)
    decreases |p|
  {
    if p != [] {
      var b := Backslashed(p);
      assert b[1..] == Backslashed(p[1..]);
      if IsSep(p[0]) {
        DropSepsBackslashed(p[1..]);
        CollapseIgnoresSlashes(DropSeps(p[1..]));
      } else {
        CollapseIgnoresSlashes(p[1..]);
      }
    }
  }

  /** A path without a separator is its own filename. */
  lemma BareFilename(p: string)
    requires !HasParentPath(p)
    ensures Filename(p) == p
  {
    FilenameStartUnique(p, 0);
  }

  /** The filename of a file inside a directory is the file's own name. */
  lemma FilenameOfJoin(dir: string, name: string)
    requires forall i | 0 <= i < |name| :: !IsSep(name[i])
    ensures HasParentPath(dir + "\\" + name)
    ensures Filename(dir + "\\" + name) == name
  {
    var p := dir + "\\" + name;
    assert IsSep(p[|dir|]);
    FilenameStartUnique(p, |dir| + 1);
    assert p[|dir| + 1..] == name;
  }

  /** Index of the last '.' in `f`, or -1 when there is none. */
  function LastDot(f: string): (d: int)
    ensures -1 <= d < |f|
    ensures d >= 0 ==> f[d] == '.'
    ensures forall i | d < i < |f| :: f[i] != '.'
    decreases |f|
  {
    if f == [] then -1
    else if f[|f| - 1] == '.' then |f| - 1
    else LastDot(f[..|f| - 1])
  }

  /**
   * Where the extension of the filename `f` starts, or |f| when it has none:
   * at its last '.', unless that dot is the first character or `f` is "." or "..".
   */
  function ExtensionStart(f: string): (k: nat)
    ensures k <= |f|
    ensures k < |f| ==> 0 < k && f[k] == '.' && f != "." && f != ".."
    ensures k < |f| ==> forall i | k < i < |f| :: f[i] != '.'
    ensures k == |f| ==> f == "." || f == ".." || forall i | 0 < i < |f| :: f[i] != '.'
  {
    if f == "." || f == ".." then |f|
    else
      var d := LastDot(f);
      if d <= 0 then |f| else d
  }

  /** path::extension of a filename: from its extension start to the end. */
  function Extension(f: string): (x: string)
    ensures x == [] || x[0] == '.'
    ensures |x| <= |f| && f[|f| - |x|..] == x
  {
    f[ExtensionStart(f)..]
  }

  /** path::has_extension: the extension of the filename is not empty. */
  predicate HasExtension(p: string)
  {
    Extension(Filename(p)) != []
  }

  /** path::replace_extension(""): the filename without its extension. */
  function Stem(f: string): (s: string)
    ensures s + Extension(f) == f
  {
    f[..ExtensionStart(f)]
  }

  /**
   * A name without dots, followed by one extension that has no further dot,
   * splits back into that name and that extension.
   */
  lemma {:induction false} SplitExtension(name: string, ext: string)
    requires name != [] && forall i | 0 <= i < |name| :: name[i] != '.'
    requires ext != [] && ext[0] == '.' && forall i | 0 < i < |ext| :: ext[i] != '.'
    ensures Stem(name + ext) == name
    ensures Extension(name + ext) == ext
  {
    var f := name + ext;
    assert f != "." && f != ".." by {
      assert f[0] == name[0] != '.';
    }
    assert f[|name|] == '.';
    var k := ExtensionStart(f);
    assert k < |f| ==> k >= |name|;
    if k != |name| {
      assert false;
    }
    assert f[..|name|] == name && f[|name|..] == ext;
  }

  /** A filename with no dot at all has no extension and is its own stem. */
  lemma NoDotNoExtension(f: string)
    requires forall i | 0 <= i < |f| :: f[i] != '.'
    ensures Extension(f) == [] && Stem(f) == f
  {
    if f != [] {
      assert f[0] != '.';
    }
  }
}
