/**
 * A small explicit model of Node's POSIX `path.parse(p).name` and
 * `path.extname(p)`: trailing `/` are skipped, the base is what follows the
 * last remaining `/`, and the extension starts at the base's last `.`,
 * unless that dot is the base's first character or the base is "..".
 */
module PosixPath {

  function DropTrailingSlashes(p: string): (r: string)
    ensures |r| <= |p| && r == p[..|r|]
    ensures r == [] || r[|r| - 1] != '/'
    ensures forall i :: |r| <= i < |p| ==> p[i] == '/'
  {
    if p != [] && p[|p| - 1] == '/' then DropTrailingSlashes(p[..|p| - 1]) else p
  }

  /** The index of the last `c` in `s`, or -1. */
  function LastIndexOf(s: string, c: char): (r: int)
    ensures -1 <= r < |s|
    ensures r >= 0 ==> s[r] == c
    ensures forall i :: r < i < |s| ==> s[i] != c
  {
    if s == [] then -1
    else if s[|s| - 1] == c then |s| - 1
    else LastIndexOf(s[..|s| - 1], c)
  }

  /** `path.parse(p).base`: the last segment, never containing `/`. */
  function Base(p: string): (r: string)
    ensures '/' !in r
  {
    var t := DropTrailingSlashes(p);
    t[LastIndexOf(t, '/') + 1..]
  }

  /** Where the extension of a base begins (its length when it has none). */
  function ExtStart(base: string): (k: nat)
    ensures k <= |base|
  {
    var d := LastIndexOf(base, '.');
    if d <= 0 || base == ".." then |base| else d
  }

  /** `path.parse(p).name`. */
  function Name(p: string): string
  {
    Base(p)[..ExtStart(Base(p))]
  }

  /** `path.extname(p)`. */
  function ExtName(p: string): string
  {
    Base(p)[ExtStart(Base(p))..]
  }

  /** An extension is empty, or a dot followed by dot-free text. */
  predicate IsExtension(e: string)
  {
    e == [] || (e[0] == '.' && '.' !in e[1..])
  }

  /**
   * Name and extension split the base: their concatenation is the base,
   * neither holds a `/`, the extension has the extension shape, and a
   * non-empty extension follows a non-empty name.
   */
  lemma NameAndExtSplitBase(p: string)
    ensures Name(p) + ExtName(p) == Base(p)
    ensures '/' !in Name(p) && '/' !in ExtName(p)
    ensures IsExtension(ExtName(p))
    ensures ExtName(p) != [] ==> Name(p) != []
  {
    var b := Base(p);
    var k := ExtStart(b);
    assert b == b[..k] + b[k..];
    assert '/' !in b;
    if k < |b| {
      var d := LastIndexOf(b, '.');
      assert k == d && b[k] == '.';
      forall j | 0 <= j < |b[k..][1..]|
        ensures b[k..][1..][j] != '.'
      {
        assert b[k..][1..][j] == b[k + 1 + j];
      }
    }
  }

  /** The base of `dir/seg` is `seg` when `seg` is a non-empty segment. */
  lemma BaseOfJoin(dir: string, seg: string)
    requires seg != [] && '/' !in seg
    ensures Base(dir + "/" + seg) == seg
  {
    var p := dir + "/" + seg;
    assert p[|p| - 1] == seg[|seg| - 1];
    assert DropTrailingSlashes(p) == p;
    var d := LastIndexOf(p, '/');
    assert p[|dir|] == '/';
    assert d >= |dir|;
    assert p[|dir| + 1..] == seg;
  }

  /**
   * Joined as `dir/stem ext`, a dotted extension after a non-empty stem is
   * what `extname` gives back, so long as the whole base is not "..".
   */
  lemma ExtNameOfJoin(dir: string, stem: string, ext: string)
    requires '/' !in stem && '/' !in ext
    requires stem != [] && ext != [] && IsExtension(ext)
    requires stem + ext != ".."
    ensures ExtName(dir + "/" + stem + ext) == ext
    ensures Name(dir + "/" + stem + ext) == stem
  {
    var seg := stem + ext;
    assert dir + "/" + stem + ext == dir + "/" + seg;
    BaseOfJoin(dir, seg);
    var d := LastIndexOf(seg, '.');
    assert seg[|stem|] == '.';
    assert d >= |stem|;
    assert ExtStart(seg) == |stem|;
    assert seg[|stem|..] == ext;
    assert seg[..|stem|] == stem;
  }

  /** No `.` after the first character: a base of this shape has no extension. */
  predicate DotOnlyFirst(s: string)
  {
    forall i :: 0 < i < |s| ==> s[i] != '.'
  }

  /** A path without an extension (and not "..") has its whole base as name, dotted at most in front. */
  lemma NoExtensionName(p: string)
    requires ExtName(p) == [] && Base(p) != ".."
    ensures Name(p) == Base(p)
    ensures DotOnlyFirst(Name(p))
  {
    var b := Base(p);
    var d := LastIndexOf(b, '.');
    assert ExtStart(b) == |b|;
    assert b[..|b|] == b;
  }

  /** `dir/seg` has no extension when `seg` is a segment with a `.` at most in front. */
  lemma ExtNameOfDotless(dir: string, seg: string)
    requires seg != [] && '/' !in seg && DotOnlyFirst(seg)
    ensures ExtName(dir + "/" + seg) == []
  {
    BaseOfJoin(dir, seg);
    assert seg != ".." by {
      assert ".."[1] == '.';
    }
  }
}
