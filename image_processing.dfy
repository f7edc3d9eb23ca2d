/**
 * The pure decisions of the image helper: which extensions are images,
 * when an image is resized, which WebP options are chosen, and how a file
 * name is cleaned for use in a storage key. The `sharp` library itself is
 * a parameter (`Sharp`): its metadata read, resize and encoder are
 * functions whose outcomes the model does not know.
 */
module ImageProcessing {
  import opened Wrappers
  import opened JsString
  import PosixPath

  type Bytes = seq<bv8>

  /** The box an image must fit in, fixed when the helper is constructed. */
  const ResizeWidth := 1920
  const ResizeHeight := 1080

  /** What `sharp(...).metadata()` reports; a field may be missing. */
  datatype Metadata = Metadata(width: Option<int>, height: Option<int>, hasAlpha: Option<bool>)

  /** Options passed to `sharp(...).webp(...)`. */
  datatype WebpOptions = WebpOptions(quality: int, nearLossless: bool, lossless: bool)

  /**
   * The library calls, as functions of their inputs. Each may fail with an
   * error message (an invalid image, for one).
   */
  datatype Sharp = Sharp(
    metadata: Bytes -> Result<Metadata, string>,
    resize: (Bytes, int, int) -> Result<Bytes, string>,
    webp: (Bytes, WebpOptions) -> Result<Bytes, string>)

  /** `value > limit` in JavaScript: a missing value compares false. */
  predicate Exceeds(value: Option<int>, limit: int)
  {
    value.Some? && value.value > limit
  }

  predicate ShouldResize(m: Metadata)
  {
    Exceeds(m.width, ResizeWidth) || Exceeds(m.height, ResizeHeight)
  }

  /** With both dimensions known, resizing happens exactly outside 1920x1080. */
  lemma ShouldResizeExactlyOutsideBox(w: int, h: int, alpha: Option<bool>)
    ensures ShouldResize(Metadata(Some(w), Some(h), alpha)) <==> (w > 1920 || h > 1080)
    ensures !ShouldResize(Metadata(Some(1920), Some(1080), alpha))
  {
  }

  /** `metadata.hasAlpha === true`: missing or any other value is false. */
  predicate HasAlpha(m: Metadata)
  {
    m.hasAlpha == Some(true)
  }

  const ImageExtensions: seq<string> := [".jpg", ".jpeg", ".png", ".webp"]

  predicate IsImage(ext: string)
  {
    ToLowerCase(ext) in ImageExtensions
  }

  /** The image test ignores case. */
  lemma IsImageIgnoresCase(ext: string)
    ensures IsImage(ext) == IsImage(ToLowerCase(ext))
  {
    ToLowerCaseIdempotent(ext);
  }

  /** The encoder settings: quality 75, near-lossless, lossless when there is alpha. */
  function WebpOptionsFor(m: Metadata): (o: WebpOptions)
    ensures o.quality == 75 && o.nearLossless
    ensures o.lossless <==> m.hasAlpha == Some(true)
  {
    WebpOptions(quality := 75, nearLossless := true, lossless := HasAlpha(m))
  }

  /**
   * `resizeImageIfNeeded`: an image that fits the box comes back as the
   * very buffer given; a larger one is resized to fit inside the box; a
   * buffer whose metadata cannot be read fails with that error.
   */
  function ResizeImageIfNeeded(sharp: Sharp, buffer: Bytes): (r: Result<Bytes, string>)
    ensures sharp.metadata(buffer).Failure? ==> r == Failure(sharp.metadata(buffer).error)
    ensures sharp.metadata(buffer).Success? && !ShouldResize(sharp.metadata(buffer).value) ==>
      r == Success(buffer)
    ensures sharp.metadata(buffer).Success? && ShouldResize(sharp.metadata(buffer).value) ==>
      r == sharp.resize(buffer, ResizeWidth, ResizeHeight)
  {
    match sharp.metadata(buffer)
    case Failure(e) => Failure(e)
    case Success(m) =>
      if ShouldResize(m) then sharp.resize(buffer, ResizeWidth, ResizeHeight) else Success(buffer)
  }

  /** `encodeWebP`: the encoder is called with the options the metadata selects. */
  function EncodeWebP(sharp: Sharp, buffer: Bytes): (r: Result<Bytes, string>)
    ensures sharp.metadata(buffer).Failure? ==> r == Failure(sharp.metadata(buffer).error)
    ensures sharp.metadata(buffer).Success? ==>
      r == sharp.webp(buffer, WebpOptions(75, true, HasAlpha(sharp.metadata(buffer).value)))
  {
    match sharp.metadata(buffer)
    case Failure(e) => Failure(e)
    case Success(m) => sharp.webp(buffer, WebpOptionsFor(m))
  }

  /** `processImage`: resize if needed, then encode what that gave. */
  function ProcessImage(sharp: Sharp, buffer: Bytes): (r: Result<Bytes, string>)
    ensures ResizeImageIfNeeded(sharp, buffer).Failure? ==>
      r == Failure(ResizeImageIfNeeded(sharp, buffer).error)
    ensures ResizeImageIfNeeded(sharp, buffer).Success? ==>
      r == EncodeWebP(sharp, ResizeImageIfNeeded(sharp, buffer).value)
  {
    match ResizeImageIfNeeded(sharp, buffer)
    case Failure(e) => Failure(e)
    case Success(resized) => EncodeWebP(sharp, resized)
  }

  /** An image within the box is encoded from the original buffer. */
  lemma SmallImageEncodedFromOriginal(sharp: Sharp, buffer: Bytes)
    requires sharp.metadata(buffer).Success? && !ShouldResize(sharp.metadata(buffer).value)
    ensures ProcessImage(sharp, buffer) == EncodeWebP(sharp, buffer)
  {
  }

  // ---------------------------------------------------------------------
  // File-name sanitising
  // ---------------------------------------------------------------------

  /** The characters `[a-z0-9._-]`. */
  predicate IsSafeChar(c: char)
  {
    ('a' <= c <= 'z') || ('0' <= c <= '9') || c == '.' || c == '_' || c == '-'
  }

  predicate AllSafe(s: string)
  {
    forall i :: 0 <= i < |s| ==> IsSafeChar(s[i])
  }

  /** `s` has no substring "--". */
  predicate NoDoubleDash(s: string)
  {
    forall i :: 0 <= i < |s| - 1 ==> !(s[i] == '-' && s[i + 1] == '-')
  }

  /** `s` neither starts nor ends with "-". */
  predicate NoEdgeDash(s: string)
  {
    s == [] || (s[0] != '-' && s[|s| - 1] != '-')
  }

  /** The shape every sanitised name has. */
  predicate IsCleanName(s: string)
  {
    AllSafe(s) && NoDoubleDash(s) && NoEdgeDash(s)
  }

  /** `.replace(/[^a-z0-9._-]+/g, "-")`: each maximal unsafe run becomes one dash. */
  function ReplaceUnsafeRuns(s: string): (r: string)
    ensures AllSafe(r)
    ensures |r| <= |s|
    ensures s != [] ==> r != [] && r[0] == (if IsSafeChar(s[0]) then s[0] else '-')
  {
    if s == [] then []
    else if IsSafeChar(s[0]) then [s[0]] + ReplaceUnsafeRuns(s[1..])
    else if |s| > 1 && !IsSafeChar(s[1]) then ReplaceUnsafeRuns(s[1..])
    else "-" + ReplaceUnsafeRuns(s[1..])
  }

  /** A string made only of safe characters is not rewritten. */
  lemma {:induction false} ReplaceUnsafeRunsKeepsSafe(s: string)
    requires AllSafe(s)
    ensures ReplaceUnsafeRuns(s) == s
  {
    if s != [] {
      assert AllSafe(s[1..]) by {
        forall i | 0 <= i < |s[1..]| ensures IsSafeChar(s[1..][i]) {
          assert s[1..][i] == s[i + 1];
        }
      }
      ReplaceUnsafeRunsKeepsSafe(s[1..]);
      assert s == [s[0]] + s[1..];
    }
  }

  /** A prefix of safe characters is copied through. */
  lemma {:induction false} ReplaceUnsafeRunsSafePrefix(a: string, b: string)
    requires AllSafe(a)
    ensures ReplaceUnsafeRuns(a + b) == a + ReplaceUnsafeRuns(b)
  {
    if a != [] {
      assert AllSafe(a[1..]) by {
        forall i | 0 <= i < |a[1..]| ensures IsSafeChar(a[1..][i]) {
          assert a[1..][i] == a[i + 1];
        }
      }
      ReplaceUnsafeRunsSafePrefix(a[1..], b);
      assert (a + b)[1..] == a[1..] + b;
      assert a == [a[0]] + a[1..];
    } else {
      assert a + b == b;
    }
  }

  /** Rewriting unsafe runs brings in no `.`. */
  lemma {:induction false} ReplaceUnsafeRunsNoDot(s: string)
    requires '.' !in s
    ensures '.' !in ReplaceUnsafeRuns(s)
  {
    if s != [] {
      assert '.' !in s[1..] by {
        forall i | 0 <= i < |s[1..]| ensures s[1..][i] != '.' {
          assert s[1..][i] == s[i + 1];
        }
      }
      ReplaceUnsafeRunsNoDot(s[1..]);
    }
  }

  /** Rewriting unsafe runs puts no `.` after the first character. */
  lemma ReplaceUnsafeRunsDotOnlyFirst(s: string)
    requires PosixPath.DotOnlyFirst(s)
    ensures PosixPath.DotOnlyFirst(ReplaceUnsafeRuns(s))
  {
    if s != [] {
      assert '.' !in s[1..] by {
        forall i | 0 <= i < |s[1..]| ensures s[1..][i] != '.' {
          assert s[1..][i] == s[i + 1];
        }
      }
      ReplaceUnsafeRunsNoDot(s[1..]);
    }
  }

  /** `.replace(/-+/g, "-")`: each run of dashes becomes one dash. */
  function CollapseDashes(s: string): (r: string)
    ensures |r| <= |s|
    ensures NoDoubleDash(r)
    ensures AllSafe(s) ==> AllSafe(r)
    ensures s != [] ==> r != [] && r[0] == s[0]
    ensures NoDoubleDash(s) ==> r == s
  {
    if s == [] then []
    else if |s| > 1 && s[0] == '-' && s[1] == '-' then CollapseDashes(s[1..])
    else [s[0]] + CollapseDashes(s[1..])
  }

  /** Collapsing dashes brings in no `.`. */
  lemma {:induction false} CollapseDashesNoDot(s: string)
    requires '.' !in s
    ensures '.' !in CollapseDashes(s)
  {
    if s != [] {
      assert '.' !in s[1..] by {
        forall i | 0 <= i < |s[1..]| ensures s[1..][i] != '.' {
          assert s[1..][i] == s[i + 1];
        }
      }
      CollapseDashesNoDot(s[1..]);
    }
  }

  /** Collapsing dashes puts no `.` after the first character. */
  lemma CollapseDashesDotOnlyFirst(s: string)
    requires PosixPath.DotOnlyFirst(s)
    ensures PosixPath.DotOnlyFirst(CollapseDashes(s))
  {
    if s != [] {
      assert '.' !in s[1..] by {
        forall i | 0 <= i < |s[1..]| ensures s[1..][i] != '.' {
          assert s[1..][i] == s[i + 1];
        }
      }
      CollapseDashesNoDot(s[1..]);
    }
  }

  /**
   * `.replace(/^-|-$/g, "")`: one leading and one trailing dash are removed
   * (a lone "-" is the leading one).
   */
  function TrimDashEnds(s: string): (r: string)
    ensures |r| <= |s|
    ensures AllSafe(s) ==> AllSafe(r)
    ensures NoDoubleDash(s) ==> NoDoubleDash(r) && NoEdgeDash(r)
    ensures NoEdgeDash(s) ==> r == s
  {
    var a := if |s| > 0 && s[0] == '-' then s[1..] else s;
    if |a| > 0 && a[|a| - 1] == '-' then a[..|a| - 1] else a
  }

  /** Trimming the edge dashes puts no `.` after the first character. */
  lemma TrimDashEndsDotOnlyFirst(s: string)
    requires PosixPath.DotOnlyFirst(s)
    ensures PosixPath.DotOnlyFirst(TrimDashEnds(s))
  {
    var a := if |s| > 0 && s[0] == '-' then s[1..] else s;
    assert PosixPath.DotOnlyFirst(a) by {
      forall i | 0 < i < |a| ensures a[i] != '.' {
        if |s| > 0 && s[0] == '-' {
          assert a[i] == s[i + 1];
        }
      }
    }
  }

  /** The three rewrites applied to a lower-cased name. */
  function Clean(name: string): (r: string)
    ensures IsCleanName(r)
    ensures |r| <= |name|
  {
    TrimDashEnds(CollapseDashes(ReplaceUnsafeRuns(name)))
  }

  /** A name that already has the clean shape passes through unchanged. */
  lemma CleanKeepsCleanNames(t: string)
    requires IsCleanName(t)
    ensures Clean(t) == t
  {
    ReplaceUnsafeRunsKeepsSafe(t);
  }

  /** Cleaning is idempotent. */
  lemma CleanIdempotent(s: string)
    ensures Clean(Clean(s)) == Clean(s)
  {
    CleanKeepsCleanNames(Clean(s));
  }

  /** A name made only of `[a-z0-9._]` is unchanged by cleaning. */
  lemma CleanKeepsPlainNames(t: string)
    requires forall i :: 0 <= i < |t| ==> IsSafeChar(t[i]) && t[i] != '-'
    ensures Clean(t) == t
  {
    CleanKeepsCleanNames(t);
  }

  /**
   * `sanitizeFileName`: the name part of the path, lower-cased and cleaned.
   * The result may be empty (a name made only of unsafe characters).
   */
  function SanitizeFileName(originalName: string): (r: string)
    ensures IsCleanName(r)
    ensures |r| <= |PosixPath.Name(originalName)|
  {
    Clean(ToLowerCase(PosixPath.Name(originalName)))
  }

  /**
   * A name with a `.` at most in front (a name `path.parse` cut no
   * extension from) sanitises to a name of the same kind.
   */
  lemma SanitizeFileNameDotOnlyFirst(originalName: string)
    requires PosixPath.DotOnlyFirst(PosixPath.Name(originalName))
    ensures PosixPath.DotOnlyFirst(SanitizeFileName(originalName))
  {
    var n := PosixPath.Name(originalName);
    var l := ToLowerCase(n);
    assert PosixPath.DotOnlyFirst(l) by {
      forall i | 0 < i < |l| ensures l[i] != '.' {
        assert l[i] == LowerChar(n[i]);
      }
    }
    ReplaceUnsafeRunsDotOnlyFirst(l);
    CollapseDashesDotOnlyFirst(ReplaceUnsafeRuns(l));
    TrimDashEndsDotOnlyFirst(CollapseDashes(ReplaceUnsafeRuns(l)));
  }

  /**
   * Sanitising a dot-free name that `sanitizeFileName` produced changes
   * nothing (a name with a dot may lose an extension: "a.b" gives "a").
   */
  lemma SanitizeFileNameIdempotent(originalName: string)
    requires '.' !in SanitizeFileName(originalName)
    ensures SanitizeFileName(SanitizeFileName(originalName)) == SanitizeFileName(originalName)
  {
    var s := SanitizeFileName(originalName);
    assert PosixPath.DropTrailingSlashes(s) == s;
    assert PosixPath.Base(s) == s;
    assert PosixPath.Name(s) == s;
    var l := ToLowerCase(s);
    assert l == s;
    CleanKeepsCleanNames(s);
  }
}

/**
 * A worked example: "My Photo!! .PNG" keeps its name part "My Photo!! ",
 * which lower-cases and cleans to "my-photo".
 */
module SanitizeExample {
  import opened JsString
  import PosixPath
  import opened ImageProcessing

  lemma ExampleBase()
    ensures PosixPath.Base("My Photo!! .PNG") == "My Photo!! .PNG"
  {
    var p := "My Photo!! .PNG";
    assert PosixPath.DropTrailingSlashes(p) == p;
    assert '/' !in p;
  }

  lemma ExampleName()
    ensures PosixPath.Name("My Photo!! .PNG") == "My Photo!! "
  {
    var p := "My Photo!! .PNG";
    ExampleBase();
    assert p[11] == '.' && p[12] == 'P' && p[13] == 'N' && p[14] == 'G';
    assert PosixPath.LastIndexOf(p, '.') == 11;
    assert p[..11] == "My Photo!! ";
  }

  /** A lone unsafe character before a safe one (or the end) becomes a dash. */
  lemma UnsafeLone(c: char, t: string)
    requires !IsSafeChar(c) && (t == [] || IsSafeChar(t[0]))
    ensures ReplaceUnsafeRuns([c] + t) == "-" + ReplaceUnsafeRuns(t)
  {
    assert ([c] + t)[1..] == t;
  }

  /** An unsafe character followed by another one joins its run. */
  lemma UnsafePair(c: char, t: string)
    requires !IsSafeChar(c) && t != [] && !IsSafeChar(t[0])
    ensures ReplaceUnsafeRuns([c] + t) == ReplaceUnsafeRuns(t)
  {
    assert ([c] + t)[1..] == t;
  }

  lemma ExampleUnsafeRunsTail()
    ensures ReplaceUnsafeRuns("!! ") == "-"
  {
    UnsafeLone(' ', []);
    assert [' '] + [] == " ";
    UnsafePair('!', " ");
    assert ['!'] + " " == "! ";
    UnsafePair('!', "! ");
    assert ['!'] + "! " == "!! ";
  }

  lemma ExampleUnsafeRuns(s: string)
    requires s == "my photo!! "
    ensures ReplaceUnsafeRuns(s) == "my-photo-"
  {
    var t := s[3..];
    ExampleUnsafeRunsTail();
    assert t == "photo" + "!! ";
    ReplaceUnsafeRunsSafePrefix("photo", "!! ");
    var u := s[2..];
    assert u == [' '] + t;
    UnsafeLone(' ', t);
    assert s == "my" + u;
    ReplaceUnsafeRunsSafePrefix("my", u);
  }

  lemma ExampleLower(s: string)
    requires s == "My Photo!! "
    ensures ToLowerCase(s) == "my photo!! "
  {
  }

  lemma ExampleClean(s: string)
    requires s == "my photo!! "
    ensures Clean(s) == "my-photo"
  {
    ExampleUnsafeRuns(s);
    var t := ReplaceUnsafeRuns(s);
    assert NoDoubleDash(t) by {
      assert forall i :: 0 <= i < |t| && t[i] == '-' ==> i == 2 || i == 8;
    }
    assert CollapseDashes(t) == t;
    assert t[..8] == "my-photo";
  }

  lemma SanitizeFileNameExample()
    ensures SanitizeFileName("My Photo!! .PNG") == "my-photo"
  {
    ExampleName();
    ExampleLower("My Photo!! ");
    ExampleClean("my photo!! ");
  }
}
