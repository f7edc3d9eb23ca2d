/**
 * The upload service: how a storage key, its content type and its public
 * URL are built, the body that is sent, the listing of URLs, and how a key
 * is recovered from a URL for deletion. The S3 client is a parameter
 * (`S3`): each command's outcome is a function of the command.
 */
module FileUploader {
  import opened Wrappers
  import opened JsString
  import PosixPath
  import ImageProcessing

  type Bytes = ImageProcessing.Bytes

  /** A file as the upload middleware hands it over. */
  datatype UploadedFile = UploadedFile(name: string, mimetype: string, size: int, data: Bytes)

  datatype PutObject = PutObject(bucket: string, key: string, body: Bytes, contentType: string)
  datatype ListObjects = ListObjects(bucket: string, prefix: string)
  datatype DeleteObject = DeleteObject(bucket: string, key: string)

  /** One entry of a listing's `Contents`. */
  datatype StoredObject = StoredObject(key: string)

  /** What `deleteFile` resolves to (the SDK's own response is not modelled). */
  datatype DeleteResult = DeleteResult(message: string)

  /**
   * The three SDK commands. A listing's `Contents` may be absent; any
   * command may fail with an error message.
   */
  datatype S3 = S3(
    put: PutObject -> Result<(), string>,
    list: ListObjects -> Result<Option<seq<StoredObject>>, string>,
    delete: DeleteObject -> Result<(), string>)

  const WebpExtension := ".webp"
  const WebpContentType := "image/webp"

  /** The characters `/[-:.TZ]/g` removes from an ISO instant. */
  const IsoSeparators: set<char> := {'-', ':', '.', 'T', 'Z'}

  /** `toISOString().replace(/[-:.TZ]/g, "")`, with the ISO string given. */
  function Timestamp(iso: string): (r: string)
    ensures |r| <= |iso|
    ensures forall i :: 0 <= i < |r| ==> r[i] !in IsoSeparators
    ensures '/' !in iso ==> '/' !in r
  {
    if iso == [] then []
    else (if iso[0] in IsoSeparators then [] else [iso[0]]) + Timestamp(iso[1..])
  }

  lemma {:induction false} TimestampAppend(a: string, b: string)
    ensures Timestamp(a + b) == Timestamp(a) + Timestamp(b)
  {
    if a == [] {
      assert a + b == b;
    } else {
      assert (a + b)[0] == a[0];
      assert (a + b)[1..] == a[1..] + b;
      TimestampAppend(a[1..], b);
    }
  }

  lemma {:induction false} TimestampKeepsDigits(a: string)
    requires forall i :: 0 <= i < |a| ==> IsDigit(a[i])
    ensures Timestamp(a) == a
  {
    if a != [] {
      TimestampKeepsDigits(a[1..]);
    }
  }

  predicate IsDigit(c: char)
  {
    '0' <= c <= '9'
  }

  /** `s[i..j]` is all digits. */
  predicate DigitsIn(s: string, i: nat, j: nat)
    requires i <= j <= |s|
  {
    forall k :: i <= k < j ==> IsDigit(s[k])
  }

  /** The 24-character form `YYYY-MM-DDTHH:mm:ss.sssZ`. */
  predicate IsIsoInstant(s: string)
  {
    && |s| == 24
    && DigitsIn(s, 0, 4) && s[4] == '-' && DigitsIn(s, 5, 7) && s[7] == '-'
    && DigitsIn(s, 8, 10) && s[10] == 'T' && DigitsIn(s, 11, 13) && s[13] == ':'
    && DigitsIn(s, 14, 16) && s[16] == ':' && DigitsIn(s, 17, 19) && s[19] == '.'
    && DigitsIn(s, 20, 23) && s[23] == 'Z'
  }

  /** The digits of an ISO instant, in their order. */
  function IsoDigits(s: string): (r: string)
    requires |s| == 24
  {
    s[0..4] + (s[5..7] + (s[8..10] + (s[11..13] + (s[14..16] + (s[17..19] + s[20..23])))))
  }

  lemma TimestampSplit(s: string, a: nat, b: nat, c: nat)
    requires a <= b <= c <= |s|
    ensures Timestamp(s[a..c]) == Timestamp(s[a..b]) + Timestamp(s[b..c])
  {
    assert s[a..c] == s[a..b] + s[b..c];
    TimestampAppend(s[a..b], s[b..c]);
  }

  /** Keeps the digit run `s[i..j]`, then drops the separator `s[j]`. */
  lemma TimestampOfPiece(s: string, i: nat, j: nat)
    requires i <= j < |s|
    requires DigitsIn(s, i, j) && s[j] in IsoSeparators
    ensures Timestamp(s[i..j + 1]) == s[i..j]
  {
    TimestampSplit(s, i, j, j + 1);
    TimestampKeepsDigits(s[i..j]);
    assert s[j..j + 1] == [s[j]];
  }

  /** A digit run and its separator in front of a suffix whose timestamp is known. */
  lemma TimestampStep(s: string, i: nat, j: nat, rest: string)
    requires i <= j < |s|
    requires DigitsIn(s, i, j) && s[j] in IsoSeparators
    requires Timestamp(s[j + 1..]) == rest
    ensures Timestamp(s[i..]) == s[i..j] + rest
  {
    TimestampOfPiece(s, i, j);
    TimestampSplit(s, i, j + 1, |s|);
    assert s[i..|s|] == s[i..] && s[j + 1..|s|] == s[j + 1..];
  }

  /** A well-formed 24-character instant yields its 17 digits in order. */
  lemma TimestampOfIsoInstant(s: string)
    requires IsIsoInstant(s)
    ensures Timestamp(s) == IsoDigits(s)
  {
    assert s[24..] == [];
    var r6 := s[20..23];
    TimestampStep(s, 20, 23, []);
    assert s[20..23] + [] == r6;
    var r5 := s[17..19] + r6;
    TimestampStep(s, 17, 19, r6);
    var r4 := s[14..16] + r5;
    TimestampStep(s, 14, 16, r5);
    var r3 := s[11..13] + r4;
    TimestampStep(s, 11, 13, r4);
    var r2 := s[8..10] + r3;
    TimestampStep(s, 8, 10, r3);
    var r1 := s[5..7] + r2;
    TimestampStep(s, 5, 7, r2);
    TimestampStep(s, 0, 4, r1);
    assert s[0..] == s;
  }

  /** Those are 17 digits. */
  lemma IsoDigitsAreDigits(s: string)
    requires IsIsoInstant(s)
    ensures |IsoDigits(s)| == 17
    ensures forall i :: 0 <= i < 17 ==> IsDigit(IsoDigits(s)[i])
  {
    var d := IsoDigits(s);
    forall i | 0 <= i < 17 ensures IsDigit(d[i]) {
      var k := if i < 4 then i else if i < 6 then i + 1 else if i < 8 then i + 2
        else if i < 10 then i + 3 else if i < 12 then i + 4 else if i < 14 then i + 5 else i + 6;
      assert d[i] == s[k];
    }
  }

  /** `path.extname(file.name).toLowerCase()`. */
  function OriginalExt(fileName: string): string
  {
    ToLowerCase(PosixPath.ExtName(fileName))
  }

  /** `.webp` for an image, the (lower-cased) original extension otherwise. */
  function FinalExt(originalExt: string): (r: string)
    ensures ImageProcessing.IsImage(originalExt) ==> r == WebpExtension
    ensures !ImageProcessing.IsImage(originalExt) ==> r == originalExt
  {
    if ImageProcessing.IsImage(originalExt) then WebpExtension else originalExt
  }

  /** The `Content-Type` stored with the object. */
  function ContentTypeFor(originalExt: string, mimetype: string): (r: string)
    ensures ImageProcessing.IsImage(originalExt) ==> r == WebpContentType
    ensures !ImageProcessing.IsImage(originalExt) ==> r == mimetype
  {
    if ImageProcessing.IsImage(originalExt) then WebpContentType else mimetype
  }

  /** The storage key: `folder/name-timestamp.ext`, with one trailing `/` of the folder dropped. */
  function ObjectKey(folder: string, fileName: string, iso: string): string
  {
    RemoveOneTrailingSlash(folder) + "/" + KeySegment(fileName, iso)
  }

  /** The key's last segment: `name-timestamp.ext`. */
  function KeySegment(fileName: string, iso: string): string
  {
    ImageProcessing.SanitizeFileName(fileName) + "-" + Timestamp(iso) + FinalExt(OriginalExt(fileName))
  }

  /** Lower-casing keeps every `.` and `/` where it was. */
  lemma LowerKeepsExtension(e: string)
    requires PosixPath.IsExtension(e) && '/' !in e
    ensures PosixPath.IsExtension(ToLowerCase(e)) && '/' !in ToLowerCase(e)
    ensures |ToLowerCase(e)| == |e|
  {
    var l := ToLowerCase(e);
    if e != [] {
      assert l[0] == '.';
      forall j | 0 <= j < |l[1..]| ensures l[1..][j] != '.' {
        assert l[1..][j] == LowerChar(e[1..][j]);
      }
    }
    forall j | 0 <= j < |l| ensures l[j] != '/' {
      assert e[j] in e;
    }
  }

  /** The final extension has the shape of an extension and holds no `/`. */
  lemma FinalExtIsExtension(fileName: string)
    ensures PosixPath.IsExtension(FinalExt(OriginalExt(fileName)))
    ensures '/' !in FinalExt(OriginalExt(fileName))
  {
    if ImageProcessing.IsImage(OriginalExt(fileName)) {
      WebpIsExtension();
    } else {
      OriginalExtIsExtension(fileName);
    }
  }

  lemma WebpIsExtension()
    ensures PosixPath.IsExtension(WebpExtension) && '/' !in WebpExtension
  {
    assert WebpExtension[1..] == "webp";
  }

  lemma OriginalExtIsExtension(fileName: string)
    ensures PosixPath.IsExtension(OriginalExt(fileName)) && '/' !in OriginalExt(fileName)
  {
    PosixPath.NameAndExtSplitBase(fileName);
    LowerKeepsExtension(PosixPath.ExtName(fileName));
  }

  /** Neither the sanitised name nor the timestamp holds a `/`. */
  lemma StemHasNoSlash(fileName: string, iso: string)
    requires '/' !in iso
    ensures '/' !in ImageProcessing.SanitizeFileName(fileName)
    ensures '/' !in Timestamp(iso)
  {
    var name := ImageProcessing.SanitizeFileName(fileName);
    forall j | 0 <= j < |name| ensures name[j] != '/' {
      assert ImageProcessing.IsSafeChar(name[j]);
    }
  }

  /** The last segment of `dir/name-ts ext`. */
  lemma SegmentBase(dir: string, name: string, ts: string, fin: string)
    requires '/' !in name && '/' !in ts && '/' !in fin
    ensures PosixPath.Base(dir + "/" + (name + "-" + ts + fin)) == name + "-" + ts + fin
  {
    PosixPath.BaseOfJoin(dir, name + "-" + ts + fin);
  }

  /** The extension of `dir/name-ts ext`, for a non-empty `ext`. */
  lemma SegmentExt(dir: string, name: string, ts: string, fin: string)
    requires '/' !in name && '/' !in ts && '/' !in fin
    requires PosixPath.IsExtension(fin) && fin != []
    ensures PosixPath.ExtName(dir + "/" + (name + "-" + ts + fin)) == fin
  {
    var stem := name + "-" + ts;
    assert (stem + fin)[|name|] == '-';
    PosixPath.ExtNameOfJoin(dir, stem, fin);
    assert dir + "/" + stem + fin == dir + "/" + (name + "-" + ts + fin);
  }

  /**
   * The key is the folder with at most one `/` dropped, one `/`, and a last
   * segment holding name, dash, timestamp and final extension; when the
   * final extension is not empty it is the key's own extension.
   */
  lemma ObjectKeyLayout(folder: string, fileName: string, iso: string)
    requires '/' !in iso
    ensures PosixPath.Base(ObjectKey(folder, fileName, iso)) == KeySegment(fileName, iso)
    ensures FinalExt(OriginalExt(fileName)) != [] ==>
      PosixPath.ExtName(ObjectKey(folder, fileName, iso)) == FinalExt(OriginalExt(fileName))
  {
    var dir := RemoveOneTrailingSlash(folder);
    var name := ImageProcessing.SanitizeFileName(fileName);
    var ts := Timestamp(iso);
    var fin := FinalExt(OriginalExt(fileName));
    FinalExtIsExtension(fileName);
    StemHasNoSlash(fileName, iso);
    SegmentBase(dir, name, ts, fin);
    if fin != [] {
      SegmentExt(dir, name, ts, fin);
    }
  }

  /** An image is always stored under a `.webp` key. */
  lemma ImageKeyIsWebp(folder: string, fileName: string, iso: string)
    requires '/' !in iso
    requires ImageProcessing.IsImage(OriginalExt(fileName))
    ensures PosixPath.ExtName(ObjectKey(folder, fileName, iso)) == WebpExtension
  {
    ObjectKeyLayout(folder, fileName, iso);
  }

  /**
   * A file name without an extension gives a key without one, unless its
   * base is "..": the segment is then `..-{timestamp}`, whose extension is
   * `.-{timestamp}`.
   */
  lemma ExtensionlessKeyHasNoExtension(folder: string, fileName: string, iso: string)
    requires '/' !in iso
    requires PosixPath.ExtName(fileName) == [] && PosixPath.Base(fileName) != ".."
    ensures PosixPath.ExtName(ObjectKey(folder, fileName, iso)) == []
  {
    assert FinalExt(OriginalExt(fileName)) == [];
    PosixPath.NoExtensionName(fileName);
    ImageProcessing.SanitizeFileNameDotOnlyFirst(fileName);
    StemHasNoSlash(fileName, iso);
    SegmentNoExt(RemoveOneTrailingSlash(folder), ImageProcessing.SanitizeFileName(fileName),
      Timestamp(iso), FinalExt(OriginalExt(fileName)));
  }

  /** `dir/name-ts` has no extension when `name` has a `.` at most in front and `ts` none. */
  lemma SegmentNoExt(dir: string, name: string, ts: string, fin: string)
    requires '/' !in name && '/' !in ts && fin == []
    requires PosixPath.DotOnlyFirst(name)
    requires forall i :: 0 <= i < |ts| ==> ts[i] !in IsoSeparators
    ensures PosixPath.ExtName(dir + "/" + (name + "-" + ts + fin)) == []
  {
    var seg := name + "-" + ts + fin;
    assert PosixPath.DotOnlyFirst(seg) by {
      forall i | 0 < i < |seg| ensures seg[i] != '.' {
        if i > |name| {
          assert seg[i] == ts[i - |name| - 1];
        }
      }
    }
    PosixPath.ExtNameOfDotless(dir, seg);
  }

  /**
   * A file that is not an image keeps its lower-cased extension, the empty
   * one included (a base of ".." apart).
   */
  lemma OtherKeyKeepsExtension(folder: string, fileName: string, iso: string)
    requires '/' !in iso
    requires !ImageProcessing.IsImage(OriginalExt(fileName))
    requires PosixPath.Base(fileName) != ".."
    ensures PosixPath.ExtName(ObjectKey(folder, fileName, iso))
      == ToLowerCase(PosixPath.ExtName(fileName))
  {
    if PosixPath.ExtName(fileName) == [] {
      ExtensionlessKeyHasNoExtension(folder, fileName, iso);
    } else {
      ObjectKeyLayout(folder, fileName, iso);
    }
  }

  class FileUploaderService {
    const bucket: string
    const region: string
    /** The public origin of the bucket. */
    const basePath: string

    constructor (bucket: string, region: string)
      ensures this.bucket == bucket && this.region == region
      ensures basePath == "https://" + bucket + ".s3." + region + ".amazonaws.com"
    {
      this.bucket := bucket;
      this.region := region;
      this.basePath := "https://" + bucket + ".s3." + region + ".amazonaws.com";
    }

    /** The public URL of a key. */
    function UrlFor(key: string): string
    {
      basePath + "/" + key
    }

    /** `filepath.replace(basePath + "/", "")`: the key a delete request names. */
    function KeyFromPath(filepath: string): string
    {
      RemoveFirst(filepath, basePath + "/")
    }

    /** Recovering the key from its URL gives the key back. */
    lemma KeyFromUrl(key: string)
      ensures KeyFromPath(UrlFor(key)) == key
    {
      assert UrlFor(key) == (basePath + "/") + key;
      RemoveFirstOfPrefixed(basePath + "/", key);
    }

    /** A path that does not contain the base URL is taken as a key as it is. */
    lemma KeyFromPlainPath(filepath: string)
      requires forall i :: 0 <= i <= |filepath| ==> !OccursAt(filepath, basePath + "/", i)
      ensures KeyFromPath(filepath) == filepath
    {
      RemoveFirstAbsent(filepath, basePath + "/");
    }

    /** The put command `uploadAsync` sends for a file: its body is the file's own data. */
    function PutCommand(file: UploadedFile, folder: string, iso: string): PutObject
    {
      PutObject(bucket, ObjectKey(folder, file.name, iso), file.data,
        ContentTypeFor(OriginalExt(file.name), file.mimetype))
    }

    /**
     * What `uploadAsync` resolves or rejects with: an image whose
     * transcoding fails rejects with that error before anything is sent;
     * otherwise the put command is sent and the URL of the key is the result,
     * unless the store rejects the command.
     */
    function UploadOutcome(file: UploadedFile, folder: string, iso: string,
                           sharp: ImageProcessing.Sharp, s3: S3): Result<string, string>
    {
      var ext := OriginalExt(file.name);
      var key := ObjectKey(folder, file.name, iso);
      if ImageProcessing.IsImage(ext) && ImageProcessing.ProcessImage(sharp, file.data).Failure? then
        Failure(ImageProcessing.ProcessImage(sharp, file.data).error)
      else
        match s3.put(PutCommand(file, folder, iso))
        case Failure(e) => Failure(e)
        case Success(_) => Success(UrlFor(key))
    }

    /**
     * A file's outcome depends on the store only through the file's own put
     * command: stores that answer that command alike, however they answer
     * other files' commands, give the same outcome.
     */
    lemma OutcomeDependsOnOwnCommand(file: UploadedFile, folder: string, iso: string,
                                     sharp: ImageProcessing.Sharp, s3: S3, s3': S3)
      requires s3.put(PutCommand(file, folder, iso)) == s3'.put(PutCommand(file, folder, iso))
      ensures UploadOutcome(file, folder, iso, sharp, s3) == UploadOutcome(file, folder, iso, sharp, s3')
    {
    }

    /**
     * A successful upload gives the URL of the upload's key, and that URL,
     * passed to `deleteFile`, names the same key.
     */
    lemma UploadedUrlNamesKey(file: UploadedFile, folder: string, iso: string,
                              sharp: ImageProcessing.Sharp, s3: S3)
      ensures UploadOutcome(file, folder, iso, sharp, s3).Success? ==>
        var url := UploadOutcome(file, folder, iso, sharp, s3).value;
        && url == basePath + "/" + ObjectKey(folder, file.name, iso)
        && KeyFromPath(url) == ObjectKey(folder, file.name, iso)
    {
      KeyFromUrl(ObjectKey(folder, file.name, iso));
    }

    /**
     * `uploadAsync`. The transcoded buffer goes to a block-scoped
     * `buffer` that shadows the outer one, so the body sent is always the
     * file's own data, even when the key and content type say WebP.
     */
    method UploadAsync(file: UploadedFile, folder: string, iso: string,
                       sharp: ImageProcessing.Sharp, s3: S3)
      returns (url: Result<string, string>, sent: Option<PutObject>)
      ensures url == UploadOutcome(file, folder, iso, sharp, s3)
      ensures sent.None? <==>
        ImageProcessing.IsImage(OriginalExt(file.name))
        && ImageProcessing.ProcessImage(sharp, file.data).Failure?
      ensures sent.Some? ==> sent.value == PutCommand(file, folder, iso)
      ensures sent.Some? ==> sent.value.body == file.data
    {
      var originalExt := OriginalExt(file.name);
      var isImage := ImageProcessing.IsImage(originalExt);
      var key := ObjectKey(folder, file.name, iso);

      var buffer := file.data;

      if ImageProcessing.IsImage(originalExt) {
        var buffer := file.data;
        var resized := ImageProcessing.ResizeImageIfNeeded(sharp, buffer);
        if resized.Failure? {
          return Failure(resized.error), None;
        }
        buffer := resized.value;
        var encoded := ImageProcessing.EncodeWebP(sharp, buffer);
        if encoded.Failure? {
          return Failure(encoded.error), None;
        }
        buffer := encoded.value;
      }

      var command := PutObject(bucket, key, buffer, if isImage then WebpContentType else file.mimetype);
      assert command == PutCommand(file, folder, iso);
      sent := Some(command);
      var response := s3.put(command);
      if response.Failure? {
        return Failure(response.error), sent;
      }
      url := Success(basePath + "/" + key);
    }

    /** The URLs of a listing, one per object in order; none when `Contents` is absent. */
    function ListedUrls(contents: Option<seq<StoredObject>>): (r: seq<string>)
      ensures contents.None? ==> r == []
      ensures contents.Some? ==> |r| == |contents.value|
      ensures contents.Some? ==>
        forall i :: 0 <= i < |r| ==> r[i] == UrlFor(contents.value[i].key)
    {
      match contents
      case None => []
      case Some(objects) => seq(|objects|, i requires 0 <= i < |objects| => UrlFor(objects[i].key))
    }

    /** Every listed URL, passed to `deleteFile`, names the listed key. */
    lemma ListedUrlsLeadBackToKeys(objects: seq<StoredObject>, i: nat)
      requires i < |objects|
      ensures KeyFromPath(ListedUrls(Some(objects))[i]) == objects[i].key
    {
      KeyFromUrl(objects[i].key);
    }

    /** `getUploads`: list under the folder prefix, then map keys to URLs. */
    method GetUploads(folder: string, s3: S3) returns (urls: Result<seq<string>, string>)
      ensures s3.list(ListObjects(bucket, folder)).Failure? ==>
        urls == Failure(s3.list(ListObjects(bucket, folder)).error)
      ensures s3.list(ListObjects(bucket, folder)).Success? ==>
        urls == Success(ListedUrls(s3.list(ListObjects(bucket, folder)).value))
    {
      var response := s3.list(ListObjects(bucket, folder));
      if response.Failure? {
        return Failure(response.error);
      }
      var contents := if response.value.Some? then response.value.value else [];
      urls := Success(ListedUrls(Some(contents)));
    }

    /** `deleteFile`: the key recovered from the path is the one deleted. */
    method DeleteFile(filepath: string, s3: S3) returns (r: Result<DeleteResult, string>)
      ensures s3.delete(DeleteObject(bucket, KeyFromPath(filepath))).Failure? ==>
        r == Failure(s3.delete(DeleteObject(bucket, KeyFromPath(filepath))).error)
      ensures s3.delete(DeleteObject(bucket, KeyFromPath(filepath))).Success? ==>
        r == Success(DeleteResult("Deleted " + KeyFromPath(filepath)))
    {
      var key := KeyFromPath(filepath);
      var response := s3.delete(DeleteObject(bucket, key));
      if response.Failure? {
        return Failure(response.error);
      }
      r := Success(DeleteResult("Deleted " + key));
    }
  }
}
