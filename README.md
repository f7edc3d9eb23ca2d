# S3 file-upload gateway: the upload pipeline in Dafny

This project models the decision logic of a small HTTP gateway that stores
uploaded files in an S3 bucket. It covers four things:

- how a file name is sanitised for use in a storage key;
- when an image is resized and which WebP options it is encoded with;
- how the storage key `{folder}/{name}-{timestamp}{ext}`, its content type and
  its public URL `https://{bucket}.s3.{region}.amazonaws.com/{key}` are built;
- what the three endpoints (upload, list, delete) return, including their
  error cases.

The JavaScript primitives the pipeline relies on are written out and proved
about, each in its own module:

- `toLowerCase`, `trim`, `replace` with a string pattern, and
  `replace(/\/$/, "")` in `JsString`;
- Node's POSIX `path.parse(...).name` and `path.extname` in `PosixPath`.

The two foreign libraries are parameters of the model:

- the `sharp` image library is `ImageProcessing.Sharp`;
- the S3 client is `FileUploader.S3`.

Each is a record of functions from a request to `Success(answer)` or
`Failure(message)`. So every property below holds whatever the library
answers. The clock is a parameter too. `UploadAsync` receives the ISO-8601
string that `new Date().toISOString()` would give. `Uploads.UploadFiles`
receives `clock: nat -> string`, which is the instant task `i` reads.

Modules:

- `Wrappers`: `Option` and `Result`.
- `JsString`: the JavaScript string operations.
- `PosixPath`: Node's POSIX path parsing.
- `ImageProcessing`: `ImageProcessingHelper.js`.
- `SanitizeExample`: the worked example `"My Photo!! .PNG"` to `"my-photo"`.
- `FileUploader`: `fileUploaderService.js`, with the class `FileUploaderService`.
- `Uploads`: `UploadsController.js`.

Where the design description and the code disagree, the model follows the
code:

- **The sanitised name can be empty.** A name made only of unsafe characters
  sanitises to `""`. The key then reads `{folder}/-{timestamp}{ext}`.
  `SanitizeFileName` promises the clean shape but not non-emptiness.
- **Only one trailing `/` is removed.** The regular expression `/\/$/` has no
  `g` flag. `"a//"` becomes `"a/"` (`RemoveOneTrailingSlashKeepsSecond`), so
  a folder or entity type ending in `//` still yields a doubled separator in
  the key.
- **The original bytes are stored.** For an image, the transcoded bytes are
  assigned to a `let buffer` declared inside the `if` block. That variable
  shadows the outer `buffer`, so the body sent to S3 is always the file's
  original data, while the key ends in `.webp` and the content type says
  `image/webp`. `UploadAsync` reproduces the shadowing and proves
  `sent.value.body == file.data`. A transcoding failure still rejects the
  upload before anything is sent.

## Model

| member | source | states |
|---|---|---|
| JsString.ToLowerCase | fileupdatewiths3/src/utils/ImageProcessingHelper.js:87 | the result has the input's length and each character is the lower-cased input character (ASCII letters mapped, all others kept) |
| JsString.ToLowerCaseIdempotent | fileupdatewiths3/src/utils/ImageProcessingHelper.js:50 | lower-casing an already lower-cased string changes nothing |
| JsString.IndexOfFrom | fileupdatewiths3/src/services/fileUploaderService.js:82 | the search from index `k` gives -1 or an occurrence at or after `k`, with none between `k` and it; `IndexOf` is the search from 0 |
| JsString.IndexOf | fileupdatewiths3/src/services/fileUploaderService.js:82 | the result is -1 or an index where the pattern occurs, and the pattern occurs at no smaller index |
| JsString.RemoveFirst | fileupdatewiths3/src/services/fileUploaderService.js:82 | `replace(pat, "")` with a string pattern: unchanged when the pattern is absent; otherwise exactly the first occurrence is cut out, and putting it back at the first-occurrence index rebuilds the input |
| JsString.RemoveFirstOfPrefixed | fileupdatewiths3/src/services/fileUploaderService.js:82 | a string that starts with the pattern loses exactly that prefix |
| JsString.RemoveFirstAbsent | fileupdatewiths3/src/services/fileUploaderService.js:82 | a string in which the pattern occurs nowhere is returned unchanged |
| JsString.RemoveOneTrailingSlash | fileupdatewiths3/src/services/fileUploaderService.js:38 | a string ending in `/` loses exactly that one character (result + "/" is the input); any other string is unchanged |
| JsString.RemoveOneTrailingSlashKeepsSecond | fileupdatewiths3/src/controllers/UploadsController.js:40 | without the `g` flag only one slash goes: `s + "//"` becomes `s + "/"` |
| JsString.TrimStart | fileupdatewiths3/src/controllers/UploadsController.js:40 | the result is a suffix of the input that does not start with white space, and every character removed is white space |
| JsString.TrimEnd | fileupdatewiths3/src/controllers/UploadsController.js:40 | the result is a prefix of the input that does not end with white space, and every character removed is white space |
| JsString.Trim | fileupdatewiths3/src/controllers/UploadsController.js:40 | `trim()`: no longer than the input, neither end is white space, and every character comes from the input |
| JsString.TrimOfTrimmed | fileupdatewiths3/src/controllers/UploadsController.js:40 | a string whose ends are not white space is its own trim |
| PosixPath.DropTrailingSlashes | fileupdatewiths3/src/services/fileUploaderService.js:32 | the result is a prefix of the path that does not end in `/`, and everything dropped is `/` |
| PosixPath.LastIndexOf | fileupdatewiths3/src/services/fileUploaderService.js:32 | -1 or an index holding the character, with no occurrence after it |
| PosixPath.Base | fileupdatewiths3/src/utils/ImageProcessingHelper.js:87 | the base of a path never contains `/` |
| PosixPath.ExtStart | fileupdatewiths3/src/services/fileUploaderService.js:32 | the extension starts within the base |
| PosixPath.Name | fileupdatewiths3/src/utils/ImageProcessingHelper.js:87 | `path.parse(p).name`: the base up to where its extension starts (no contract of its own; `NameAndExtSplitBase`, `ExtNameOfJoin` and `NoExtensionName` state it) |
| PosixPath.ExtName | fileupdatewiths3/src/services/fileUploaderService.js:32 | `path.extname(p)`: the base from where its extension starts (no contract of its own; `NameAndExtSplitBase`, `ExtNameOfJoin` and `ExtNameOfDotless` state it) |
| PosixPath.NameAndExtSplitBase | fileupdatewiths3/src/utils/ImageProcessingHelper.js:87 | `path.parse(p).name` followed by `path.extname(p)` is the base; neither holds `/`; the extension is empty or one dot followed by dot-free text; a non-empty extension has a non-empty name before it |
| PosixPath.BaseOfJoin | fileupdatewiths3/src/services/fileUploaderService.js:38 | the base of `dir/seg` is `seg` for any non-empty segment without `/` |
| PosixPath.ExtNameOfJoin | fileupdatewiths3/src/services/fileUploaderService.js:38 | for `dir/stem ext` with a non-empty stem and a dotted extension (base not ".."), `extname` gives back `ext` and `name` gives back `stem` |
| PosixPath.NoExtensionName | fileupdatewiths3/src/utils/ImageProcessingHelper.js:87 | a path with no extension whose base is not ".." has its whole base as name, with a `.` at most as its first character |
| PosixPath.ExtNameOfDotless | fileupdatewiths3/src/services/fileUploaderService.js:38 | `dir/seg` has an empty extension when `seg` is a non-empty segment with a `.` at most as its first character |
| ImageProcessing.ShouldResize | fileupdatewiths3/src/utils/ImageProcessingHelper.js:17-22 | width above 1920 or height above 1080, where a missing dimension compares false (no contract of its own; `ShouldResizeExactlyOutsideBox` states it) |
| ImageProcessing.ShouldResizeExactlyOutsideBox | fileupdatewiths3/src/utils/ImageProcessingHelper.js:17-22 | with both dimensions known, an image is resized exactly when it is wider than 1920 or taller than 1080; 1920x1080 itself is not resized |
| ImageProcessing.IsImage | fileupdatewiths3/src/utils/ImageProcessingHelper.js:49-51 | the lower-cased extension is one of `.jpg`, `.jpeg`, `.png`, `.webp` (no contract of its own; `IsImageIgnoresCase` states its case-insensitivity) |
| ImageProcessing.IsImageIgnoresCase | fileupdatewiths3/src/utils/ImageProcessingHelper.js:49-51 | the image test gives the same answer for an extension and its lower-cased form |
| ImageProcessing.HasAlpha | fileupdatewiths3/src/utils/ImageProcessingHelper.js:58-60 | `hasAlpha === true`: a missing flag is false (no contract of its own; `WebpOptionsFor` states its effect) |
| ImageProcessing.WebpOptionsFor | fileupdatewiths3/src/utils/ImageProcessingHelper.js:58-77 | quality 75 and near-lossless always; lossless exactly when the metadata's `hasAlpha` is `true` (missing counts as false) |
| ImageProcessing.ResizeImageIfNeeded | fileupdatewiths3/src/utils/ImageProcessingHelper.js:29-42 | a metadata failure fails with its message; an image within the box is returned as the very buffer given; a larger one is whatever resizing to fit inside 1920x1080 gives |
| ImageProcessing.EncodeWebP | fileupdatewiths3/src/utils/ImageProcessingHelper.js:67-79 | a metadata failure fails with its message; otherwise the encoder is called with quality 75, near-lossless, and lossless set from the alpha flag |
| ImageProcessing.ProcessImage | fileupdatewiths3/src/utils/ImageProcessingHelper.js:100-103 | a resize failure propagates; otherwise the result is the WebP encoding of the resized buffer |
| ImageProcessing.SmallImageEncodedFromOriginal | fileupdatewiths3/src/utils/ImageProcessingHelper.js:100-103 | an image within the box is encoded straight from the original buffer |
| ImageProcessing.ReplaceUnsafeRuns | fileupdatewiths3/src/utils/ImageProcessingHelper.js:89 | the result has only `[a-z0-9._-]`, is no longer than the input, and starts with the input's first character or with `-` for an unsafe one |
| ImageProcessing.ReplaceUnsafeRunsKeepsSafe | fileupdatewiths3/src/utils/ImageProcessingHelper.js:89 | a string of safe characters is not rewritten |
| ImageProcessing.ReplaceUnsafeRunsSafePrefix | fileupdatewiths3/src/utils/ImageProcessingHelper.js:89 | a prefix of safe characters is copied through unchanged in front of the rewritten rest |
| ImageProcessing.ReplaceUnsafeRunsNoDot | fileupdatewiths3/src/utils/ImageProcessingHelper.js:89 | rewriting unsafe runs brings in no `.` |
| ImageProcessing.ReplaceUnsafeRunsDotOnlyFirst | fileupdatewiths3/src/utils/ImageProcessingHelper.js:89 | rewriting unsafe runs puts no `.` after the first character |
| ImageProcessing.CollapseDashes | fileupdatewiths3/src/utils/ImageProcessingHelper.js:90 | no `--` remains, the first character is kept, safety is kept, and a string without `--` is unchanged |
| ImageProcessing.CollapseDashesNoDot | fileupdatewiths3/src/utils/ImageProcessingHelper.js:90 | collapsing dashes brings in no `.` |
| ImageProcessing.CollapseDashesDotOnlyFirst | fileupdatewiths3/src/utils/ImageProcessingHelper.js:90 | collapsing dashes puts no `.` after the first character |
| ImageProcessing.TrimDashEnds | fileupdatewiths3/src/utils/ImageProcessingHelper.js:91 | safety and the absence of `--` are kept, a string without `--` comes out with no dash at either end, and one without edge dashes is unchanged |
| ImageProcessing.TrimDashEndsDotOnlyFirst | fileupdatewiths3/src/utils/ImageProcessingHelper.js:91 | trimming edge dashes puts no `.` after the first character |
| ImageProcessing.Clean | fileupdatewiths3/src/utils/ImageProcessingHelper.js:88-91 | the three rewrites give only `[a-z0-9._-]`, no `--`, no leading or trailing `-`, and are never longer than the input |
| ImageProcessing.CleanKeepsCleanNames | fileupdatewiths3/src/utils/ImageProcessingHelper.js:88-91 | a name already in the clean shape is unchanged |
| ImageProcessing.CleanIdempotent | fileupdatewiths3/src/utils/ImageProcessingHelper.js:88-91 | cleaning twice is cleaning once |
| ImageProcessing.CleanKeepsPlainNames | fileupdatewiths3/src/utils/ImageProcessingHelper.js:88-91 | a name made only of `[a-z0-9._]` is unchanged |
| ImageProcessing.SanitizeFileName | fileupdatewiths3/src/utils/ImageProcessingHelper.js:86-93 | `sanitizeFileName`: only `[a-z0-9._-]`, no `--`, no leading or trailing `-`, never longer than the parsed name (possibly empty) |
| ImageProcessing.SanitizeFileNameDotOnlyFirst | fileupdatewiths3/src/utils/ImageProcessingHelper.js:86-93 | a parsed name with a `.` at most in front sanitises to a name of the same kind |
| ImageProcessing.SanitizeFileNameIdempotent | fileupdatewiths3/src/utils/ImageProcessingHelper.js:86-93 | a sanitised name without a dot sanitises to itself |
| SanitizeExample.ExampleBase | fileupdatewiths3/src/utils/ImageProcessingHelper.js:87 | the base of "My Photo!! .PNG" is the whole string |
| SanitizeExample.ExampleName | fileupdatewiths3/src/utils/ImageProcessingHelper.js:87 | its parsed name is "My Photo!! " |
| SanitizeExample.UnsafeLone | fileupdatewiths3/src/utils/ImageProcessingHelper.js:89 | an unsafe character before a safe one (or the end) becomes one dash |
| SanitizeExample.UnsafePair | fileupdatewiths3/src/utils/ImageProcessingHelper.js:89 | an unsafe character before another unsafe one joins its run |
| SanitizeExample.ExampleUnsafeRunsTail | fileupdatewiths3/src/utils/ImageProcessingHelper.js:89 | the run "!! " becomes one dash |
| SanitizeExample.ExampleUnsafeRuns | fileupdatewiths3/src/utils/ImageProcessingHelper.js:89 | "my photo!! " becomes "my-photo-" |
| SanitizeExample.ExampleClean | fileupdatewiths3/src/utils/ImageProcessingHelper.js:88-91 | "my photo!! " cleans to "my-photo" |
| SanitizeExample.SanitizeFileNameExample | fileupdatewiths3/src/utils/ImageProcessingHelper.js:86-93 | `sanitizeFileName("My Photo!! .PNG")` is "my-photo" |
| FileUploader.Timestamp | fileupdatewiths3/src/services/fileUploaderService.js:35 | `replace(/[-:.TZ]/g, "")`: no longer than the input, none of `- : . T Z` left, and no `/` introduced |
| FileUploader.TimestampAppend | fileupdatewiths3/src/services/fileUploaderService.js:35 | the removal works piece by piece: on a concatenation it is the concatenation of the pieces' results |
| FileUploader.TimestampKeepsDigits | fileupdatewiths3/src/services/fileUploaderService.js:35 | a string of digits is kept as it is |
| FileUploader.TimestampSplit | fileupdatewiths3/src/services/fileUploaderService.js:35 | the removal on a slice is the removal on its two halves, concatenated |
| FileUploader.TimestampOfPiece | fileupdatewiths3/src/services/fileUploaderService.js:35 | a digit run followed by one separator keeps the digits |
| FileUploader.TimestampStep | fileupdatewiths3/src/services/fileUploaderService.js:35 | a digit run and its separator contribute their digits in front of the rest |
| FileUploader.TimestampOfIsoInstant | fileupdatewiths3/src/services/fileUploaderService.js:35 | for a well-formed `YYYY-MM-DDTHH:mm:ss.sssZ` instant the timestamp is exactly its digits in order |
| FileUploader.IsoDigitsAreDigits | fileupdatewiths3/src/services/fileUploaderService.js:35 | those are 17 digits |
| FileUploader.OriginalExt | fileupdatewiths3/src/services/fileUploaderService.js:32 | `path.extname(file.name).toLowerCase()` (no contract of its own; `OriginalExtIsExtension` states its shape) |
| FileUploader.FinalExt | fileupdatewiths3/src/services/fileUploaderService.js:36 | `.webp` for an image extension, the lower-cased original extension otherwise |
| FileUploader.ContentTypeFor | fileupdatewiths3/src/services/fileUploaderService.js:53 | `image/webp` for an image, the client's MIME type otherwise |
| FileUploader.ObjectKey | fileupdatewiths3/src/services/fileUploaderService.js:38 | the key builder `folder/name-timestamp ext`, with one trailing `/` of the folder dropped; its only contract is `ObjectKeyLayout`, `ImageKeyIsWebp`, `OtherKeyKeepsExtension` and `ExtensionlessKeyHasNoExtension` |
| FileUploader.KeySegment | fileupdatewiths3/src/services/fileUploaderService.js:38 | the key's last segment: sanitised name, `-`, timestamp, final extension (no contract of its own; `ObjectKeyLayout` states that it is the key's base) |
| FileUploader.LowerKeepsExtension | fileupdatewiths3/src/services/fileUploaderService.js:32 | lower-casing keeps the extension shape, its length and the absence of `/` |
| FileUploader.WebpIsExtension | fileupdatewiths3/src/services/fileUploaderService.js:36 | `.webp` has the extension shape |
| FileUploader.OriginalExtIsExtension | fileupdatewiths3/src/services/fileUploaderService.js:32 | the lower-cased original extension has the extension shape and no `/` |
| FileUploader.FinalExtIsExtension | fileupdatewiths3/src/services/fileUploaderService.js:32-36 | the final extension has the extension shape and holds no `/` |
| FileUploader.StemHasNoSlash | fileupdatewiths3/src/services/fileUploaderService.js:34-35 | neither the sanitised name nor the timestamp holds `/` |
| FileUploader.SegmentBase | fileupdatewiths3/src/services/fileUploaderService.js:38 | the last segment of `dir/name-ts ext` is `name-ts ext` |
| FileUploader.SegmentExt | fileupdatewiths3/src/services/fileUploaderService.js:38 | the extension of `dir/name-ts ext` is `ext` when it is not empty |
| FileUploader.SegmentNoExt | fileupdatewiths3/src/services/fileUploaderService.js:38 | `dir/name-ts` has no extension when the name has a `.` at most in front and the timestamp has no separator |
| FileUploader.ObjectKeyLayout | fileupdatewiths3/src/services/fileUploaderService.js:32-38 | the key's last path segment is `name-timestamp ext`, and a non-empty final extension is the key's own `extname` (the empty case is `ExtensionlessKeyHasNoExtension`) |
| FileUploader.ImageKeyIsWebp | fileupdatewiths3/src/services/fileUploaderService.js:36-38 | an image is always stored under a key whose extension is `.webp`, whatever its original extension |
| FileUploader.OtherKeyKeepsExtension | fileupdatewiths3/src/services/fileUploaderService.js:36-38 | a file that is not an image keeps its original extension, lower-cased, as the key's extension, an empty one included; excepted is a base of "..", whose key segment `..-{timestamp}` has the extension `.-{timestamp}` |
| FileUploader.ExtensionlessKeyHasNoExtension | fileupdatewiths3/src/services/fileUploaderService.js:32-38 | a file name with no extension (base not "..") gives a key with no extension |
| FileUploader.FileUploaderService.constructor | fileupdatewiths3/src/services/fileUploaderService.js:9-14 | bucket and region are kept, and the base path is `https://{bucket}.s3.{region}.amazonaws.com` |
| FileUploader.FileUploaderService.UrlFor | fileupdatewiths3/src/services/fileUploaderService.js:57 | the public URL of a key, the base path, `/`, then the key (no contract of its own; `KeyFromUrl` states its inverse) |
| FileUploader.FileUploaderService.KeyFromPath | fileupdatewiths3/src/services/fileUploaderService.js:82 | the first occurrence of the base path and `/` cut out of the path (no contract of its own; `RemoveFirst`, `KeyFromUrl` and `KeyFromPlainPath` state it) |
| FileUploader.FileUploaderService.KeyFromUrl | fileupdatewiths3/src/services/fileUploaderService.js:82 | taking the key out of a key's public URL gives that key back |
| FileUploader.FileUploaderService.KeyFromPlainPath | fileupdatewiths3/src/services/fileUploaderService.js:82 | a path not containing the base URL is used as the key unchanged |
| FileUploader.FileUploaderService.PutCommand | fileupdatewiths3/src/services/fileUploaderService.js:49-54 | bucket, key, the file's own bytes as body, and the content type (no contract of its own; `UploadAsync` states it is what is sent and that the body is `file.data`) |
| FileUploader.FileUploaderService.UploadOutcome | fileupdatewiths3/src/services/fileUploaderService.js:31-58 | an image whose transcoding fails rejects with that error; otherwise the store's rejection of the put command, or the key's URL (no contract of its own; `UploadAsync`, `UploadedUrlNamesKey` and `OutcomeDependsOnOwnCommand` state it) |
| FileUploader.FileUploaderService.OutcomeDependsOnOwnCommand | fileupdatewiths3/src/services/fileUploaderService.js:31-58 | an upload's outcome depends on the store only through the file's own put command |
| FileUploader.FileUploaderService.UploadedUrlNamesKey | fileupdatewiths3/src/services/fileUploaderService.js:57 | a successful upload resolves to the base path, `/` and the key, and that URL recovers the key for deletion |
| FileUploader.FileUploaderService.UploadAsync | fileupdatewiths3/src/services/fileUploaderService.js:31-58 | the result is the upload outcome; nothing is sent exactly when an image fails to transcode; otherwise the put command carries the bucket, the key, the content type and the file's original bytes |
| FileUploader.FileUploaderService.ListedUrls | fileupdatewiths3/src/services/fileUploaderService.js:72-73 | an absent `Contents` gives no URLs; otherwise one URL per object, in order, each the base path followed by the object's key |
| FileUploader.FileUploaderService.ListedUrlsLeadBackToKeys | fileupdatewiths3/src/services/fileUploaderService.js:73 | each listed URL, handed to delete, names the listed key |
| FileUploader.FileUploaderService.GetUploads | fileupdatewiths3/src/services/fileUploaderService.js:65-74 | lists with the folder as prefix; a failure propagates its message, a success gives the listed URLs |
| FileUploader.FileUploaderService.DeleteFile | fileupdatewiths3/src/services/fileUploaderService.js:81-91 | deletes the key recovered from the path; a failure propagates its message, a success reports `Deleted {key}` |
| Uploads.ResolveFolder | fileupdatewiths3/src/controllers/UploadsController.js:36-41 | with both entity type and id present and non-empty: trimmed type, one trailing `/` removed, `/`, id; otherwise `uploads`; never empty |
| Uploads.ResolveFolderExample | fileupdatewiths3/src/controllers/UploadsController.js:40 | "products/" and "42" give "products/42" |
| Uploads.NormalizeFiles | fileupdatewiths3/src/controllers/UploadsController.js:32-34 | a single file becomes a one-element list, a list is kept as it is |
| Uploads.ListFolder | fileupdatewiths3/src/controllers/UploadsController.js:17 | the query's folder when present and non-empty, `uploads` otherwise |
| Uploads.DescribesDetermines | fileupdatewiths3/src/controllers/UploadsController.js:44-59 | a per-file record has `success` true with a URL or false with an error, never both, and the file and outcome fix it entirely |
| Uploads.UploadTask | fileupdatewiths3/src/controllers/UploadsController.js:43-60 | the record carries the file's name, MIME type and size, and `success`/`url` or `success`/`error` from that file's upload outcome |
| Uploads.UploadFiles | fileupdatewiths3/src/controllers/UploadsController.js:25-67 | no `files` field fails the request with "No files were sent to upload"; otherwise one record per file in the files' order, record `i` describing file `i`'s own upload into the resolved folder, so a failing file never affects another |
| Uploads.GetUploads | fileupdatewiths3/src/controllers/UploadsController.js:15-23 | lists the query's folder (`uploads` by default) and passes a failure through |
| Uploads.DeleteFile | fileupdatewiths3/src/controllers/UploadsController.js:69-79 | a missing or empty `filename` fails with "Missing filename to delete"; otherwise the reply is `Deleted {filename}` with the service's result, or the store's error |

## Left out

- The S3 client and its network calls: the store is the `S3` parameter, whose answers are arbitrary functions of the command.
- The pixel work of `sharp`: metadata reading, resizing and WebP encoding are the `Sharp` parameter. The model records only which calls are made, with which arguments, and how failures propagate.
- Express routing, `BaseController`, and the `express-fileupload` middleware with its 50 MiB limit and temporary files (fileupdatewiths3/src/controllers/UploadsController.js:6-13): a request arrives already parsed as `UploadRequest`.
- Forwarding errors with `next(error)`: a whole-request error is a `Failure(message)`.
- The parallel `Promise.all` over upload tasks: the tasks share no state, so they run one after another. Each task's instant comes from `clock(i)`, so the model does not capture interleavings or their order.
- `Uploads.UploadFiles`: the results are a sequence filled by index rather than a JavaScript array.
- Reading `process.env` and the credentials given to the S3 client (fileupdatewiths3/src/services/fileUploaderService.js:9-23): bucket and region are constructor parameters, and the access keys are not modelled.
- The module-level singletons `fileUploaderService` and `imageProcessingHelper`: the service is passed in explicitly.
- The unused imports `randomUUID` and `fs`.
- The default parameter `folder = ""` of `uploadAsync` and `getUploads`: every caller in the core passes a folder, so the model's folder is always explicit.
- `JsString.ToLowerCase`: maps ASCII letters only. Unicode case mapping, as in `"İ"`, is not modelled.
- `JsString.Trim`: the ensures states the trimmed ends and the origin of the characters, not that the result is the longest such infix. `TrimStart` and `TrimEnd` state the removal exactly.
- `PosixPath.Base`: follows Node's POSIX `path` rules only; Windows path parsing is not modelled.
- FileUploader.OtherKeyKeepsExtension: a base of ".." is excluded, because there the source does not keep the extension: the name sanitises to "..", the segment is `..-{timestamp}`, and `path.extname` of the key is `.-{timestamp}`.
- `FileUploader.Timestamp`: takes the ISO string as given. `toISOString` for years beyond 9999 (the `+YYYYYY` form) is covered by `Timestamp` but not by `TimestampOfIsoInstant`.
- Non-string request values, such as a numeric `entityId` or an array `filename` query: every request field is an optional string.
- `FileUploader.FileUploaderService.DeleteFile`: the SDK's own response, returned under `response`, is not part of `DeleteResult`.
- `FileUploader.FileUploaderService.GetUploads`: ListObjectsV2 returns at most one page (1000 keys), and the source does not follow continuation tokens. The model returns whatever the listing gives.
- Key uniqueness across concurrent uploads: this depends on the clock's resolution and is not a property of the code, so it is not stated.
