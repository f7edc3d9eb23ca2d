/**
 * The upload endpoints: where a batch is stored, how the `files` field is
 * read, the structural errors that fail a whole request, and the per-file
 * result records, gathered in the order of the files. The concurrent
 * per-file tasks share no state, so they are run one after another here.
 */
module Uploads {
  import opened Wrappers
  import opened JsString
  import ImageProcessing
  import opened FileUploader

  /** The `files` field: one file, or several. */
  datatype FilesField = OneFile(file: UploadedFile) | FileList(files: seq<UploadedFile>)

  /** The parts of a POST request the endpoint reads. */
  datatype UploadRequest = UploadRequest(
    files: Option<FilesField>,
    entityType: Option<string>,
    entityId: Option<string>)

  /** The JSON record sent back for one file; absent properties are `None`. */
  datatype UploadResult = UploadResult(
    filename: string,
    contentType: string,
    size: int,
    success: Option<bool>,
    url: Option<string>,
    error: Option<string>)

  /** What the DELETE endpoint sends back. */
  datatype DeleteReply = DeleteReply(message: string, result: DeleteResult)

  const DefaultFolder := "uploads"
  const NoFilesError := "No files were sent to upload"
  const MissingFilenameError := "Missing filename to delete"

  /** A JavaScript value that is truthy: present and not the empty string. */
  predicate Truthy(v: Option<string>)
  {
    v.Some? && v.value != ""
  }

  /**
   * The batch's folder: `entityType` trimmed and with one final `/` removed,
   * then `/` and `entityId`, when both are given; `uploads` otherwise.
   */
  function ResolveFolder(entityType: Option<string>, entityId: Option<string>): (folder: string)
    ensures Truthy(entityType) && Truthy(entityId) ==>
      folder == RemoveOneTrailingSlash(Trim(entityType.value)) + "/" + entityId.value
    ensures !(Truthy(entityType) && Truthy(entityId)) ==> folder == DefaultFolder
    ensures folder != []
  {
    if Truthy(entityType) && Truthy(entityId) then
      RemoveOneTrailingSlash(Trim(entityType.value)) + "/" + entityId.value
    else
      DefaultFolder
  }

  /** The separator after the entity type is not doubled: "products/" and "42" give "products/42". */
  lemma ResolveFolderExample()
    ensures ResolveFolder(Some("products/"), Some("42")) == "products/42"
  {
    TrimOfTrimmed("products/");
    assert RemoveOneTrailingSlash("products/") == "products";
  }

  /** A single file becomes a one-element list; a list is kept as it is. */
  function NormalizeFiles(field: FilesField): (files: seq<UploadedFile>)
    ensures field.OneFile? ==> files == [field.file]
    ensures field.FileList? ==> files == field.files
  {
    match field
    case OneFile(f) => [f]
    case FileList(fs) => fs
  }

  /** The folder listed when the query names none (or names ""). */
  function ListFolder(folder: Option<string>): (r: string)
    ensures Truthy(folder) ==> r == folder.value
    ensures !Truthy(folder) ==> r == DefaultFolder
  {
    if Truthy(folder) then folder.value else DefaultFolder
  }

  /** A result has `success` true with a URL, or `success` false with an error, never both. */
  predicate WellFormedResult(r: UploadResult)
  {
    || (r.success == Some(true) && r.url.Some? && r.error.None?)
    || (r.success == Some(false) && r.error.Some? && r.url.None?)
  }

  /** `r` is the record sent back for `file` whose upload ended with `outcome`. */
  predicate Describes(r: UploadResult, file: UploadedFile, outcome: Result<string, string>)
  {
    && r.filename == file.name
    && r.contentType == file.mimetype
    && r.size == file.size
    && match outcome
       case Success(u) => r.success == Some(true) && r.url == Some(u) && r.error == None
       case Failure(e) => r.success == Some(false) && r.error == Some(e) && r.url == None
  }

  /** A described record is well formed, and the file and outcome fix it entirely. */
  lemma DescribesDetermines(r: UploadResult, r': UploadResult, file: UploadedFile,
                            outcome: Result<string, string>)
    requires Describes(r, file, outcome) && Describes(r', file, outcome)
    ensures WellFormedResult(r) && r == r'
  {
  }

  /** `r` is the record sent back for `file` after its upload into `folder` at instant `iso`. */
  predicate DescribesUpload(r: UploadResult, service: FileUploaderService, file: UploadedFile,
                            folder: string, iso: string, sharp: ImageProcessing.Sharp, s3: S3)
  {
    Describes(r, file, service.UploadOutcome(file, folder, iso, sharp, s3))
  }

  /**
   * One upload task: the record starts with the file's name, type and size;
   * then `success` and `url`, or `success` and `error`, are set from the
   * upload's outcome.
   */
  method UploadTask(service: FileUploaderService, file: UploadedFile, folder: string, iso: string,
                    sharp: ImageProcessing.Sharp, s3: S3)
    returns (result: UploadResult)
    ensures Describes(result, file, service.UploadOutcome(file, folder, iso, sharp, s3))
    ensures WellFormedResult(result)
  {
    result := UploadResult(file.name, file.mimetype, file.size, None, None, None);
    var url, _ := service.UploadAsync(file, folder, iso, sharp, s3);
    match url
    case Success(u) =>
      result := result.(success := Some(true));
      result := result.(url := Some(u));
    case Failure(e) =>
      result := result.(success := Some(false));
      result := result.(error := Some(e));
  }

  /**
   * `uploadFiles`. With no files the request fails before anything is
   * uploaded. Otherwise there is one result per file, in the files' order,
   * and result `i` depends only on file `i` and the instant task `i` read:
   * a failure of one file changes no other file's result.
   */
  method UploadFiles(service: FileUploaderService, request: UploadRequest, clock: nat -> string,
                     sharp: ImageProcessing.Sharp, s3: S3)
    returns (reply: Result<seq<UploadResult>, string>)
    ensures request.files.None? ==> reply == Failure(NoFilesError)
    ensures request.files.Some? ==> reply.Success?
    ensures request.files.Some? ==>
      var files := NormalizeFiles(request.files.value);
      var folder := ResolveFolder(request.entityType, request.entityId);
      && |reply.value| == |files|
      && forall i :: 0 <= i < |files| ==>
           DescribesUpload(reply.value[i], service, files[i], folder, clock(i), sharp, s3)
  {
    if request.files.None? {
      return Failure(NoFilesError);
    }
    var files := NormalizeFiles(request.files.value);
    var folder := ResolveFolder(request.entityType, request.entityId);
    // One slot per file, each holding the record its task starts from.
    var results := seq(|files|, k requires 0 <= k < |files| =>
      UploadResult(files[k].name, files[k].mimetype, files[k].size, None, None, None));
    for i := 0 to |files|
      invariant |results| == |files|
      invariant forall k :: 0 <= k < i ==>
        DescribesUpload(results[k], service, files[k], folder, clock(k), sharp, s3)
    {
      var result := UploadTask(service, files[i], folder, clock(i), sharp, s3);
      results := results[i := result];
    }
    reply := Success(results);
  }

  /** `getUploads`: the URLs of the query's folder, `uploads` by default. */
  method GetUploads(service: FileUploaderService, folder: Option<string>, s3: S3)
    returns (reply: Result<seq<string>, string>)
    ensures var listing := s3.list(ListObjects(service.bucket, ListFolder(folder)));
      && (listing.Failure? ==> reply == Failure(listing.error))
      && (listing.Success? ==> reply == Success(service.ListedUrls(listing.value)))
  {
    reply := service.GetUploads(ListFolder(folder), s3);
  }

  /** `deleteFile`: a missing or empty `filename` fails before anything is deleted. */
  method DeleteFile(service: FileUploaderService, filename: Option<string>, s3: S3)
    returns (reply: Result<DeleteReply, string>)
    ensures !Truthy(filename) ==> reply == Failure(MissingFilenameError)
    ensures Truthy(filename) ==>
      var command := DeleteObject(service.bucket, service.KeyFromPath(filename.value));
      && (s3.delete(command).Failure? ==> reply == Failure(s3.delete(command).error))
      && (s3.delete(command).Success? ==> reply == Success(DeleteReply(
            "Deleted " + filename.value,
            DeleteResult("Deleted " + service.KeyFromPath(filename.value)))))
  {
    if !Truthy(filename) {
      return Failure(MissingFilenameError);
    }
    var result := service.DeleteFile(filename.value, s3);
    match result
    case Failure(e) =>
      reply := Failure(e);
    case Success(r) =>
      reply := Success(DeleteReply("Deleted " + filename.value, r));
  }
}
