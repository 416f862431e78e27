/** The upload service (backend/Services/FileUploadService.cs): refuse a
    file already recorded, store it in the bucket under a fresh key,
    presign a download URL and record the upload. */
module FileUploadService {
  import opened Wrappers
  import opened Strings
  import opened Exceptions
  import opened Models
  import opened Collaborators

  /** The parts of an IFormFile the service reads; Length is a long. */
  datatype FormFile = FormFile(fileName: string, length: nat, contentType: string)

  /** What the storage service does in one upload: the exception
      PutObjectAsync throws, if any, and what GetPreSignedURLAsync returns
      or throws. */
  datatype Storage = Storage(putError: Option<Exception>, presigned: Result<string, Exception>)

  const EmptyBucketMessage: string := "Empty bucket name"
  const PresignMinutes: int := 60

  const TwoTo31: int := 0x8000_0000
  const TwoTo32: int := 0x1_0000_0000

  /** `(int)n` for a long n in an unchecked context: two's-complement wrap. */
  function ToInt32(n: int): (r: int)
    ensures -TwoTo31 <= r < TwoTo31
    ensures (n - r) % TwoTo32 == 0
    ensures -TwoTo31 <= n < TwoTo31 ==> r == n
  {
    var m := n % TwoTo32;
    if m < TwoTo31 then m else m - TwoTo32
  }

  /** The characters that end a file extension scan on Unix. */
  predicate IsExtensionStop(c: char) { c == '.' || c == '/' }

  /** No '.' and no directory separator in s. */
  predicate Plain(s: string) {
    forall k :: 0 <= k < |s| ==> !IsExtensionStop(s[k])
  }

  /** The index of the last '.' or '/' in s[..i], or -1 when there is none. */
  function LastStop(s: string, i: nat): (j: int)
    requires i <= |s|
    ensures -1 <= j < i
    ensures j >= 0 ==> IsExtensionStop(s[j])
    ensures forall k :: j < k < i ==> !IsExtensionStop(s[k])
    decreases i
  {
    if i == 0 then -1
    else if IsExtensionStop(s[i - 1]) then i - 1
    else LastStop(s, i - 1)
  }

  /** Path.GetExtension with '/' as the only directory separator: the
      final segment's suffix from its last '.', or "" when the segment has
      no '.' or ends in one. */
  function GetExtension(path: string): (ext: string)
    ensures ext != "" ==>
      && 2 <= |ext| <= |path| && ext[0] == '.' && Plain(ext[1..])
      && ext == path[|path| - |ext|..]
  {
    var j := LastStop(path, |path|);
    if 0 <= j < |path| - 1 && path[j] == '.' then
      var tail := path[j + 1..];
      assert Plain(tail) by {
        forall k | 0 <= k < |tail| ensures !IsExtensionStop(tail[k]) {
          assert tail[k] == path[j + 1 + k];
        }
      }
      path[j..]
    else ""
  }

  /** Every '.' followed by a non-empty plain tail starts the extension:
      with GetExtension's own contract, an extension is returned exactly
      when the final segment has a dot before its last character. */
  lemma ExtensionIsLastDotSuffix(path: string, j: nat)
    requires j < |path| - 1 && path[j] == '.' && Plain(path[j + 1..])
    ensures GetExtension(path) == path[j..]
  {
    LastStopIsLast(path, j);
  }

  /** A stop character followed only by plain characters is the last stop. */
  lemma LastStopIsLast(path: string, j: nat)
    requires j < |path| && IsExtensionStop(path[j]) && Plain(path[j + 1..])
    ensures LastStop(path, |path|) == j
  {
    var last := LastStop(path, |path|);
    assert last == j;
  }

  lemma ExtensionExamples()
    ensures GetExtension("report.pdf") == ".pdf"
    ensures GetExtension("archive.tar.gz") == ".gz"
    ensures GetExtension(".bashrc") == ".bashrc"
  {
    ExtensionIsLastDotSuffix("report.pdf", 6);
    ExtensionIsLastDotSuffix("archive.tar.gz", 11);
    ExtensionIsLastDotSuffix(".bashrc", 0);
  }

  /** A name ending in '.' or whose last segment has no '.' has no extension. */
  lemma NoExtensionExamples()
    ensures GetExtension("name.") == ""
    ensures GetExtension("dir.d/readme") == ""
  {
    LastStopIsLast("name.", 4);
    LastStopIsLast("dir.d/readme", 5);
  }

  /** The duplicate test `f.LocalFileName == file.FileName &&
      f.FileLengthInBytes == file.Length`: the stored 32-bit length is
      widened and compared with the true length. */
  predicate Matches(u: FileUpload, file: FormFile) {
    u.localFileName == file.fileName && u.fileLengthInBytes == file.length
  }

  /** Find(...).FirstOrDefault() over the committed history, in table order. */
  function FindUpload(history: seq<FileUpload>, file: FormFile): (found: Option<FileUpload>)
    ensures found.Some? ==> found.value in history && Matches(found.value, file)
    ensures found.None? <==> forall u :: u in history ==> !Matches(u, file)
  {
    if history == [] then None
    else if Matches(history[0], file) then Some(history[0])
    else FindUpload(history[1..], file)
  }

  /** No two recorded uploads share a file name and a stored length. */
  predicate DistinctUploads(history: seq<FileUpload>) {
    forall i, j :: 0 <= i < j < |history| ==>
      !(history[i].localFileName == history[j].localFileName
        && history[i].fileLengthInBytes == history[j].fileLengthInBytes)
  }

  /** The row written for a file, as the service fills it in. */
  function UploadRecord(file: FormFile, key: string, url: string, now: int): FileUpload {
    FileUpload(file.fileName, ToInt32(file.length), key, url, now, file.contentType)
  }

  /** The exception the service's two catch blocks rethrow. */
  function WrapStorageError(e: Exception): Exception {
    if e.AmazonS3Exception? then Exception(AwsCloud, "S3 error: " + e.message)
    else Exception(AwsCloud, "Internal server error: " + e.message)
  }

  /** UploadFileAsync.  `bucketName` is the configured AWS:S3BucketName,
      `guid` the text of Guid.NewGuid(), `now` DateTime.Now in ticks and
      `shortDate` the "d" format of a load time. */
  method UploadFile(file: FormFile, bucketName: Option<string>, guid: string, now: int,
                    shortDate: int -> string, storage: Storage, db: Database, uow: UnitOfWork)
    returns (r: Result<string, Exception>, calls: seq<Call>)
    modifies uow`fileUploadHistory
    ensures IsNullOrWhiteSpace(bucketName) ==>
      && r == Failure(Exception(UserSetup, EmptyBucketMessage)) && calls == []
      && uow.fileUploadHistory == old(uow.fileUploadHistory)
    ensures !IsNullOrWhiteSpace(bucketName) ==> |calls| >= 1 && calls[0] == ProbeDatabase
    // the duplicate query runs outside the try block: what it throws escapes unwrapped
    ensures !IsNullOrWhiteSpace(bucketName) && db.reachable && db.readError.Some? ==>
      && r == Failure(db.readError.value) && calls == [ProbeDatabase]
      && uow.fileUploadHistory == old(uow.fileUploadHistory)
    // a file already recorded (same name, same length) is refused
    ensures !IsNullOrWhiteSpace(bucketName) && db.reachable && db.readError.None?
            && FindUpload(old(uow.fileUploadHistory), file).Some? ==>
      && r == Failure(Exception(UserSetup, "File already loaded on "
                + shortDate(FindUpload(old(uow.fileUploadHistory), file).value.loadTime) + "!"))
      && calls == [ProbeDatabase]
      && uow.fileUploadHistory == old(uow.fileUploadHistory)
    ensures !IsNullOrWhiteSpace(bucketName)
            && !(db.reachable && (db.readError.Some? || FindUpload(old(uow.fileUploadHistory), file).Some?)) ==>
      var bucket := bucketName.value;
      var key := guid + GetExtension(file.fileName);
      var stored := [ProbeDatabase, PutObject(bucket, key, file.contentType)];
      var signed := stored + [PresignUrl(bucket, key, PresignMinutes)];
      && (storage.putError.Some? ==>
            r == Failure(WrapStorageError(storage.putError.value)) && calls == stored
            && uow.fileUploadHistory == old(uow.fileUploadHistory))
      && (storage.putError.None? && storage.presigned.Failure? ==>
            r == Failure(WrapStorageError(storage.presigned.error)) && calls == signed
            && uow.fileUploadHistory == old(uow.fileUploadHistory))
      && (storage.putError.None? && storage.presigned.Success? && !db.reachable ==>
            r == storage.presigned && calls == signed
            && uow.fileUploadHistory == old(uow.fileUploadHistory))
      && (storage.putError.None? && storage.presigned.Success? && db.reachable && db.saveError.Some? ==>
            r == Failure(WrapStorageError(db.saveError.value)) && calls == signed + [SaveChanges]
            && uow.fileUploadHistory == old(uow.fileUploadHistory))
      && (storage.putError.None? && storage.presigned.Success? && db.reachable && db.saveError.None? ==>
            r == storage.presigned && calls == signed + [SaveChanges]
            && uow.fileUploadHistory == old(uow.fileUploadHistory)
                 + [UploadRecord(file, key, storage.presigned.value, now)])
    // every exception after the bucket and duplicate checks is an AwsCloudException
    ensures r.Failure? && |calls| >= 2 ==> r.error.Exception? && r.error.kind == AwsCloud
    // a file under 2 GiB is never recorded twice
    ensures file.length < TwoTo31 && DistinctUploads(old(uow.fileUploadHistory)) ==>
      DistinctUploads(uow.fileUploadHistory)
  {
    if IsNullOrWhiteSpace(bucketName) {
      return Failure(Exception(UserSetup, EmptyBucketMessage)), [];
    }
    var bucket := bucketName.value;
    calls := [ProbeDatabase];
    var existing := None;
    if db.reachable {
      if db.readError.Some? {
        return Failure(db.readError.value), calls;
      }
      existing := FindUpload(uow.fileUploadHistory, file);
      if existing.Some? {
        return Failure(Exception(UserSetup, "File already loaded on " + shortDate(existing.value.loadTime) + "!")), calls;
      }
    }
    var key := guid + GetExtension(file.fileName);
    calls := calls + [PutObject(bucket, key, file.contentType)];
    if storage.putError.Some? {
      return Failure(WrapStorageError(storage.putError.value)), calls;
    }
    calls := calls + [PresignUrl(bucket, key, PresignMinutes)];
    if storage.presigned.Failure? {
      return Failure(WrapStorageError(storage.presigned.error)), calls;
    }
    var url := storage.presigned.value;
    if db.reachable {
      calls := calls + [SaveChanges];
      if db.saveError.Some? {
        return Failure(WrapStorageError(db.saveError.value)), calls;
      }
      ghost var before := uow.fileUploadHistory;
      uow.fileUploadHistory := uow.fileUploadHistory + [UploadRecord(file, key, url, now)];
      if file.length < TwoTo31 && DistinctUploads(before) {
        AppendKeepsDistinct(before, file, UploadRecord(file, key, url, now));
      }
    }
    r := Success(url);
  }

  /** Appending the record of a file that no row matches keeps the
      history free of duplicates, when the length fits in 32 bits. */
  lemma AppendKeepsDistinct(history: seq<FileUpload>, file: FormFile, record: FileUpload)
    requires DistinctUploads(history) && FindUpload(history, file).None?
    requires record.localFileName == file.fileName && record.fileLengthInBytes == file.length
    ensures DistinctUploads(history + [record])
  {
    var h := history + [record];
    forall i, j | 0 <= i < j < |h|
      ensures !(h[i].localFileName == h[j].localFileName && h[i].fileLengthInBytes == h[j].fileLengthInBytes)
    {
      if j == |history| {
        assert h[i] == history[i];
        assert history[i] in history;
      }
    }
  }

  /** Once a file under 2 GiB has been recorded, the same file is found. */
  lemma RecordedFileIsFound(history: seq<FileUpload>, file: FormFile, key: string, url: string, now: int)
    requires file.length < TwoTo31
    ensures FindUpload(history + [UploadRecord(file, key, url, now)], file).Some?
  {
    var h := history + [UploadRecord(file, key, url, now)];
    assert h[|history|] in h;
  }

  /** A file of 2 GiB or more is stored with a wrapped length different
      from its own, so it never matches its own record. */
  lemma LargeFileIsNotFound(history: seq<FileUpload>, file: FormFile, key: string, url: string, now: int)
    requires file.length >= TwoTo31
    requires FindUpload(history, file).None?
    ensures FindUpload(history + [UploadRecord(file, key, url, now)], file).None?
  {
    var h := history + [UploadRecord(file, key, url, now)];
    forall u | u in h ensures !Matches(u, file) {
      if u !in history {
        assert u == UploadRecord(file, key, url, now);
      }
    }
  }
}
