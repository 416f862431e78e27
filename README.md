# aws-file-analyzer request pipeline, in Dafny

This project models the request pipeline of the aws-file-analyzer backend, an
ASP.NET service that reads a file behind a URL and has a chat model analyse
it. The pipeline has these parts:

- **URL check and content-type classifier.** A URL must be an absolute http or
  https URL. Its media type falls into exactly one bucket: image, plain text,
  PDF or unsupported.
- **Text summariser.** The page's visible text has its white space collapsed,
  is trimmed, is cut to 1000 characters, and goes to the model in one call.
- **PDF summariser.**
  - Short texts (12000 characters or fewer) get one call.
  - Longer texts are cut into 4000-character chunks. Each chunk is summarised
    in order, and the partial summaries, joined with a newline, get one final
    call.
- **Dispatchers.** `FileAnalysisService.AnalyzeFile` and the older
  `OpenAIAwsController.SummarizeFile` validate the URL, read the content type
  and call the matching analyser. They store the analysis when the database is
  reachable.
- **Global exception handler.** It turns every unhandled exception into an
  RFC 7807 problem-details response.
- **Upload service and upload endpoint.** They store a file in the S3 bucket
  under a fresh key, presign a 60-minute download URL and record the upload.
  The service refuses a file that was already recorded.
- **Remaining endpoints.**
  - The bucket listing pages through S3 and presigns every key.
  - The load history returns uploads from the last few days.
  - The chat endpoint passes one prompt through.
  - User registration is also modelled.

## How it is modelled

- There is one module per source file. The shared modules are:
  - `Wrappers`: `Option` and `Result`. A C# `null` is `None`, and a thrown
    exception is `Failure`.
  - `Strings`: .NET white space, `IsNullOrEmpty`, `IsNullOrWhiteSpace`, `Join`
    and decimal formatting.
  - `Exceptions`: the exception classes and their subclass relation.
    `ArgumentNullException` and `ArgumentOutOfRangeException` are
    `ArgumentException`s. `ObjectDisposedException` is an
    `InvalidOperationException`.
  - `Models`: the table rows, and the class `UnitOfWork` that holds the
    committed tables.
  - `Collaborators`: the call-trace datatype and the chat-model oracle.
  - `Http`: action results and the header response.
- **Collaborators are inputs.** This covers:
  - the HTTP header fetch, the image/text/PDF analysers and the chat model;
  - the S3 put, list and presign calls;
  - the database probe (`CanConnectAsync`) and the query and save exceptions;
  - `Uri.TryCreate`, `Guid.NewGuid`, the clock, and the short-date format.

  The chat model is a function of the call number and the input, so a
  request that makes several calls sees a reply for each one. The presign
  call (`Presign`) has the same shape: the j-th key presigned in a request
  gets its own URL or exception.
- **Call traces.** Each operation also returns the calls it made, in order.
  Contracts therefore state which collaborators were asked what, and which
  were not asked at all.
- **Tables** are `seq` fields of `UnitOfWork` that the methods reassign. A
  table holds committed rows only. A row whose `CompleteAsync` throws never
  appears in it.
- **Code style follows each source.**
  - The code that changes state step by step, or loops, is written as methods:
    the dispatchers, the handler, the upload paths, registration, the PDF
    loops and the S3 paging loop.
  - The expression-only code is written as functions: the classifier, the
    normaliser, the load-history query and the chat endpoint.

### Behaviour of the code worth knowing

- A failing `CompleteAsync` is inside its branch's `try`, so it is rethrown
  like an analyser error. The controllers turn it into a 500 or 429.
- Errors are classed per content type:
  - in `AnalyzeFileAsync`, image errors become a plain `Exception` (500
    through the handler), and text and PDF errors become
    `InvalidOperationException` (429);
  - in `SummarizeFile`, image errors give 500 and text errors give 429.
- A failed fetch has three outcomes:
  - a null or non-success response gives `InvalidDataException` or a 400;
  - an exception from `SendAsync` itself propagates unchanged;
  - a response without a Content-Type header throws
    `NullReferenceException`.
- The 1000-character text budget counts string characters, not bytes.
- The text prompt is "Summarize this text in 3 sentences:" followed by two
  newlines.

## Model

| member | source | states |
|---|---|---|
| FileUtils.Classify | backend/Utils/FileUtils.cs:21-48 | the dispatch bucket is Image, PlainText or Pdf exactly when that predicate holds, and Unsupported exactly when none does |
| FileUtils.ImageTypes | backend/Utils/FileUtils.cs:8-28 | a content type is an image exactly for image/png, image/jpeg and image/gif; the match is case-sensitive and exact (no parameters) |
| FileUtils.PlainTextTypes | backend/Utils/FileUtils.cs:14-37 | plain text exactly for text/html and text/plain |
| FileUtils.PdfTypes | backend/Utils/FileUtils.cs:19-48 | PDF exactly for application/pdf, decided on the declared type alone |
| FileUtils.NullOrEmptyIsUnsupported | backend/Utils/FileUtils.cs:23-44 | a null or empty content type satisfies none of the three predicates and is Unsupported |
| FileUtils.KindsAreExclusive | backend/Utils/FileUtils.cs:8-19 | at most one of the three predicates holds for any content type |
| FileUtils.BlankUrlIsInvalid | backend/Utils/FileUtils.cs:57-60 | a null, empty or white-space URL is refused whatever the parser would say |
| FileUtils.UrlValidity | backend/Utils/FileUtils.cs:55-83 | a URL is valid if and only if it is not blank, parses as absolute, and has scheme http or https |
| Http.ContentTypeOf | backend/Services/FileAnalysisService.cs:44-57 | the header step succeeds exactly on a success response with a non-empty media type, and returns that type; a transport exception propagates; a null or non-success response gives InvalidData "Unable to fetch header!"; a missing header gives NullReference; an empty type gives InvalidData |
| TextService.TrimStart | backend/Services/TextService.cs:32 | the result is a suffix of the input, the removed prefix is all white space, and the result does not start with white space |
| TextService.TrimEnd | backend/Services/TextService.cs:32 | the result is a prefix of the input, the removed suffix is all white space, and the result does not end with white space |
| TextService.Trim | backend/Services/TextService.cs:32 | the result is a slice of the input starting where the leading white space ends, with white space at neither end |
| TextService.TrimCutsOnlyWhiteSpace | backend/Services/TextService.cs:32 | what Trim cuts off before and after that slice is all white space |
| TextService.CollapseWhiteSpace | backend/Services/TextService.cs:32 | no longer than the input, empty exactly when the input is, starts or ends with white space exactly when the input does, and has no two adjacent white-space characters and none other than ' ' |
| TextService.Normalize | backend/Services/TextService.cs:32 | the normalised text has no adjacent white space and no white space at either end |
| TextService.CollapseKeepsWords | backend/Services/TextService.cs:32 | collapsing keeps the sequence of words (maximal non-white-space runs) unchanged |
| TextService.NormalizeKeepsWords | backend/Services/TextService.cs:32 | normalising keeps the sequence of words unchanged: only white space changes |
| TextService.CollapseFixesCollapsed | backend/Services/TextService.cs:32 | collapsing already collapsed text leaves it unchanged |
| TextService.NormalizeIsIdempotent | backend/Services/TextService.cs:32 | normalising twice gives the same text as normalising once |
| TextService.BlankNormalizesToEmpty | backend/Services/TextService.cs:32 | the normalised text is empty if and only if the raw text is all white space |
| TextService.PrepareInput | backend/Services/TextService.cs:32-38 | the prompt text has at most 1000 characters, is a prefix of the normalised text, equals it when it fits and has exactly 1000 characters otherwise, and stays collapsed |
| TextService.SummarizeText | backend/Services/TextService.cs:20-57 | a failed download makes no chat call and propagates; otherwise exactly one call is made, with the fixed prompt followed by the prepared text, and its reply or exception is returned unchanged |
| PdfService.ExtractText | backend/Services/PdfService.cs:54-65 | the StringBuilder loop yields the page texts in page order, each followed by a newline |
| PdfService.PageTextIsBlank | backend/Services/PdfService.cs:31-34 | the extracted text is blank if and only if every page's text is blank |
| PdfService.Chunks | backend/Services/PdfService.cs:40 | the chunks concatenate to the text, none is empty or longer than the chunk size, all but the last have exactly the chunk size, and their number is the ceiling of length over size |
| PdfService.ChunkCount | backend/Services/PdfService.cs:38-46 | above the 12000 threshold the number of map calls is ceil(len/4000), and at least 4 |
| PdfService.Partials | backend/Services/PdfService.cs:41-45 | when no map call fails, the i-th partial summary is the reply to the i-th chunk |
| PdfService.SummarizePdf | backend/Services/PdfService.cs:21-52 | a failed download propagates with no call; blank text fails with "No text extracted from PDF." and no call; up to 12000 characters gives one call on the whole text; above that, one call per chunk in document order, the first failure propagating with no later call, else one reduce call on the partials joined by "\n", whose reply is returned |
| PdfService.MapReduce | backend/Services/PdfService.cs:40-46 | one call per chunk in document order; the first failing call's exception propagates with no later call; otherwise one more call on the partial summaries joined by "\n", whose reply is the result |
| PdfService.FifteenThousandCharacters | backend/Services/PdfService.cs:38-46 | a 15000-character text gives four chunks: three of 4000 characters and a last one of 3000 |
| FileAnalysisService.AnalyzeFile | backend/Services/FileAnalysisService.cs:32-152 | an invalid URL throws InvalidData before any call; header failures throw before any analyser call; an unsupported type throws "Unsupported link content" with no analyser call; otherwise exactly the matching analyser is called; image failures are rethrown as Exception, text and PDF failures (save included) as InvalidOperation; success returns the analyser's text; a row {url, text} is appended exactly when a reachable database saves |
| GlobalExceptionHandler.ProblemFor | backend/CustomExceptions/GlobalExceptionHandler.cs:25-87 | the detail is always the message and the type the RFC 7231 section 6.6.1 link; the status is 400, 429 or 500; 429 exactly for InvalidOperationException and its subclasses; 400 exactly for S3 not-found, argument, invalid-data and user-setup exceptions; the title is "AWS Bucket not exist!" for an S3 not-found, "AWS S3 error: {message}!" for another S3 error, the class's own title for ArgumentNull, the other argument exceptions, InvalidData, InvalidOperation and its subclass, UserSetup, AwsCloud, AzureCloud and OpenAi, and "{message}!" for any other class |
| GlobalExceptionHandler.TryHandle | backend/CustomExceptions/GlobalExceptionHandler.cs:17-95 | the first-match switch over the exception class writes exactly the per-class problem details and sets the response status to its status; the handler always returns true |
| GlobalExceptionHandler.ArgumentNullMatchedFirst | backend/CustomExceptions/GlobalExceptionHandler.cs:51-58 | ArgumentNullException is an ArgumentException but keeps its own title, because its case comes first |
| FileUploadService.ToInt32 | backend/Services/FileUploadService.cs:75 | the stored length is the 32-bit two's-complement wrap of the file length: in range, congruent modulo 2^32, and equal when it fits |
| FileUploadService.GetExtension | backend/Services/FileUploadService.cs:52 | a non-empty extension is a suffix of the name, starts with '.', has at least one more character, and contains no other '.' and no '/' |
| FileUploadService.ExtensionIsLastDotSuffix | backend/Services/FileUploadService.cs:52 | a dot followed by a non-empty tail without '.' or '/' starts the extension, so an extension is returned exactly when the final segment has a dot before its last character |
| FileUploadService.ExtensionExamples | backend/Services/FileUploadService.cs:52 | "report.pdf" gives ".pdf", "archive.tar.gz" gives ".gz" and ".bashrc" gives ".bashrc" |
| FileUploadService.NoExtensionExamples | backend/Services/FileUploadService.cs:52 | "name." and "dir.d/readme" give "" |
| FileUploadService.FindUpload | backend/Services/FileUploadService.cs:41-43 | the duplicate found is a history row with the same name and a stored length equal to the file's length; none is found exactly when no row matches |
| FileUploadService.UploadFile | backend/Services/FileUploadService.cs:28-97 | a blank bucket throws UserSetup before any call; with a reachable database, an exception from the duplicate query propagates unwrapped before any storage call, and a duplicate throws "File already loaded on {date}!" with no upload and no append; the key is the GUID followed by the extension; put, presign and save failures are rethrown as AwsCloud ("S3 error: " or "Internal server error: "); success returns the presigned URL and, with a reachable database, appends exactly one row; an unreachable database skips the check and the append; a file under 2 GiB is never recorded twice |
| FileUploadService.AppendKeepsDistinct | backend/Services/FileUploadService.cs:38-84 | appending the row of a file that no row matches keeps the history free of duplicate (name, length) pairs |
| FileUploadService.RecordedFileIsFound | backend/Services/FileUploadService.cs:41-84 | once a file under 2 GiB has been recorded, uploading it again finds the duplicate |
| FileUploadService.LargeFileIsNotFound | backend/Services/FileUploadService.cs:41-75 | a file of 2 GiB or more is stored with a wrapped length and never matches its own row |
| OpenAIAwsController.EndIndex | backend/Controllers/OpenAIAwsController.cs:76-94 | the paging loop ends at the first listing that is a failure, null, or not marked truncated; every earlier listing continues it |
| OpenAIAwsController.PresignKeys | backend/Controllers/OpenAIAwsController.cs:81-89 | one page's keys are presigned in order, each in the configured bucket for 60 minutes, continuing the request's numbering, up to and including the first failing presign; without a failure, the map is the key-to-URL map of everything presigned |
| OpenAIAwsController.ListBucket | backend/Controllers/OpenAIAwsController.cs:67-106 | every listing up to the ending one is requested in the configured bucket, each with the previous page's continuation token, and every key seen is presigned in order in that bucket for 60 minutes; the first failure (listing or presign) ends the run, a presign failure right after the listing request for the page that holds the failing key, S3 errors becoming a 400 for a missing bucket or a 500 and other exceptions propagating; otherwise 200 with the key-to-URL map |
| OpenAIAwsController.PageOfKeyIsUnique | backend/Controllers/OpenAIAwsController.cs:71-90 | the number of listing requests through the page holding a given key is unique, so the number of listing requests after a presign failure is fixed |
| OpenAIAwsController.GetS3FilesUrls | backend/Controllers/OpenAIAwsController.cs:58-107 | a blank bucket name gives 400 "Empty bucket name" with no call; otherwise the paging outcome above |
| OpenAIAwsController.UrlMapDomain | backend/Controllers/OpenAIAwsController.cs:83-88 | the returned map holds exactly the keys seen on all pages |
| OpenAIAwsController.UrlMapLastWins | backend/Controllers/OpenAIAwsController.cs:87 | a key listed more than once maps to the URL presigned for its last occurrence |
| OpenAIAwsController.Window | backend/Controllers/OpenAIAwsController.cs:141-142 | the filtered rows are the table's rows with LoadTime in [from, now], each as often as in the table, none other, in table order |
| OpenAIAwsController.GetLoadHistory | backend/Controllers/OpenAIAwsController.cs:120-159 | days defaults to 1 and filesLimit to 30; non-positive days or limit give 400; a window starting before year 1 throws ArgumentOutOfRange; an unreachable database gives 400; a query exception gives 500 "EF error: "; otherwise 200 exactly when some upload lies in [now - days, now], with at most filesLimit rows, all in the window and the first ones of it, else 404 "No files loaded last {days}" |
| OpenAIAwsController.DefaultLoadHistory | backend/Controllers/OpenAIAwsController.cs:120 | a request without query parameters gets 200 with at most 30 uploads of the last day when there are any, else 404 "No files loaded last 1" |
| Strings.NatToStringRoundTrip | backend/Controllers/OpenAIAwsController.cs:152 | the decimal text of the day count reads back as that count |
| Strings.NatToStringInjective | backend/Controllers/OpenAIAwsController.cs:152 | different day counts have different decimal texts, so they give different NotFound messages |
| OpenAIAwsController.CompleteChat | backend/Controllers/OpenAIAwsController.cs:398-415 | a blank prompt gives 400 with no model call; otherwise exactly one call with the prompt; its reply gives 200 and its exception 429 with the message |
| OpenAIAwsController.AwsFileUpload | backend/Controllers/OpenAIAwsController.cs:216-276 | a missing or empty file, then a blank bucket, give 400 before any call; the key is the GUID followed by the extension; put, presign and save exceptions give 500 "S3 error: " or "Internal server error: "; success gives the presigned URL and appends one row when the database is reachable, with no duplicate check |
| OpenAIAwsController.SummarizeFile | backend/Controllers/OpenAIAwsController.cs:287-387 | a blank URL, an invalid URL, a failed header fetch and an empty content type give 400 in that order, before any analyser call; only images and plain text are analysed, and PDF gets 400 "Unsupported link content"; image errors give 500 and text errors 429; the analysis is returned and is recorded exactly when a reachable database saves |
| SecurityController.FindDuplicate | backend/Controllers/SecurityController.cs:56 | the intended duplicate test finds a row with the requested name, and none exactly when no row has it |
| SecurityController.AsWrittenFindsNothing | backend/Controllers/SecurityController.cs:56 | the duplicate test as written compares each row's name with the row itself and never finds anything |
| SecurityController.SecondAliceIsAdmitted | backend/Controllers/SecurityController.cs:52-69 | with "alice" registered, a second "alice" passes the as-written test and breaks unique user names, while the intended test finds the existing row |
| SecurityController.RegisterAsWritten | backend/Controllers/SecurityController.cs:43-81 | empty credentials give 400 with no store access; a read exception propagates; otherwise the login is appended verbatim on a successful save (200) or not at all when the save throws (400 with its message), whether or not the name is taken |
| SecurityController.Register | backend/Controllers/SecurityController.cs:43-81 | as above, except that a taken name gives 400 "User exist!" with no save and no append; unique user names stay unique |
| SecurityController.AdmitKeepsUnique | backend/Controllers/SecurityController.cs:63-69 | appending a login whose name no row has keeps the names unique |

## Left out

- OpenAIAwsController.GetS3FilesUrls: requires that the storage service
  eventually answers a listing that ends the loop (`Terminates`). The C#
  do–while does not terminate against a service that marks every page
  truncated.
- OpenAIAwsController.GetS3FilesUrls: the n-th listing is an input that does
  not depend on the continuation token sent. The listing requests sent, with
  their bucket and token, are returned and constrained instead.
- OpenAIAwsController.GetS3FilesUrls: listing requests and presign requests
  are returned as two traces, each in order. How they interleave is stated
  only through the page that holds a failing key.
- Collaborators.FetchHeader: the browser `User-Agent` header that both header
  fetches add (backend/Services/FileAnalysisService.cs:41,
  backend/Controllers/OpenAIAwsController.cs:303) is not recorded in the call.
  The response is an input, so no modelled outcome depends on it.
- OpenAIAwsController.GetLoadHistory: `Take` has no `OrderBy`, so the database
  may return the window's rows in any order. The model states table order.
  `FileUploadService.FindUpload` likewise returns the first match in table
  order.
- OpenAIAwsController.GetLoadHistory: load times are instants in ticks. The
  offset of the `DateTime.Now` the upload stored is not modelled.
- OpenAIAwsController.CompleteChat: an empty completion makes
  `Content[0]` throw. This is folded into the chat oracle's failure.
- FileUploadService.UploadFile: the culture-dependent "d" date format is the
  `shortDate` input.
- FileUploadService.FindUpload: names are compared exactly, character by
  character. The real query runs in SQL Server, whose default collation
  ignores case and trailing spaces, so the database may find a duplicate
  that the model does not.
- FileUploadService.GetExtension: only '/' ends the search for the last '.',
  as `Path.GetExtension` does on Linux. On Windows `\` is a directory
  separator too, so `a.b\c` has no extension there.
- SecurityController.RegisterAsWritten: after a failed save, the added row stays
  in the DbContext's change tracker. The model holds only committed rows,
  because nothing later in the request saves again.
- TextService.PrepareInput: lengths are counted in Dafny characters (code
  points). .NET counts UTF-16 code units, so `Substring(0, 1000)` can cut
  differently on text outside the Basic Multilingual Plane.
- PdfService.Chunks: `Chunk(4000)` is likewise modelled on code points, not
  UTF-16 code units. Pieces can differ on text outside the Basic
  Multilingual Plane.
- PdfService.SummarizePdf: the 12000 threshold is compared with the length
  in code points, not in UTF-16 code units.
- OpenAIAwsController.GetLoadHistory: the message of the
  `ArgumentOutOfRangeException` that `AddDays` throws is a constant. The
  handler decides on the exception's class only.
- **HTML to text extraction** (`backend/Services/TextService.cs:22-29`). This
  is HtmlAgilityPack. The page's visible text, or the exception the download
  throws, is an input.
- **PDF download and parsing** (`backend/Services/PdfService.cs:23-27`,
  `57-62`). This is PdfPig. The page texts, or the exception raised while
  getting them, are an input.
- **The PDF prompt** (`backend/Services/PdfService.cs:67-98`). The private
  summarise call is an oracle. The model records the text handed to it, not
  the JSON-schema prompt wrapped around it.
- **The image analyser** is an oracle. What it returns or throws is an input.
  That includes the exception its JSON deserialisation can throw; invalid JSON
  is not assumed to be tolerated.
- **`GetAnalysisResults`** (`backend/Controllers/OpenAIAwsController.cs:168-205`).
  It is a read-only join query outside the modelled pipeline.
- **Services outside the pipeline**: `CreateJwtToken`, the token service, DI
  wiring, logging and the frontend.
- **async/await**: each request is one sequential run.
- **Newlines**: `Environment.NewLine` is taken to be "\n", as on Linux.
- **Construction order**: exceptions the code could throw while building a
  request (`file.OpenReadStream`, `CreateClient`) are not modelled.

## Findings

| source | as written | input that shows it | evidently intended | confidence | as-written member | corrected member |
|---|---|---|---|---|---|---|
| backend/Controllers/SecurityController.cs:56 | `FirstOrDefault(user => user.Username.Equals(user))`: the lambda parameter shadows the requested name. Each row's string name is compared with the row object, which `string.Equals(object)` never calls equal. | the login table holds "alice"; "alice" registers again and a second "alice" row is saved with 200 | refuse a name already registered with 400 "User exist!", keeping user names unique | not executed | SecurityController.RegisterAsWritten (with SecurityController.SecondAliceIsAdmitted) | SecurityController.Register |
