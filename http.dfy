/** The HTTP shapes the controllers and the dispatcher deal in. */
module Http {
  import opened Wrappers
  import opened Strings
  import opened Exceptions
  import opened Models

  const StatusOk: int := 200
  const StatusBadRequest: int := 400
  const StatusNotFound: int := 404
  const StatusTooManyRequests: int := 429
  const StatusInternalServerError: int := 500

  /** The payload of an IActionResult. */
  datatype Body =
    | Text(text: string)                     // a string payload
    | Message(message: string)               // new { message = ... }
    | FileUrl(fileUrl: string)               // new { fileUrl = ... }
    | FileUrls(files: map<string, string>)   // Dictionary<key, presigned url>
    | Uploads(records: seq<FileUpload>)      // a list of FileUploadModel
    | NoBody

  /** What a controller action returns. */
  datatype ActionResult = ActionResult(status: int, body: Body)

  function Ok(body: Body): ActionResult { ActionResult(StatusOk, body) }
  function BadRequest(text: string): ActionResult { ActionResult(StatusBadRequest, Text(text)) }

  /** The Content-Type header of a response; its MediaType may be null. */
  datatype MediaTypeHeader = MediaTypeHeader(mediaType: Option<string>)

  /** The outcome of the GET that reads a URL's content type. */
  datatype HeaderResponse =
    | TransportError(error: Exception)       // SendAsync threw
    | NullResponse                           // SendAsync returned null
    | Response(isSuccessStatusCode: bool, contentType: Option<MediaTypeHeader>)

  const UnableToFetchHeader: string := "Unable to fetch header!"
  /** The message is a plain (not interpolated) string in the source, braces included. */
  const ContentTypeMissing: string := "Content formet of {textUrl} NOT supported!"
  const NullReferenceMessage: string := "Object reference not set to an instance of an object."

  /** The header checks shared by both dispatchers: the non-empty media type,
      or what goes wrong first.  A missing Content-Type header makes
      `Headers.ContentType.MediaType` throw NullReferenceException. */
  function ContentTypeOf(h: HeaderResponse): (r: Result<string, Exception>)
    ensures r.Success? <==>
      h.Response? && h.isSuccessStatusCode && h.contentType.Some?
      && !IsNullOrEmpty(h.contentType.value.mediaType)
    ensures r.Success? ==> r.value != "" && Some(r.value) == h.contentType.value.mediaType
    ensures h.TransportError? ==> r == Failure(h.error)
    ensures h.NullResponse? || (h.Response? && !h.isSuccessStatusCode) ==>
      r == Failure(Exception(InvalidData, UnableToFetchHeader))
    // a successful response without a Content-Type header: MediaType is read off null
    ensures h.Response? && h.isSuccessStatusCode && h.contentType.None? ==>
      r == Failure(Exception(NullReference, NullReferenceMessage))
    ensures h.Response? && h.isSuccessStatusCode && h.contentType.Some?
            && IsNullOrEmpty(h.contentType.value.mediaType) ==>
      r == Failure(Exception(InvalidData, ContentTypeMissing))
  {
    match h
    case TransportError(e) => Failure(e)
    case NullResponse => Failure(Exception(InvalidData, UnableToFetchHeader))
    case Response(ok, header) =>
      if !ok then Failure(Exception(InvalidData, UnableToFetchHeader))
      else if header.None? then Failure(Exception(NullReference, NullReferenceMessage))
      else if IsNullOrEmpty(header.value.mediaType) then Failure(Exception(InvalidData, ContentTypeMissing))
      else Success(header.value.mediaType.value)
  }
}
