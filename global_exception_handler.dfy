/** The application-wide exception handler
    (backend/CustomExceptions/GlobalExceptionHandler.cs): every unhandled
    exception becomes an RFC 7807 problem-details response. */
module GlobalExceptionHandler {
  import opened Wrappers
  import opened Exceptions
  import opened Http

  /** The members of section 3.1 of RFC 7807 that the handler fills in. */
  datatype ProblemDetails = ProblemDetails(problemType: string, title: string, status: int, detail: string)

  /** Points at section 6.6.1 of RFC 7231 (500 Internal Server Error). */
  const DefaultProblemType: string := "https://datatracker.ietf.org/doc/html/rfc7231#section-6.6.1"
  const DefaultTitle: string := "Server Error"

  const BucketMissingTitle: string := "AWS Bucket not exist!"
  const ArgumentNullTitle: string := "A required argument was null!"
  const ArgumentTitle: string := "Argument was out of range!"
  const InvalidDataTitle: string := "Invalid/unsupported url/contentType entered!"
  const InvalidOperationTitle: string := "Too many requests!"
  const UserSetupTitle: string := "AWS or Azure Setup problem!"
  const AwsCloudTitle: string := "AWS internal error!"
  const AzureCloudTitle: string := "Azure internal error!"
  const OpenAiTitle: string := "OpenAI internal error!"

  /** Status and title per exception class, one row per concrete class. */
  function StatusAndTitle(e: Exception): (int, string) {
    match e
    case AmazonS3Exception(message, code) =>
      if code == HttpStatusNotFound then (StatusBadRequest, BucketMissingTitle)
      else (StatusInternalServerError, "AWS S3 error: " + message + "!")
    case Exception(kind, message) =>
      match kind
      case ArgumentNull => (StatusBadRequest, ArgumentNullTitle)
      case ArgumentOutOfRange => (StatusBadRequest, ArgumentTitle)
      case Argument => (StatusBadRequest, ArgumentTitle)
      case InvalidData => (StatusBadRequest, InvalidDataTitle)
      case InvalidOperation => (StatusTooManyRequests, InvalidOperationTitle)
      case ObjectDisposed => (StatusTooManyRequests, InvalidOperationTitle)
      case UserSetup => (StatusBadRequest, UserSetupTitle)
      case AwsCloud => (StatusInternalServerError, AwsCloudTitle)
      case AzureCloud => (StatusInternalServerError, AzureCloudTitle)
      case OpenAi => (StatusInternalServerError, OpenAiTitle)
      case _ => (StatusInternalServerError, message + "!")
  }

  /** The response body for an exception: the detail is always its message,
      the status is 400, 429 or 500, 429 is reserved for
      InvalidOperationException and its subclasses, and the title names the
      class, or repeats the message for a class the handler has no case for. */
  function ProblemFor(e: Exception): (p: ProblemDetails)
    ensures p.problemType == DefaultProblemType && p.detail == e.message
    ensures p.status in {StatusBadRequest, StatusTooManyRequests, StatusInternalServerError}
    ensures p.status == StatusTooManyRequests <==> IsInstanceOf(e, InvalidOperation)
    ensures p.status == StatusBadRequest <==>
      || (e.AmazonS3Exception? && e.statusCode == HttpStatusNotFound)
      || IsInstanceOf(e, Argument) || IsInstanceOf(e, InvalidData) || IsInstanceOf(e, UserSetup)
    ensures e.AmazonS3Exception? ==>
      p.title == if e.statusCode == HttpStatusNotFound then BucketMissingTitle
                 else "AWS S3 error: " + e.message + "!"
    ensures IsInstanceOf(e, ArgumentNull) ==> p.title == ArgumentNullTitle
    ensures IsInstanceOf(e, Argument) && !IsInstanceOf(e, ArgumentNull) ==> p.title == ArgumentTitle
    ensures IsInstanceOf(e, InvalidData) ==> p.title == InvalidDataTitle
    ensures IsInstanceOf(e, InvalidOperation) ==> p.title == InvalidOperationTitle
    ensures IsInstanceOf(e, UserSetup) ==> p.title == UserSetupTitle
    ensures IsInstanceOf(e, AwsCloud) ==> p.title == AwsCloudTitle
    ensures IsInstanceOf(e, AzureCloud) ==> p.title == AzureCloudTitle
    ensures IsInstanceOf(e, OpenAi) ==> p.title == OpenAiTitle
    // NullReference, HttpRequest, Json, DbUpdate and System.Exception itself
    ensures e.Exception? && e.kind in {NullReference, HttpRequest, Json, DbUpdate, General} ==>
      p.title == e.message + "!"
  {
    var (status, title) := StatusAndTitle(e);
    ProblemDetails(DefaultProblemType, title, status, e.message)
  }

  /** The parts of HttpContext.Response the handler sets. */
  class HttpResponse {
    var statusCode: int
    var body: Option<ProblemDetails>

    constructor ()
      ensures statusCode == StatusOk && body == None
    {
      statusCode := StatusOk;
      body := None;
    }
  }

  /** TryHandleAsync: a first-match switch over the exception's class, which
      agrees with the per-class table; the exception is always handled. */
  method TryHandle(response: HttpResponse, exception: Exception) returns (handled: bool)
    modifies response
    ensures handled
    ensures response.body == Some(ProblemFor(exception))
    ensures response.statusCode == ProblemFor(exception).status
  {
    var status, title := StatusInternalServerError, DefaultTitle;
    if exception.AmazonS3Exception? {
      if exception.statusCode == HttpStatusNotFound {
        status, title := StatusBadRequest, BucketMissingTitle;
      } else {
        status, title := StatusInternalServerError, "AWS S3 error: " + exception.message + "!";
      }
    } else if IsInstanceOf(exception, ArgumentNull) {
      status, title := StatusBadRequest, ArgumentNullTitle;
    } else if IsInstanceOf(exception, Argument) {
      status, title := StatusBadRequest, ArgumentTitle;
    } else if IsInstanceOf(exception, InvalidData) {
      status, title := StatusBadRequest, InvalidDataTitle;
    } else if IsInstanceOf(exception, InvalidOperation) {
      status, title := StatusTooManyRequests, InvalidOperationTitle;
    } else if IsInstanceOf(exception, UserSetup) {
      status, title := StatusBadRequest, UserSetupTitle;
    } else if IsInstanceOf(exception, AwsCloud) {
      status, title := StatusInternalServerError, AwsCloudTitle;
    } else if IsInstanceOf(exception, AzureCloud) {
      status, title := StatusInternalServerError, AzureCloudTitle;
    } else if IsInstanceOf(exception, OpenAi) {
      status, title := StatusInternalServerError, OpenAiTitle;
    } else {
      status, title := StatusInternalServerError, exception.message + "!";
    }
    assert (status, title) == StatusAndTitle(exception);
    var problem := ProblemDetails(DefaultProblemType, title, status, exception.message);
    response.statusCode := problem.status;
    response.body := Some(problem);
    handled := true;
  }

  /** ArgumentNullException is also an ArgumentException; its case comes first, so
      it keeps its own title. */
  lemma ArgumentNullMatchedFirst(message: string)
    ensures IsInstanceOf(Exception(ArgumentNull, message), Argument)
    ensures ProblemFor(Exception(ArgumentNull, message)).title == ArgumentNullTitle
    ensures ProblemFor(Exception(Argument, message)).title == ArgumentTitle != ArgumentNullTitle
  {
  }
}
