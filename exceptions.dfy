/** The exception classes that reach the backend's handlers. */
module Exceptions {

  /** System and custom exception classes other than AmazonS3Exception.
      UserSetup, AwsCloud, AzureCloud and OpenAi are the backend's own
      exception classes; General is System.Exception itself. */
  datatype ExceptionKind =
    | ArgumentNull          // System.ArgumentNullException, a subclass of ArgumentException
    | ArgumentOutOfRange    // System.ArgumentOutOfRangeException, a subclass of ArgumentException
    | Argument              // System.ArgumentException
    | InvalidData           // System.IO.InvalidDataException
    | InvalidOperation      // System.InvalidOperationException
    | ObjectDisposed        // System.ObjectDisposedException, a subclass of InvalidOperationException
    | NullReference         // System.NullReferenceException
    | HttpRequest           // System.Net.Http.HttpRequestException
    | Json                  // System.Text.Json.JsonException
    | DbUpdate              // Microsoft.EntityFrameworkCore.DbUpdateException
    | UserSetup
    | AwsCloud
    | AzureCloud
    | OpenAi
    | General

  /** A thrown exception: its class and its Message.  AmazonS3Exception
      also carries the HTTP status code the storage service answered with. */
  datatype Exception =
    | Exception(kind: ExceptionKind, message: string)
    | AmazonS3Exception(message: string, statusCode: int)

  const HttpStatusNotFound: int := 404

  /** Whether an exception of class `k` is an instance of class `t`
      (`catch (T ex)`, `case T:`), for the classes of ExceptionKind. */
  predicate IsSubclassOf(k: ExceptionKind, t: ExceptionKind) {
    || k == t
    || t == General
    || (t == Argument && (k == ArgumentNull || k == ArgumentOutOfRange))
    || (t == InvalidOperation && k == ObjectDisposed)
  }

  predicate IsInstanceOf(e: Exception, t: ExceptionKind) {
    match e
    case Exception(k, _) => IsSubclassOf(k, t)
    case AmazonS3Exception(_, _) => t == General
  }
}
