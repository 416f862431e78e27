/** The external services a request talks to, seen from the backend: what
    it asks of them (the call trace) and what they answer (parameters). */
module Collaborators {
  import opened Wrappers
  import opened Exceptions

  /** The chat model: its reply to the n-th call of a request (counting from
      0) made with the given input, or the exception that call throws. */
  type Chat = (nat, string) -> Result<string, Exception>

  /** A run of a service that talks to the chat model: what it returns or
      throws, and the inputs it handed the model, in order. */
  datatype Run = Run(result: Result<string, Exception>, calls: seq<string>)

  /** A call the backend makes to a collaborator, in the order made. */
  datatype Call =
    | FetchHeader(url: string)                              // HttpClient.SendAsync(GET url)
    | AnalyzeImage(url: string)                             // IImageService.AnalyzeImageAsync
    | SummarizeText(url: string)                            // ITextService.SummarizeTextAsync
    | SummarizePdf(url: string)                             // IPdfService.SummarizePdfAsync
    | ProbeDatabase                                         // IsDbConnectionStringGood
    | SaveChanges                                           // CompleteAsync
    | ReadLogins                                            // UserLogin.GetAllAsync
    | PutObject(bucket: string, key: string, contentType: string)
    | PresignUrl(bucket: string, key: string, minutes: int)        // GetPreSignedURLAsync
    | ListObjects(bucket: string, continuationToken: Option<string>) // ListObjectsV2Async

  /** The index of the first of a series of calls that throws, or |inputs|
      when none does; the i-th input is handed over in call number i. */
  function FirstFailure(inputs: seq<string>, chat: Chat): (k: nat)
    ensures k <= |inputs|
    ensures forall j :: 0 <= j < k ==> chat(j, inputs[j]).Success?
    ensures k < |inputs| ==> chat(k, inputs[k]).Failure?
  {
    FirstFailureFrom(inputs, chat, 0)
  }

  function FirstFailureFrom(inputs: seq<string>, chat: Chat, from: nat): (k: nat)
    requires from <= |inputs|
    requires forall j :: 0 <= j < from ==> chat(j, inputs[j]).Success?
    ensures from <= k <= |inputs|
    ensures forall j :: 0 <= j < k ==> chat(j, inputs[j]).Success?
    ensures k < |inputs| ==> chat(k, inputs[k]).Failure?
    decreases |inputs| - from
  {
    if from == |inputs| || chat(from, inputs[from]).Failure? then from
    else FirstFailureFrom(inputs, chat, from + 1)
  }
}
