/** The analysis dispatcher (backend/Services/FileAnalysisService.cs):
    validate the URL, read its content type, hand it to the matching
    analyser, and record the analysis when the database is reachable. */
module FileAnalysisService {
  import opened Wrappers
  import opened Exceptions
  import opened Models
  import opened Collaborators
  import opened Http
  import opened FileUtils

  const InvalidUrlMessage: string := "Invalid/unsupported url entered!"
  const UnsupportedContentMessage: string := "Unsupported link content"

  /** The analyser a supported content kind is handed to. */
  function AnalyserCall(kind: ContentKind, url: string): Call
    requires kind != Unsupported
  {
    match kind
    case Image => AnalyzeImage(url)
    case PlainText => SummarizeText(url)
    case Pdf => SummarizePdf(url)
  }

  /** What a branch's catch block rethrows: the image branch a plain
      Exception, the text and PDF branches an InvalidOperationException;
      both keep only the message. */
  function Rewrap(kind: ContentKind, e: Exception): Exception {
    if kind == Image then Exception(General, e.message) else Exception(InvalidOperation, e.message)
  }

  /** AnalyzeFileAsync.  `header` is what the GET on the URL answers,
      `analysis` what the chosen analyser returns or throws, `db` how the
      database behaves; every call made is listed in `calls`. */
  method AnalyzeFile(fileUrl: Option<string>, tryCreate: AbsoluteUriParser, header: HeaderResponse,
                     analysis: Result<string, Exception>, db: Database, uow: UnitOfWork)
    returns (r: Result<string, Exception>, calls: seq<Call>)
    modifies uow`fileAnalysisResults
    // an invalid URL is refused before any request
    ensures !IsFileUrlValid(fileUrl, tryCreate) ==>
      && r == Failure(Exception(InvalidData, InvalidUrlMessage)) && calls == []
      && uow.fileAnalysisResults == old(uow.fileAnalysisResults)
    // otherwise the first request reads the content type
    ensures IsFileUrlValid(fileUrl, tryCreate) ==> |calls| >= 1 && calls[0] == FetchHeader(fileUrl.value)
    ensures IsFileUrlValid(fileUrl, tryCreate) && ContentTypeOf(header).Failure? ==>
      && r == Failure(ContentTypeOf(header).error) && |calls| == 1
      && uow.fileAnalysisResults == old(uow.fileAnalysisResults)
    ensures IsFileUrlValid(fileUrl, tryCreate) && ContentTypeOf(header).Success?
            && Classify(Some(ContentTypeOf(header).value)) == Unsupported ==>
      && r == Failure(Exception(InvalidData, UnsupportedContentMessage)) && |calls| == 1
      && uow.fileAnalysisResults == old(uow.fileAnalysisResults)
    // a supported type: one analyser call, then the probe and at most one save
    ensures IsFileUrlValid(fileUrl, tryCreate) && ContentTypeOf(header).Success?
            && Classify(Some(ContentTypeOf(header).value)) != Unsupported ==>
      var kind := Classify(Some(ContentTypeOf(header).value));
      var url := fileUrl.value;
      var prefix := [FetchHeader(url), AnalyserCall(kind, url)];
      && (analysis.Failure? ==>
            r == Failure(Rewrap(kind, analysis.error)) && calls == prefix
            && uow.fileAnalysisResults == old(uow.fileAnalysisResults))
      && (analysis.Success? && !db.reachable ==>
            r == analysis && calls == prefix + [ProbeDatabase]
            && uow.fileAnalysisResults == old(uow.fileAnalysisResults))
      && (analysis.Success? && db.reachable && db.saveError.Some? ==>
            r == Failure(Rewrap(kind, db.saveError.value)) && calls == prefix + [ProbeDatabase, SaveChanges]
            && uow.fileAnalysisResults == old(uow.fileAnalysisResults))
      && (analysis.Success? && db.reachable && db.saveError.None? ==>
            r == analysis && calls == prefix + [ProbeDatabase, SaveChanges]
            && uow.fileAnalysisResults == old(uow.fileAnalysisResults) + [FileAnalysisResult(url, analysis.value)])
    // what is returned on success is the analyser's own text
    ensures r.Success? ==> r == analysis
    // the table grows (by exactly one row) exactly when a reachable database saves
    ensures uow.fileAnalysisResults != old(uow.fileAnalysisResults) <==>
      r.Success? && db.reachable && db.saveError.None?
    ensures uow.fileAnalysisResults == old(uow.fileAnalysisResults) ||
      uow.fileAnalysisResults == old(uow.fileAnalysisResults) + [FileAnalysisResult(fileUrl.value, r.value)]
  {
    if !IsFileUrlValid(fileUrl, tryCreate) {
      return Failure(Exception(InvalidData, InvalidUrlMessage)), [];
    }
    var url := fileUrl.value;
    calls := [FetchHeader(url)];
    var contentType := ContentTypeOf(header);
    if contentType.Failure? {
      return Failure(contentType.error), calls;
    }
    var kind := Classify(Some(contentType.value));
    if kind == Unsupported {
      return Failure(Exception(InvalidData, UnsupportedContentMessage)), calls;
    }
    calls := calls + [AnalyserCall(kind, url)];
    if analysis.Failure? {
      return Failure(Rewrap(kind, analysis.error)), calls;
    }
    calls := calls + [ProbeDatabase];
    if db.reachable {
      calls := calls + [SaveChanges];
      if db.saveError.Some? {
        return Failure(Rewrap(kind, db.saveError.value)), calls;
      }
      uow.fileAnalysisResults := uow.fileAnalysisResults + [FileAnalysisResult(url, analysis.value)];
    }
    r := analysis;
  }
}
