/** The database tables the backend reads and appends to, and the
    persistence collaborator's observable behaviour. */
module Models {
  import opened Wrappers
  import opened Exceptions

  /** A row of FileAnalysisResult: the analysed URL and the analyser's raw text. */
  datatype FileAnalysisResult = FileAnalysisResult(presignedUrl: string, analysisText: string)

  /** A row of FileUploadHistory.  FileLengthInBytes is a 32-bit column;
      LoadTime is a point in time in ticks; FileExtension holds the
      upload's content type. */
  datatype FileUpload = FileUpload(
    localFileName: string,
    fileLengthInBytes: int,
    awsKey: string,
    presignedUrl: string,
    loadTime: int,
    fileExtension: string)

  /** A row of UserLogin. */
  datatype UserLogin = UserLogin(username: string, password: string)

  /** The committed contents of the three tables behind IUnitOfWork.  A row
      added to a repository appears here only once CompleteAsync succeeds. */
  class UnitOfWork {
    var fileUploadHistory: seq<FileUpload>
    var fileAnalysisResults: seq<FileAnalysisResult>
    var userLogins: seq<UserLogin>

    constructor (uploads: seq<FileUpload>, analyses: seq<FileAnalysisResult>, logins: seq<UserLogin>)
      ensures fileUploadHistory == uploads
      ensures fileAnalysisResults == analyses
      ensures userLogins == logins
    {
      fileUploadHistory := uploads;
      fileAnalysisResults := analyses;
      userLogins := logins;
    }
  }

  /** What the database does during one request: whether
      IsDbConnectionStringGood (CanConnectAsync) reports it reachable, the
      exception a query (ToListAsync, GetAllAsync, Find) throws, if any, and the
      exception CompleteAsync throws, if any. */
  datatype Database = Database(reachable: bool, readError: Option<Exception>, saveError: Option<Exception>)
}
