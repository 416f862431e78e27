/** Content-type classification and URL validation (backend/Utils/FileUtils.cs). */
module FileUtils {
  import opened Wrappers
  import opened Strings

  const ImageContentTypes: set<string> := {"image/png", "image/jpeg", "image/gif"}
  const PlainTextContentTypes: set<string> := {"text/html", "text/plain"}
  const PdfContentType: string := "application/pdf"

  const UriSchemeHttp: string := "http"
  const UriSchemeHttps: string := "https"

  predicate IsImage(contentType: Option<string>) {
    !IsNullOrEmpty(contentType) && contentType.value in ImageContentTypes
  }

  predicate IsPlainText(contentType: Option<string>) {
    !IsNullOrEmpty(contentType) && contentType.value in PlainTextContentTypes
  }

  /** Decided on the declared type alone: the file's bytes are never looked at. */
  predicate IsPdfFile(contentType: Option<string>) {
    !IsNullOrEmpty(contentType) && PdfContentType == contentType.value
  }

  /** Uri.TryCreate(s, UriKind.Absolute, out uri) as seen by the validator:
      the (lower-case) Scheme of uri when s parses as an absolute URI,
      None when it does not. */
  type AbsoluteUriParser = string -> Option<string>

  predicate IsFileUrlValid(fileUrl: Option<string>, tryCreate: AbsoluteUriParser) {
    if IsNullOrWhiteSpace(fileUrl) then false
    else
      match tryCreate(fileUrl.value)
      case None => false
      case Some(scheme) => scheme == UriSchemeHttp || scheme == UriSchemeHttps
  }

  /** The bucket a media type falls in. */
  datatype ContentKind = Image | PlainText | Pdf | Unsupported

  /** The dispatchers' if–else chain over the three predicates. */
  function Classify(contentType: Option<string>): (kind: ContentKind)
    ensures kind == Image <==> IsImage(contentType)
    ensures kind == PlainText <==> IsPlainText(contentType)
    ensures kind == Pdf <==> IsPdfFile(contentType)
    ensures kind == Unsupported <==> !IsImage(contentType) && !IsPlainText(contentType) && !IsPdfFile(contentType)
  {
    if IsImage(contentType) then Image
    else if IsPlainText(contentType) then PlainText
    else if IsPdfFile(contentType) then Pdf
    else Unsupported
  }

  /** Exactly three media types are images, compared case-sensitively. */
  lemma ImageTypes(contentType: Option<string>)
    ensures IsImage(contentType) <==>
      contentType == Some("image/png") || contentType == Some("image/jpeg") || contentType == Some("image/gif")
    ensures !IsImage(Some("IMAGE/PNG")) && !IsImage(Some("image/png; charset=x"))
  {
  }

  lemma PlainTextTypes(contentType: Option<string>)
    ensures IsPlainText(contentType) <==> contentType == Some("text/html") || contentType == Some("text/plain")
  {
  }

  lemma PdfTypes(contentType: Option<string>)
    ensures IsPdfFile(contentType) <==> contentType == Some("application/pdf")
  {
  }

  /** A null or empty content type is in no bucket. */
  lemma NullOrEmptyIsUnsupported(contentType: Option<string>)
    requires IsNullOrEmpty(contentType)
    ensures !IsImage(contentType) && !IsPlainText(contentType) && !IsPdfFile(contentType)
    ensures Classify(contentType) == Unsupported
  {
  }

  /** At most one of the three predicates holds of any content type. */
  lemma KindsAreExclusive(contentType: Option<string>)
    ensures !(IsImage(contentType) && IsPlainText(contentType))
    ensures !(IsImage(contentType) && IsPdfFile(contentType))
    ensures !(IsPlainText(contentType) && IsPdfFile(contentType))
  {
  }

  /** Null, empty or white-space URLs are refused whatever the parser says. */
  lemma BlankUrlIsInvalid(fileUrl: Option<string>, tryCreate: AbsoluteUriParser)
    requires IsNullOrWhiteSpace(fileUrl)
    ensures !IsFileUrlValid(fileUrl, tryCreate)
  {
  }

  /** A URL is accepted exactly when it is not blank, parses as absolute,
      and its scheme is http or https; every other scheme is refused. */
  lemma UrlValidity(fileUrl: Option<string>, tryCreate: AbsoluteUriParser)
    ensures IsFileUrlValid(fileUrl, tryCreate) <==>
      && fileUrl.Some? && !IsBlank(fileUrl.value)
      && tryCreate(fileUrl.value) in {Some("http"), Some("https")}
  {
  }
}
