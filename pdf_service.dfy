/** The PDF summariser (backend/Services/PdfService.cs): the pages' text is
    joined, and either summarised in one call or, when longer than
    MaxFileSizeInOneChunk, cut into ChunkSizeInBytes pieces that are summarised
    one after the other, with the joined partial summaries summarised once more. */
module PdfService {
  import opened Wrappers
  import opened Strings
  import opened Exceptions
  import opened Collaborators

  const MaxFileSizeInOneChunk: nat := 12000
  const ChunkSizeInBytes: nat := 4000
  /** Environment.NewLine, which StringBuilder.AppendLine writes; "\n" on Linux. */
  const NewLine: string := "\n"
  /** The separator string.Join puts between the partial summaries. */
  const PartialSeparator: string := "\n"
  const NoTextExtracted: string := "No text extracted from PDF."

  /** The text ExtractTextFromPdfStream builds: each page's text followed by
      a line terminator, in page order. */
  function PageText(pages: seq<string>): string {
    if pages == [] then "" else PageText(pages[..|pages| - 1]) + pages[|pages| - 1] + NewLine
  }

  /** ExtractTextFromPdfStream's StringBuilder loop over the pages. */
  method ExtractText(pages: seq<string>) returns (text: string)
    ensures text == PageText(pages)
  {
    text := "";
    for i := 0 to |pages|
      invariant text == PageText(pages[..i])
    {
      assert pages[..i + 1][..i] == pages[..i];
      text := text + pages[i] + NewLine;
    }
    assert pages[..|pages|] == pages;
  }

  /** Pages yield no text exactly when every page's text is blank. */
  lemma {:induction false} PageTextIsBlank(pages: seq<string>)
    ensures IsBlank(PageText(pages)) <==> forall i :: 0 <= i < |pages| ==> IsBlank(pages[i])
  {
    if pages != [] {
      var init, last := pages[..|pages| - 1], pages[|pages| - 1];
      PageTextIsBlank(init);
      var t := PageText(init);
      assert PageText(pages) == t + (last + NewLine);
      BlankConcat(t, last + NewLine);
      BlankConcat(last, NewLine);
      assert forall i :: 0 <= i < |init| ==> init[i] == pages[i];
    }
  }

  lemma BlankConcat(a: string, b: string)
    ensures IsBlank(a + b) <==> IsBlank(a) && IsBlank(b)
  {
    if IsBlank(a + b) {
      forall i | 0 <= i < |a| ensures IsWhiteSpace(a[i]) { assert (a + b)[i] == a[i]; }
      forall i | 0 <= i < |b| ensures IsWhiteSpace(b[i]) { assert (a + b)[|a| + i] == b[i]; }
    }
    if IsBlank(a) && IsBlank(b) {
      forall i | 0 <= i < |a + b| ensures IsWhiteSpace((a + b)[i]) {
        if i < |a| { assert (a + b)[i] == a[i]; } else { assert (a + b)[i] == b[i - |a|]; }
      }
    }
  }

  /** Enumerable.Chunk(size) on the text: consecutive pieces that together
      are the text, none empty, all of `size` characters except the last,
      and ceil(|text| / size) of them. */
  function Chunks(text: string, size: nat): (chunks: seq<string>)
    requires size > 0
    ensures Concat(chunks) == text
    ensures forall i :: 0 <= i < |chunks| ==> 0 < |chunks[i]| <= size
    ensures forall i :: 0 <= i < |chunks| - 1 ==> |chunks[i]| == size
    ensures (|chunks| - 1) * size < |text| <= |chunks| * size
    decreases |text|
  {
    if |text| <= size then
      if text == "" then [] else [text]
    else
      var rest := Chunks(text[size..], size);
      ChunksStep(text, size, rest);
      [text[..size]] + rest
  }

  /** One more chunk of `size` characters in front of the chunks of the rest. */
  lemma ChunksStep(text: string, size: nat, rest: seq<string>)
    requires 0 < size < |text|
    requires Concat(rest) == text[size..]
    requires forall i :: 0 <= i < |rest| ==> 0 < |rest[i]| <= size
    requires forall i :: 0 <= i < |rest| - 1 ==> |rest[i]| == size
    requires (|rest| - 1) * size < |text| - size <= |rest| * size
    ensures var chunks := [text[..size]] + rest;
      && Concat(chunks) == text
      && (forall i :: 0 <= i < |chunks| ==> 0 < |chunks[i]| <= size)
      && (forall i :: 0 <= i < |chunks| - 1 ==> |chunks[i]| == size)
      && (|chunks| - 1) * size < |text| <= |chunks| * size
  {
    var chunks := [text[..size]] + rest;
    assert chunks[1..] == rest;
    assert text == text[..size] + text[size..];
    assert (|rest| + 1) * size == |rest| * size + size;
    assert forall i :: 1 <= i < |chunks| ==> chunks[i] == rest[i - 1];
  }

  /** Over the threshold there are at least four chunks. */
  lemma ChunkCount(text: string)
    requires |text| > MaxFileSizeInOneChunk
    ensures |Chunks(text, ChunkSizeInBytes)| == (|text| + ChunkSizeInBytes - 1) / ChunkSizeInBytes
    ensures |Chunks(text, ChunkSizeInBytes)| >= 4
  {
  }

  /** The partial summaries when every chunk's call succeeds: the i-th is
      the reply to the i-th chunk. */
  function Partials(chunks: seq<string>, summarize: Chat): (partials: seq<string>)
    requires FirstFailure(chunks, summarize) == |chunks|
    ensures |partials| == |chunks|
    ensures forall i :: 0 <= i < |chunks| ==> Success(partials[i]) == summarize(i, chunks[i])
  {
    seq(|chunks|, i requires 0 <= i < |chunks| => summarize(i, chunks[i]).value)
  }

  /** SummarizePdfAsync, given the page texts of the downloaded PDF (or the
      exception the download or the parser threw).  `calls` are the inputs
      handed to the private SummarizeTextAsync, in order. */
  method SummarizePdf(download: Result<seq<string>, Exception>, summarize: Chat)
    returns (r: Result<string, Exception>, calls: seq<string>)
    ensures download.Failure? ==> r == Failure(download.error) && calls == []
    ensures download.Success? && IsBlank(PageText(download.value)) ==>
      r == Failure(Exception(General, NoTextExtracted)) && calls == []
    ensures download.Success? && !IsBlank(PageText(download.value))
            && |PageText(download.value)| <= MaxFileSizeInOneChunk ==>
      calls == [PageText(download.value)] && r == summarize(0, calls[0])
    ensures download.Success? && !IsBlank(PageText(download.value))
            && |PageText(download.value)| > MaxFileSizeInOneChunk ==>
      var chunks := Chunks(PageText(download.value), ChunkSizeInBytes);
      var k := FirstFailure(chunks, summarize);
      if k < |chunks| then
        // the failing call's exception propagates; no reduce call is made
        calls == chunks[..k + 1] && r == Failure(summarize(k, chunks[k]).error)
      else
        // one call per chunk in document order, then one on the joined partials
        && calls == chunks + [Join(PartialSeparator, Partials(chunks, summarize))]
        && r == summarize(|chunks|, calls[|chunks|])
  {
    if download.Failure? {
      return Failure(download.error), [];
    }
    var text := ExtractText(download.value);
    if IsNullOrWhiteSpace(Some(text)) {
      return Failure(Exception(General, NoTextExtracted)), [];
    }
    if |text| > MaxFileSizeInOneChunk {
      r, calls := MapReduce(Chunks(text, ChunkSizeInBytes), summarize);
    } else {
      calls := [text];
      r := summarize(0, text);
    }
  }

  /** The map-reduce half of SummarizePdfAsync: each chunk is summarised in
      order, the first failure propagating, and the partial summaries joined
      by PartialSeparator are summarised once more. */
  method MapReduce(chunks: seq<string>, summarize: Chat)
    returns (r: Result<string, Exception>, calls: seq<string>)
    ensures var k := FirstFailure(chunks, summarize);
      if k < |chunks| then
        calls == chunks[..k + 1] && r == Failure(summarize(k, chunks[k]).error)
      else
        && calls == chunks + [Join(PartialSeparator, Partials(chunks, summarize))]
        && r == summarize(|chunks|, calls[|chunks|])
  {
    var partials: seq<string> := [];
    calls := [];
    var i := 0;
    while i < |chunks|
      invariant 0 <= i <= |chunks|
      invariant calls == chunks[..i]
      invariant |partials| == i
      invariant forall j :: 0 <= j < i ==> Success(partials[j]) == summarize(j, chunks[j])
    {
      var reply := summarize(i, chunks[i]);
      calls := calls + [chunks[i]];
      if reply.Failure? {
        assert FirstFailure(chunks, summarize) == i;
        return Failure(reply.error), calls;
      }
      partials := partials + [reply.value];
      i := i + 1;
    }
    assert FirstFailure(chunks, summarize) == |chunks|;
    assert partials == Partials(chunks, summarize);
    var joined := Join(PartialSeparator, partials);
    calls := calls + [joined];
    r := summarize(|chunks|, joined);
  }

  /** A 15000-character text gives four chunks: three of 4000 characters
      and a last one of 3000. */
  lemma FifteenThousandCharacters(text: string)
    requires |text| == 15000
    ensures |Chunks(text, ChunkSizeInBytes)| == 4
    ensures forall i :: 0 <= i < 3 ==> |Chunks(text, ChunkSizeInBytes)[i]| == ChunkSizeInBytes
    ensures |Chunks(text, ChunkSizeInBytes)[3]| == 3000
  {
    var t1 := text[ChunkSizeInBytes..];
    var t2 := t1[ChunkSizeInBytes..];
    var t3 := t2[ChunkSizeInBytes..];
    assert |t3| == 3000;
    assert Chunks(t3, ChunkSizeInBytes) == [t3];
    assert Chunks(t2, ChunkSizeInBytes) == [t2[..ChunkSizeInBytes], t3];
    assert Chunks(t1, ChunkSizeInBytes) == [t1[..ChunkSizeInBytes], t2[..ChunkSizeInBytes], t3];
    assert Chunks(text, ChunkSizeInBytes)[3] == t3;
  }
}
