/** The analysis and storage endpoints (backend/Controllers/OpenAIAwsController.cs). */
module OpenAIAwsController {
  import opened Wrappers
  import opened Strings
  import opened Exceptions
  import opened Models
  import opened Collaborators
  import opened Http
  import opened FileUtils
  import opened FileUploadService

  // ---------------------------------------------------------------------
  // ListS3Files: page through the bucket, presigning every key
  // ---------------------------------------------------------------------

  /** One ListObjectsV2 response; each of its fields may be null. */
  datatype ListPage = ListPage(s3Objects: Option<seq<string>>, nextContinuationToken: Option<string>,
                               isTruncated: Option<bool>)

  /** What one ListObjectsV2Async call returns (None for null) or throws. */
  type Listing = Result<Option<ListPage>, Exception>

  /** GetPreSignedURL: the URL for the j-th key presigned in a request
      (counting from 0), or the exception that call throws. */
  type Presign = (nat, string) -> Result<string, Exception>

  /** The do–while condition `response != null && response.IsTruncated != null
      ? (bool)response.IsTruncated : false`. */
  predicate Continues(listing: Listing) {
    listing.Success? && listing.value.Some? && listing.value.value.isTruncated == Some(true)
  }

  /** The keys a listing contributes. */
  function KeysOf(listing: Listing): seq<string> {
    if listing.Success? && listing.value.Some? && listing.value.value.s3Objects.Some?
    then listing.value.value.s3Objects.value
    else []
  }

  /** The storage service eventually ends the paging. */
  predicate Terminates(listings: seq<Listing>) {
    exists n :: 0 <= n < |listings| && !Continues(listings[n])
  }

  /** The listing that ends the loop. */
  function EndIndex(listings: seq<Listing>): (e: nat)
    requires Terminates(listings)
    ensures e < |listings| && !Continues(listings[e])
    ensures forall n :: 0 <= n < e ==> Continues(listings[n])
  {
    EndIndexFrom(listings, 0)
  }

  function EndIndexFrom(listings: seq<Listing>, from: nat): (e: nat)
    requires exists n :: from <= n < |listings| && !Continues(listings[n])
    requires forall n :: 0 <= n < from ==> Continues(listings[n])
    ensures from <= e < |listings| && !Continues(listings[e])
    ensures forall n :: 0 <= n < e ==> Continues(listings[n])
    decreases |listings| - from
  {
    var w :| from <= w < |listings| && !Continues(listings[w]);
    if !Continues(listings[from]) then from
    else
      assert from + 1 <= w;
      EndIndexFrom(listings, from + 1)
  }

  /** The keys of the first n listings, in listing order. */
  function KeysBefore(listings: seq<Listing>, n: nat): seq<string>
    requires n <= |listings|
  {
    if n == 0 then [] else KeysBefore(listings, n - 1) + KeysOf(listings[n - 1])
  }

  /** The continuation token sent with the n-th listing request. */
  function TokenBefore(listings: seq<Listing>, n: nat): Option<string>
    requires n <= |listings|
  {
    if n == 0 then None
    else match listings[n - 1]
      case Success(Some(page)) => page.nextContinuationToken
      case _ => None
  }

  /** The continuation tokens sent with the first n listing requests. */
  function TokensBefore(listings: seq<Listing>, n: nat): (tokens: seq<Option<string>>)
    requires n <= |listings|
    ensures |tokens| == n
  {
    if n == 0 then [] else TokensBefore(listings, n - 1) + [TokenBefore(listings, n - 1)]
  }

  /** `files[key] = url` for each key in order: a later key overwrites. */
  function UrlMap(keys: seq<string>, presign: Presign): map<string, string> {
    if keys == [] then map[]
    else
      var n := |keys| - 1;
      var m := UrlMap(keys[..n], presign);
      var url := presign(n, keys[n]);
      if url.Success? then m[keys[n] := url.value] else m
  }

  /** The catch block: a missing bucket is a 400, any other S3 error a 500;
      other exceptions are not caught. */
  function S3ErrorResult(e: Exception, bucket: string): Result<ActionResult, Exception> {
    if e.AmazonS3Exception? then
      if e.statusCode == HttpStatusNotFound then Success(BadRequest("Bucket " + bucket + " not exist!"))
      else Success(ActionResult(StatusInternalServerError, Text("S3 error: " + e.message)))
    else Failure(e)
  }

  /** The listing requests sent with these continuation tokens, in order,
      each for the given bucket. */
  function ListRequests(bucket: string, tokens: seq<Option<string>>): (calls: seq<Call>)
    ensures |calls| == |tokens|
    ensures forall i :: 0 <= i < |tokens| ==> calls[i] == ListObjects(bucket, tokens[i])
  {
    seq(|tokens|, i requires 0 <= i < |tokens| => ListObjects(bucket, tokens[i]))
  }

  /** The presign requests for these keys, in order: each for the given
      bucket and a lifetime of PresignMinutes. */
  function PresignCalls(bucket: string, keys: seq<string>): (calls: seq<Call>)
    ensures |calls| == |keys|
    ensures forall i :: 0 <= i < |keys| ==> calls[i] == PresignUrl(bucket, keys[i], PresignMinutes)
  {
    seq(|keys|, i requires 0 <= i < |keys| => PresignUrl(bucket, keys[i], PresignMinutes))
  }

  lemma ListRequestsSnoc(bucket: string, tokens: seq<Option<string>>, token: Option<string>)
    ensures ListRequests(bucket, tokens + [token]) == ListRequests(bucket, tokens) + [ListObjects(bucket, token)]
  {
    assert ListRequests(bucket, tokens + [token])[..|tokens|] == ListRequests(bucket, tokens);
  }

  lemma PresignCallsSnoc(bucket: string, keys: seq<string>, key: string)
    ensures PresignCalls(bucket, keys + [key]) == PresignCalls(bucket, keys) + [PresignUrl(bucket, key, PresignMinutes)]
  {
    assert PresignCalls(bucket, keys + [key])[..|keys|] == PresignCalls(bucket, keys);
  }

  /** GetS3FilesUrls.  The i-th listing request gets `listings[i]`; the j-th
      presign request of the run gets `presign(j, key)`.  `requests` are the
      listing requests sent and `presigns` the presign requests, in order. */
  method GetS3FilesUrls(bucketName: Option<string>, listings: seq<Listing>, presign: Presign)
    returns (r: Result<ActionResult, Exception>, requests: seq<Call>, presigns: seq<Call>)
    requires Terminates(listings)
    ensures IsNullOrWhiteSpace(bucketName) ==>
      r == Success(BadRequest(EmptyBucketMessage)) && requests == [] && presigns == []
    ensures !IsNullOrWhiteSpace(bucketName) ==> ListedAll(bucketName.value, listings, presign, r, requests, presigns)
  {
    if IsNullOrWhiteSpace(bucketName) {
      return Success(BadRequest(EmptyBucketMessage)), [], [];
    }
    r, requests, presigns := ListBucket(bucketName.value, listings, presign);
  }

  /** What the paging loop in a named bucket leaves behind: the listing
      requests, each in the bucket with the previous page's token, the
      presign requests, each in the bucket for PresignMinutes, and the result. */
  predicate ListedAll(bucket: string, listings: seq<Listing>, presign: Presign,
                      r: Result<ActionResult, Exception>, requests: seq<Call>, presigns: seq<Call>)
    requires Terminates(listings)
  {
      var e := EndIndex(listings);
      var keys := KeysBefore(listings, e + 1);
      var p := FirstFailure(keys, presign);
      && 1 <= |requests| <= e + 1 && requests == ListRequests(bucket, TokensBefore(listings, |requests|))
      // the first failing presign ends the run, on the page that holds key p
      && (p < |keys| ==>
            && presigns == PresignCalls(bucket, keys[..p + 1]) && r == S3ErrorResult(presign(p, keys[p]).error, bucket)
            && |KeysBefore(listings, |requests| - 1)| <= p < |KeysBefore(listings, |requests|)|)
      // otherwise every listing up to the last is requested and every key presigned
      && (p == |keys| ==>
            && presigns == PresignCalls(bucket, keys) && |requests| == e + 1
            && r == if listings[e].Failure? then S3ErrorResult(listings[e].error, bucket)
                    else Success(Ok(FileUrls(UrlMap(keys, presign)))))
  }

  /** The try block of GetS3FilesUrls: the do–while over the pages. */
  method ListBucket(bucket: string, listings: seq<Listing>, presign: Presign)
    returns (r: Result<ActionResult, Exception>, requests: seq<Call>, presigns: seq<Call>)
    requires Terminates(listings)
    ensures ListedAll(bucket, listings, presign, r, requests, presigns)
  {
    ghost var e := EndIndex(listings);
    var files: map<string, string> := map[];
    var token: Option<string> := None;
    ghost var tokens: seq<Option<string>> := [];
    var presigned: seq<string> := [];
    requests, presigns := [], [];
    var n := 0;
    while true
      invariant 0 <= n <= e
      invariant tokens == TokensBefore(listings, n) && requests == ListRequests(bucket, tokens)
      invariant token == TokenBefore(listings, n)
      invariant presigned == KeysBefore(listings, n) && presigns == PresignCalls(bucket, presigned)
      invariant FirstFailure(presigned, presign) == |presigned|
      invariant files == UrlMap(presigned, presign)
      decreases e - n
    {
      ListRequestsSnoc(bucket, tokens, token);
      tokens, requests := tokens + [token], requests + [ListObjects(bucket, token)];
      var listing := listings[n];
      if listing.Failure? {
        ListingFailureEnds(bucket, listings, presign, n, tokens, presigned, requests, presigns);
        return S3ErrorResult(listing.error, bucket), requests, presigns;
      }
      // a null response or a null S3Objects contributes no keys
      ghost var before := presigned;
      var failure;
      presigned, presigns, files, failure := PresignKeys(bucket, KeysOf(listing), presigned, presigns, files, presign);
      if failure.Some? {
        ghost var all := before + KeysOf(listing);
        ghost var p := FirstFailure(all, presign);
        ghost var keys := KeysBefore(listings, e + 1);
        PresignFailureEnds(listings, presign, n, before, all, p, presigned, failure.value, keys);
        PageBounds(listings, n, tokens, before, p);
        PresignFailureListed(bucket, listings, presign, keys, tokens, presigned, failure.value, p, requests, presigns);
        return S3ErrorResult(failure.value, bucket), requests, presigns;
      }
      if listing.value.Some? {
        token := listing.value.value.nextContinuationToken;
      }
      if !Continues(listing) {
        LastPageEnds(bucket, listings, presign, n, tokens, before, presigned, requests, presigns);
        return Success(Ok(FileUrls(files))), requests, presigns;
      }
      NextPage(listings, n, before, presigned);
      n := n + 1;
    }
  }

  /** A truncated page is not the last one, and hands its token on. */
  lemma NextPage(listings: seq<Listing>, n: nat, before: seq<string>, presigned: seq<string>)
    requires Terminates(listings) && n <= EndIndex(listings) && Continues(listings[n])
    requires before == KeysBefore(listings, n) && presigned == before + KeysOf(listings[n])
    ensures n + 1 <= EndIndex(listings)
    ensures presigned == KeysBefore(listings, n + 1)
    ensures listings[n].value.value.nextContinuationToken == TokenBefore(listings, n + 1)
  {
  }

  lemma ListingFailureEnds(bucket: string, listings: seq<Listing>, presign: Presign, n: nat,
                           tokens: seq<Option<string>>, presigned: seq<string>,
                           requests: seq<Call>, presigns: seq<Call>)
    requires Terminates(listings) && n <= EndIndex(listings) && listings[n].Failure?
    requires tokens == TokensBefore(listings, n + 1) && requests == ListRequests(bucket, tokens)
    requires presigned == KeysBefore(listings, n) && FirstFailure(presigned, presign) == |presigned|
    requires presigns == PresignCalls(bucket, presigned)
    ensures ListedAll(bucket, listings, presign, S3ErrorResult(listings[n].error, bucket), requests, presigns)
  {
    assert presigned == KeysBefore(listings, n + 1);
  }

  /** A presign failure on page n is the first failure among the keys of
      all the pages the run would list. */
  lemma PresignFailureEnds(listings: seq<Listing>, presign: Presign, n: nat, before: seq<string>,
                           all: seq<string>, p: nat, presigned: seq<string>, failure: Exception,
                           keys: seq<string>)
    requires Terminates(listings) && n <= EndIndex(listings)
    requires keys == KeysBefore(listings, EndIndex(listings) + 1)
    requires before == KeysBefore(listings, n) && all == before + KeysOf(listings[n])
    requires p == FirstFailure(all, presign) && p < |all|
    requires failure == presign(p, all[p]).error && presigned == all[..p + 1]
    ensures p == FirstFailure(keys, presign) && p < |keys| && presigned == keys[..p + 1]
    ensures failure == presign(p, keys[p]).error
  {
    var e := EndIndex(listings);
    var tail := KeysBetween(listings, n + 1, e + 1);
    assert KeysBefore(listings, n + 1) == all;
    KeysBeforeSplit(listings, n + 1, e + 1);
    assert keys == all + tail;
    FailureCarriesOver(all, tail, keys, p, presigned, failure, presign);
  }

  /** The first presign failure among the keys so far stays the first one
      whatever keys later pages add. */
  lemma FailureCarriesOver(all: seq<string>, tail: seq<string>, keys: seq<string>, p: nat,
                           presigned: seq<string>, failure: Exception, presign: Presign)
    requires keys == all + tail && p == FirstFailure(all, presign) && p < |all|
    requires presigned == all[..p + 1] && failure == presign(p, all[p]).error
    ensures p == FirstFailure(keys, presign) && p < |keys| && presigned == keys[..p + 1]
    ensures failure == presign(p, keys[p]).error
  {
    FirstFailureAppend(all, tail, presign);
  }

  /** After n + 1 listing requests, a key index on page n lies between the
      keys of the first n pages and those of the first n + 1. */
  lemma PageBounds(listings: seq<Listing>, n: nat, tokens: seq<Option<string>>, before: seq<string>, p: nat)
    requires n < |listings| && tokens == TokensBefore(listings, n + 1)
    requires before == KeysBefore(listings, n) && |before| <= p < |before + KeysOf(listings[n])|
    ensures |tokens| == n + 1 && tokens == TokensBefore(listings, |tokens|)
    ensures |KeysBefore(listings, |tokens| - 1)| <= p < |KeysBefore(listings, |tokens|)|
  {
  }

  /** ListedAll for a run that a presign failure at key p ended. */
  lemma PresignFailureListed(bucket: string, listings: seq<Listing>, presign: Presign,
                             keys: seq<string>, tokens: seq<Option<string>>, presigned: seq<string>,
                             failure: Exception, p: nat, requests: seq<Call>, presigns: seq<Call>)
    requires Terminates(listings)
    requires keys == KeysBefore(listings, EndIndex(listings) + 1)
    requires p == FirstFailure(keys, presign) && p < |keys|
    requires presigned == keys[..p + 1]
    requires failure == presign(p, keys[p]).error
    requires 1 <= |tokens| <= EndIndex(listings) + 1
    requires tokens == TokensBefore(listings, |tokens|)
    requires |KeysBefore(listings, |tokens| - 1)| <= p
    requires p < |KeysBefore(listings, |tokens|)|
    requires requests == ListRequests(bucket, tokens) && presigns == PresignCalls(bucket, presigned)
    ensures ListedAll(bucket, listings, presign, S3ErrorResult(failure, bucket), requests, presigns)
  {
  }

  /** The page a key comes from is determined by the key's index: at most one
      listing count n has the key among the first n pages but not the first n - 1. */
  lemma PageOfKeyIsUnique(listings: seq<Listing>, p: nat, a: nat, b: nat)
    requires 1 <= a <= |listings| && 1 <= b <= |listings|
    requires |KeysBefore(listings, a - 1)| <= p < |KeysBefore(listings, a)|
    requires |KeysBefore(listings, b - 1)| <= p < |KeysBefore(listings, b)|
    ensures a == b
  {
    if a < b {
      KeysBeforePrefix(listings, a, b - 1);
    } else if b < a {
      KeysBeforePrefix(listings, b, a - 1);
    }
  }

  lemma LastPageEnds(bucket: string, listings: seq<Listing>, presign: Presign, n: nat,
                     tokens: seq<Option<string>>, before: seq<string>, presigned: seq<string>,
                     requests: seq<Call>, presigns: seq<Call>)
    requires Terminates(listings) && n <= EndIndex(listings)
    requires listings[n].Success? && !Continues(listings[n])
    requires tokens == TokensBefore(listings, n + 1) && requests == ListRequests(bucket, tokens)
    requires before == KeysBefore(listings, n)
    requires presigned == before + KeysOf(listings[n]) && FirstFailure(presigned, presign) == |presigned|
    requires presigns == PresignCalls(bucket, presigned)
    ensures ListedAll(bucket, listings, presign, Success(Ok(FileUrls(UrlMap(presigned, presign)))), requests, presigns)
  {
    assert n == EndIndex(listings);
    assert presigned == KeysBefore(listings, n + 1);
  }

  /** The keys of pages a up to b - 1, in listing order. */
  function KeysBetween(listings: seq<Listing>, a: nat, b: nat): seq<string>
    requires a <= b <= |listings|
    decreases b
  {
    if b == a then [] else KeysBetween(listings, a, b - 1) + KeysOf(listings[b - 1])
  }

  lemma {:induction false} KeysBeforeSplit(listings: seq<Listing>, a: nat, b: nat)
    requires a <= b <= |listings|
    ensures KeysBefore(listings, b) == KeysBefore(listings, a) + KeysBetween(listings, a, b)
    decreases b
  {
    if a < b {
      KeysBeforeSplit(listings, a, b - 1);
      var k := KeysOf(listings[b - 1]);
      assert KeysBefore(listings, a) + KeysBetween(listings, a, b - 1) + k
          == KeysBefore(listings, a) + (KeysBetween(listings, a, b - 1) + k);
    }
  }

  lemma {:induction false} KeysBeforePrefix(listings: seq<Listing>, a: nat, b: nat)
    requires a <= b <= |listings|
    ensures KeysBefore(listings, a) <= KeysBefore(listings, b)
    decreases b
  {
    if a < b {
      KeysBeforePrefix(listings, a, b - 1);
    }
  }

  /** The foreach over one page's objects: presign each key in turn, in the
      bucket and for PresignMinutes, continuing the run's numbering, until
      one presign throws.  `presigns` are the presign requests made so far. */
  method PresignKeys(bucket: string, objects: seq<string>, presigned: seq<string>, presigns: seq<Call>,
                     files: map<string, string>, presign: Presign)
    returns (presigned': seq<string>, presigns': seq<Call>, files': map<string, string>, failure: Option<Exception>)
    requires FirstFailure(presigned, presign) == |presigned| && files == UrlMap(presigned, presign)
    requires presigns == PresignCalls(bucket, presigned)
    ensures presigns' == PresignCalls(bucket, presigned')
    ensures var all := presigned + objects;
      var p := FirstFailure(all, presign);
      && (p == |all| ==> failure == None && presigned' == all && files' == UrlMap(all, presign))
      && (p < |all| ==> |presigned| <= p && failure == Some(presign(p, all[p]).error) && presigned' == all[..p + 1])
  {
    presigned', presigns', files', failure := presigned, presigns, files, None;
    var i := 0;
    while i < |objects|
      invariant 0 <= i <= |objects|
      invariant presigned' == presigned + objects[..i]
      invariant presigns' == PresignCalls(bucket, presigned')
      invariant FirstFailure(presigned', presign) == |presigned'|
      invariant files' == UrlMap(presigned', presign)
    {
      var url := presign(|presigned'|, objects[i]);
      PresignStep(presigned, objects, i, presigned', presign);
      PresignCallsSnoc(bucket, presigned', objects[i]);
      presigns' := presigns' + [PresignUrl(bucket, objects[i], PresignMinutes)];
      if url.Failure? {
        return presigned' + [objects[i]], presigns', files', Some(url.error);
      }
      presigned', files' := presigned' + [objects[i]], files'[objects[i] := url.value];
      i := i + 1;
    }
    assert objects[..i] == objects;
  }

  /** One key of the foreach: presigning it either extends the run of
      successes (and the map) or is the first failure of the whole series. */
  lemma PresignStep(presigned: seq<string>, objects: seq<string>, i: nat, done: seq<string>, presign: Presign)
    requires i < |objects| && done == presigned + objects[..i]
    requires FirstFailure(done, presign) == |done|
    ensures var next := done + [objects[i]];
      && next == presigned + objects[..i + 1]
      && (presign(|done|, objects[i]).Success? ==>
            && FirstFailure(next, presign) == |next|
            && UrlMap(next, presign) == UrlMap(done, presign)[objects[i] := presign(|done|, objects[i]).value])
      && (presign(|done|, objects[i]).Failure? ==>
            && FirstFailure(presigned + objects, presign) == |done|
            && next == (presigned + objects)[..|done| + 1])
  {
    var next := done + [objects[i]];
    assert objects[..i + 1] == objects[..i] + [objects[i]];
    FirstFailureExtend(done, objects[i], presign);
    UrlMapSnoc(done, objects[i], presign);
    if presign(|done|, objects[i]).Failure? {
      FailureInAll(presigned, objects, i, done, presign);
    }
  }

  /** Presigning one more key updates the map at that key, if it succeeds. */
  lemma UrlMapSnoc(keys: seq<string>, key: string, presign: Presign)
    ensures var url := presign(|keys|, key);
      UrlMap(keys + [key], presign) == if url.Success? then UrlMap(keys, presign)[key := url.value] else UrlMap(keys, presign)
  {
    assert (keys + [key])[..|keys|] == keys;
  }

  lemma FailureInAll(presigned: seq<string>, objects: seq<string>, i: nat, done: seq<string>, presign: Presign)
    requires i < |objects| && done == presigned + objects[..i] && objects[..i + 1] == objects[..i] + [objects[i]]
    requires FirstFailure(done + [objects[i]], presign) == |done|
    ensures FirstFailure(presigned + objects, presign) == |done|
    ensures done + [objects[i]] == (presigned + objects)[..|done| + 1]
  {
    var next := done + [objects[i]];
    assert next == (presigned + objects)[..|done| + 1];
    FirstFailurePrefix(next, presigned + objects, presign);
  }

  /** One more successful call keeps the series free of failures; a failing
      one is the first failure. */
  lemma FirstFailureExtend(xs: seq<string>, x: string, chat: Chat)
    requires FirstFailure(xs, chat) == |xs|
    ensures chat(|xs|, x).Success? ==> FirstFailure(xs + [x], chat) == |xs| + 1
    ensures chat(|xs|, x).Failure? ==> FirstFailure(xs + [x], chat) == |xs|
  {
    var ys := xs + [x];
    forall j | 0 <= j < |xs| ensures chat(j, ys[j]).Success? {
      assert ys[j] == xs[j];
    }
    assert ys[|xs|] == x;
  }

  /** Appending to a series that already fails keeps its first failure. */
  lemma FirstFailureAppend(xs: seq<string>, tail: seq<string>, chat: Chat)
    requires FirstFailure(xs, chat) < |xs|
    ensures FirstFailure(xs + tail, chat) == FirstFailure(xs, chat)
    ensures (xs + tail)[..FirstFailure(xs, chat) + 1] == xs[..FirstFailure(xs, chat) + 1]
    ensures (xs + tail)[FirstFailure(xs, chat)] == xs[FirstFailure(xs, chat)]
  {
    FirstFailurePrefix(xs, xs + tail, chat);
  }

  /** The first failure of a series is found in any prefix that contains it. */
  lemma FirstFailurePrefix(xs: seq<string>, ys: seq<string>, chat: Chat)
    requires xs <= ys && FirstFailure(xs, chat) < |xs|
    ensures FirstFailure(ys, chat) == FirstFailure(xs, chat)
    ensures ys[..FirstFailure(xs, chat) + 1] == xs[..FirstFailure(xs, chat) + 1]
    ensures ys[FirstFailure(xs, chat)] == xs[FirstFailure(xs, chat)]
  {
    var k := FirstFailure(xs, chat);
    forall j | 0 <= j <= k ensures ys[j] == xs[j] { }
    assert chat(k, ys[k]).Failure?;
  }

  /** With every presign succeeding, the result maps exactly the keys seen. */
  lemma {:induction false} UrlMapDomain(keys: seq<string>, presign: Presign)
    requires FirstFailure(keys, presign) == |keys|
    ensures UrlMap(keys, presign).Keys == set k | k in keys
  {
    if keys != [] {
      var n := |keys| - 1;
      FirstFailureOfPrefix(keys, n, presign);
      UrlMapDomain(keys[..n], presign);
      assert keys == keys[..n] + [keys[n]];
    }
  }

  /** A key listed more than once gets the URL of its last occurrence. */
  lemma {:induction false} UrlMapLastWins(keys: seq<string>, presign: Presign, j: nat)
    requires FirstFailure(keys, presign) == |keys|
    requires j < |keys| && forall k :: j < k < |keys| ==> keys[k] != keys[j]
    ensures keys[j] in UrlMap(keys, presign)
    ensures Success(UrlMap(keys, presign)[keys[j]]) == presign(j, keys[j])
  {
    var n := |keys| - 1;
    if j < n {
      FirstFailureOfPrefix(keys, n, presign);
      var front := keys[..n];
      forall k | j < k < |front| ensures front[k] != front[j] {
        assert front[k] == keys[k];
      }
      UrlMapLastWins(front, presign, j);
    }
  }

  lemma FirstFailureOfPrefix(xs: seq<string>, n: nat, chat: Chat)
    requires FirstFailure(xs, chat) == |xs| && n <= |xs|
    ensures FirstFailure(xs[..n], chat) == n
  {
    forall j | 0 <= j < n ensures chat(j, xs[..n][j]).Success? {
      assert xs[..n][j] == xs[j];
    }
  }

  // ---------------------------------------------------------------------
  // ListLoadHistory: the uploads of the last few days
  // ---------------------------------------------------------------------

  const TicksPerDay: int := 864_000_000_000
  /** DateTime.MaxValue.Ticks */
  const MaxTicks: int := 3_155_378_975_999_999_999

  /** A representable point in time, in 100-nanosecond ticks since 0001-01-01. */
  type Ticks = t: int | 0 <= t <= MaxTicks

  const InvalidInputMessage: string := "Invalid input!"
  const WrongConnectionMessage: string := "Connection string is wrong!"
  const UnrepresentableDateMessage: string :=
    "The added or subtracted value results in an un-representable DateTime. (Parameter 'value')"

  predicate InWindow(u: FileUpload, from: int, to: int) {
    from <= u.loadTime <= to
  }

  /** `a` is `b` with some elements left out, the rest in their order. */
  predicate Subsequence<T(==)>(a: seq<T>, b: seq<T>)
    decreases |b|
  {
    if a == [] then true
    else if b == [] then false
    else (a[0] == b[0] && Subsequence(a[1..], b[1..])) || Subsequence(a, b[1..])
  }

  /** The rows of `Find(f => f.LoadTime >= from && f.LoadTime <= to)`, in table order. */
  function Window(history: seq<FileUpload>, from: int, to: int): (w: seq<FileUpload>)
    ensures forall u :: u in w ==> u in history && InWindow(u, from, to)
    ensures forall u :: u in history && InWindow(u, from, to) ==> u in w
    ensures multiset(w) <= multiset(history)
    // a row in the window occurs as often as in the table, any other not at all
    ensures forall u :: multiset(w)[u] == if InWindow(u, from, to) then multiset(history)[u] else 0
    // and the rows keep their table order
    ensures Subsequence(w, history)
  {
    if history == [] then []
    else
      var rest := Window(history[1..], from, to);
      assert history == [history[0]] + history[1..];
      if InWindow(history[0], from, to) then [history[0]] + rest else rest
  }

  /** GetLoadHistory.  `now` is DateTimeOffset.UtcNow and `history` the
      committed upload table. */
  function GetLoadHistory(now: Ticks, db: Database, history: seq<FileUpload>, days: int := 1, filesLimit: int := 30)
    : (r: Result<ActionResult, Exception>)
    ensures days <= 0 || filesLimit <= 0 ==> r == Success(BadRequest(InvalidInputMessage))
    // now.AddDays(-days) before 0001-01-01 throws, before the database is asked
    ensures days > 0 && filesLimit > 0 && now < days * TicksPerDay ==>
      r == Failure(Exception(ArgumentOutOfRange, UnrepresentableDateMessage))
    ensures days > 0 && filesLimit > 0 && now >= days * TicksPerDay ==>
      var from := now - days * TicksPerDay;
      && (!db.reachable ==> r == Success(BadRequest(WrongConnectionMessage)))
      && (db.reachable && db.readError.Some? ==>
            r == Success(ActionResult(StatusInternalServerError, Text("EF error: " + db.readError.value.message))))
      && (db.reachable && db.readError.None? ==>
            && r.Success?
            // 200 exactly when some upload falls in the window, 404 otherwise
            && (r.value.status == StatusOk <==> exists u :: u in history && InWindow(u, from, now))
            && (r.value.status != StatusOk ==>
                  r.value == ActionResult(StatusNotFound, Text("No files loaded last " + NatToString(days))))
            && (r.value.status == StatusOk ==>
                  && r.value.body.Uploads?
                  && var records := r.value.body.records;
                  // at most filesLimit rows, each a row of the table inside the window
                  && 0 < |records| <= filesLimit
                  && (forall u :: u in records ==> u in history && InWindow(u, from, now))
                  // the first rows of the window, all of them when they fit
                  && records <= Window(history, from, now)
                  && (|records| == filesLimit || records == Window(history, from, now))))
  {
    if days <= 0 || filesLimit <= 0 then Success(BadRequest(InvalidInputMessage))
    else if now < days * TicksPerDay then Failure(Exception(ArgumentOutOfRange, UnrepresentableDateMessage))
    else if !db.reachable then Success(BadRequest(WrongConnectionMessage))
    else if db.readError.Some? then
      Success(ActionResult(StatusInternalServerError, Text("EF error: " + db.readError.value.message)))
    else
      var w := Window(history, now - days * TicksPerDay, now);
      var records := if |w| <= filesLimit then w else w[..filesLimit];
      assert forall u :: u in records ==> u in w;
      if |records| > 0 then
        assert w[0] in w;
        Success(Ok(Uploads(records)))
      else
        assert w == [];
        Success(ActionResult(StatusNotFound, Text("No files loaded last " + NatToString(days))))
  }

  /** A request that leaves out both query parameters (days = 1,
      filesLimit = 30) lists at most 30 uploads of the last day, and a
      404 names one day. */
  lemma DefaultLoadHistory(now: Ticks, db: Database, history: seq<FileUpload>)
    requires now >= TicksPerDay && db.reachable && db.readError.None?
    ensures var r := GetLoadHistory(now, db, history);
      && r.Success?
      && (r.value.status == StatusOk <==> exists u :: u in history && InWindow(u, now - TicksPerDay, now))
      && (r.value.status == StatusOk ==>
            && r.value.body.Uploads? && |r.value.body.records| <= 30
            && forall u :: u in r.value.body.records ==> now - TicksPerDay <= u.loadTime <= now)
      && (r.value.status != StatusOk ==> r.value == ActionResult(StatusNotFound, Text("No files loaded last 1")))
  {
    assert NatToString(1) == "1";
    assert "No files loaded last " + NatToString(1) == "No files loaded last 1";
  }

  // ---------------------------------------------------------------------
  // OpenAIChat: one prompt, one completion
  // ---------------------------------------------------------------------

  /** A chat endpoint's response and the prompts it handed the model. */
  datatype Exchange = Exchange(result: ActionResult, prompts: seq<string>)

  const NoPromptMessage: string := "No prompt entered!"

  /** CompleteChat.  `chat` answers with the completion's first text part
      or the exception the client (or the indexing) throws. */
  function CompleteChat(prompt: Option<string>, chat: Chat): (x: Exchange)
    ensures IsNullOrWhiteSpace(prompt) ==> x == Exchange(BadRequest(NoPromptMessage), [])
    ensures !IsNullOrWhiteSpace(prompt) ==>
      && x.prompts == [prompt.value]
      && (chat(0, prompt.value).Success? ==> x.result == Ok(Text(chat(0, prompt.value).value)))
      && (chat(0, prompt.value).Failure? ==>
            x.result == ActionResult(StatusTooManyRequests, Message(chat(0, prompt.value).error.message)))
    ensures x.result.status in {StatusOk, StatusBadRequest, StatusTooManyRequests}
    ensures x.result.status == StatusBadRequest <==> x.prompts == []
  {
    if IsNullOrWhiteSpace(prompt) then Exchange(BadRequest(NoPromptMessage), [])
    else
      var reply := chat(0, prompt.value);
      var result := if reply.Success? then Ok(Text(reply.value))
                    else ActionResult(StatusTooManyRequests, Message(reply.error.message));
      Exchange(result, [prompt.value])
  }

  // ---------------------------------------------------------------------
  // AwsFileUpload: the controller's own upload, without the duplicate check
  // ---------------------------------------------------------------------

  const EmptyFileMessage: string := "File is empty or not provided."

  /** FileUpload.  `file` is None when no file is bound; the other inputs
      are as for FileUploadService.UploadFile.  Every exception thrown in
      the try block becomes a 500 with its message. */
  method AwsFileUpload(file: Option<FormFile>, bucketName: Option<string>, guid: string, now: int,
                       storage: Storage, db: Database, uow: UnitOfWork)
    returns (r: ActionResult, calls: seq<Call>)
    modifies uow`fileUploadHistory
    ensures file.None? || file.value.length == 0 ==>
      r == BadRequest(EmptyFileMessage) && calls == [] && uow.fileUploadHistory == old(uow.fileUploadHistory)
    ensures file.Some? && file.value.length > 0 && IsNullOrWhiteSpace(bucketName) ==>
      r == BadRequest(EmptyBucketMessage) && calls == [] && uow.fileUploadHistory == old(uow.fileUploadHistory)
    ensures file.Some? && file.value.length > 0 && !IsNullOrWhiteSpace(bucketName) ==>
      var f := file.value;
      var bucket := bucketName.value;
      var key := guid + GetExtension(f.fileName);
      var stored := [PutObject(bucket, key, f.contentType)];
      var signed := stored + [PresignUrl(bucket, key, PresignMinutes), ProbeDatabase];
      && (storage.putError.Some? ==>
            r == StorageErrorResult(storage.putError.value) && calls == stored
            && uow.fileUploadHistory == old(uow.fileUploadHistory))
      && (storage.putError.None? && storage.presigned.Failure? ==>
            r == StorageErrorResult(storage.presigned.error) && calls == stored + [PresignUrl(bucket, key, PresignMinutes)]
            && uow.fileUploadHistory == old(uow.fileUploadHistory))
      && (storage.putError.None? && storage.presigned.Success? && !db.reachable ==>
            r == Ok(FileUrl(storage.presigned.value)) && calls == signed
            && uow.fileUploadHistory == old(uow.fileUploadHistory))
      && (storage.putError.None? && storage.presigned.Success? && db.reachable && db.saveError.Some? ==>
            r == StorageErrorResult(db.saveError.value) && calls == signed + [SaveChanges]
            && uow.fileUploadHistory == old(uow.fileUploadHistory))
      // no duplicate check: the row is appended whatever the history holds
      && (storage.putError.None? && storage.presigned.Success? && db.reachable && db.saveError.None? ==>
            r == Ok(FileUrl(storage.presigned.value)) && calls == signed + [SaveChanges]
            && uow.fileUploadHistory == old(uow.fileUploadHistory)
                 + [UploadRecord(f, key, storage.presigned.value, now)])
    ensures r.status in {StatusOk, StatusBadRequest, StatusInternalServerError}
  {
    if file.None? || file.value.length == 0 {
      return BadRequest(EmptyFileMessage), [];
    }
    if IsNullOrWhiteSpace(bucketName) {
      return BadRequest(EmptyBucketMessage), [];
    }
    var f := file.value;
    var bucket := bucketName.value;
    var key := guid + GetExtension(f.fileName);
    calls := [PutObject(bucket, key, f.contentType)];
    if storage.putError.Some? {
      return StorageErrorResult(storage.putError.value), calls;
    }
    calls := calls + [PresignUrl(bucket, key, PresignMinutes)];
    if storage.presigned.Failure? {
      return StorageErrorResult(storage.presigned.error), calls;
    }
    var url := storage.presigned.value;
    calls := calls + [ProbeDatabase];
    if db.reachable {
      calls := calls + [SaveChanges];
      if db.saveError.Some? {
        return StorageErrorResult(db.saveError.value), calls;
      }
      uow.fileUploadHistory := uow.fileUploadHistory + [UploadRecord(f, key, url, now)];
    }
    r := Ok(FileUrl(url));
  }

  /** The upload's two catch blocks. */
  function StorageErrorResult(e: Exception): ActionResult {
    if e.AmazonS3Exception? then ActionResult(StatusInternalServerError, Text("S3 error: " + e.message))
    else ActionResult(StatusInternalServerError, Text("Internal server error: " + e.message))
  }

  // ---------------------------------------------------------------------
  // OpenAISummary: the older dispatcher, with status codes and no PDF branch
  // ---------------------------------------------------------------------

  const NoUrlMessage: string := "No request url entered!"

  /** SummarizeFile.  `fileUrl` is None when the request or its fileUrl is
      null; `header` and `analysis` are as for FileAnalysisService.AnalyzeFile.
      The checks before the analyser return 400s; an exception from the
      header fetch itself, or a missing Content-Type header, is not caught. */
  method SummarizeFile(fileUrl: Option<string>, tryCreate: AbsoluteUriParser, header: HeaderResponse,
                       analysis: Result<string, Exception>, db: Database, uow: UnitOfWork)
    returns (r: Result<ActionResult, Exception>, calls: seq<Call>)
    modifies uow`fileAnalysisResults
    ensures IsNullOrWhiteSpace(fileUrl) ==>
      r == Success(BadRequest(NoUrlMessage)) && calls == []
    ensures !IsNullOrWhiteSpace(fileUrl) && !IsFileUrlValid(fileUrl, tryCreate) ==>
      r == Success(BadRequest("Invalid/unsupported url entered!")) && calls == []
    ensures IsFileUrlValid(fileUrl, tryCreate) ==> |calls| >= 1 && calls[0] == FetchHeader(fileUrl.value)
    ensures IsFileUrlValid(fileUrl, tryCreate) && header.TransportError? ==> r == Failure(header.error) && |calls| == 1
    ensures IsFileUrlValid(fileUrl, tryCreate) && (header.NullResponse? || (header.Response? && !header.isSuccessStatusCode)) ==>
      r == Success(BadRequest(UnableToFetchHeader)) && |calls| == 1
    ensures IsFileUrlValid(fileUrl, tryCreate) && header.Response? && header.isSuccessStatusCode ==>
      && (header.contentType.None? ==> r == Failure(Exception(NullReference, NullReferenceMessage)) && |calls| == 1)
      && (header.contentType.Some? && IsNullOrEmpty(header.contentType.value.mediaType) ==>
            r == Success(BadRequest(ContentTypeMissing)) && |calls| == 1)
    // only images and plain text are analysed; PDF is refused like any other type
    ensures IsFileUrlValid(fileUrl, tryCreate) && ContentTypeOf(header).Success? ==>
      var kind := Classify(Some(ContentTypeOf(header).value));
      var url := fileUrl.value;
      var errorStatus := if kind == Image then StatusInternalServerError else StatusTooManyRequests;
      var prefix := [FetchHeader(url), if kind == Image then AnalyzeImage(url) else SummarizeText(url)];
      && (kind !in {Image, PlainText} ==> r == Success(BadRequest("Unsupported link content")) && |calls| == 1)
      && (kind in {Image, PlainText} ==>
            && (analysis.Failure? ==>
                  r == Success(ActionResult(errorStatus, Message(analysis.error.message))) && calls == prefix)
            && (analysis.Success? && !db.reachable ==>
                  r == Success(Ok(Text(analysis.value))) && calls == prefix + [ProbeDatabase])
            && (analysis.Success? && db.reachable && db.saveError.Some? ==>
                  r == Success(ActionResult(errorStatus, Message(db.saveError.value.message)))
                  && calls == prefix + [ProbeDatabase, SaveChanges])
            && (analysis.Success? && db.reachable && db.saveError.None? ==>
                  r == Success(Ok(Text(analysis.value))) && calls == prefix + [ProbeDatabase, SaveChanges]))
    // a row is recorded exactly when an analysis is saved, and it is that analysis
    ensures uow.fileAnalysisResults != old(uow.fileAnalysisResults) <==>
      r.Success? && r.value.status == StatusOk && db.reachable && db.saveError.None? && |calls| > 1
    ensures uow.fileAnalysisResults == old(uow.fileAnalysisResults) ||
      (analysis.Success? &&
       uow.fileAnalysisResults == old(uow.fileAnalysisResults) + [FileAnalysisResult(fileUrl.value, analysis.value)])
  {
    if IsNullOrWhiteSpace(fileUrl) {
      return Success(BadRequest(NoUrlMessage)), [];
    }
    if !IsFileUrlValid(fileUrl, tryCreate) {
      return Success(BadRequest("Invalid/unsupported url entered!")), [];
    }
    var url := fileUrl.value;
    calls := [FetchHeader(url)];
    if header.TransportError? {
      return Failure(header.error), calls;
    }
    if header.NullResponse? || !header.isSuccessStatusCode {
      return Success(BadRequest(UnableToFetchHeader)), calls;
    }
    if header.contentType.None? {
      return Failure(Exception(NullReference, NullReferenceMessage)), calls;
    }
    var mediaType := header.contentType.value.mediaType;
    if IsNullOrEmpty(mediaType) {
      return Success(BadRequest(ContentTypeMissing)), calls;
    }
    var kind := Classify(mediaType);
    if kind != Image && kind != PlainText {
      return Success(BadRequest("Unsupported link content")), calls;
    }
    var errorStatus := if kind == Image then StatusInternalServerError else StatusTooManyRequests;
    calls := calls + [if kind == Image then AnalyzeImage(url) else SummarizeText(url)];
    if analysis.Failure? {
      return Success(ActionResult(errorStatus, Message(analysis.error.message))), calls;
    }
    calls := calls + [ProbeDatabase];
    if db.reachable {
      calls := calls + [SaveChanges];
      if db.saveError.Some? {
        return Success(ActionResult(errorStatus, Message(db.saveError.value.message))), calls;
      }
      uow.fileAnalysisResults := uow.fileAnalysisResults + [FileAnalysisResult(url, analysis.value)];
    }
    r := Success(Ok(Text(analysis.value)));
  }
}

