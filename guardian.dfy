/**
  The newspaper-search crawler (go-collector/guardian_crawler.go): the query
  rewrite, the parameters of the request, the checks on the response and the
  exploration report with its top five sections.
 */
module Guardian {
  import opened Text
  import opened Wrappers
  import opened Fetch
  import opened Aggregate

  datatype Article = Article(
    id: Bytes,
    kind: Bytes,
    sectionName: Bytes,
    webTitle: Bytes,
    webUrl: Bytes,
    webPublicationDate: Bytes)

  /** The decoded `response` object. */
  datatype Response = Response(
    status: Bytes,
    total: int,
    pageSize: int,
    currentPage: int,
    pages: int,
    results: seq<Article>)

  const OrWord: Bytes := [79, 82]  // "OR"
  const Pipe: byte := 124          // '|'
  const Quote: byte := 34          // '"'

  // ---------------------------------------------------------------------------
  // Query

  /** `ReplaceAll(queryRaw, "OR", "|")`, then every '"' deleted. */
  function SearchQuery(queryRaw: Bytes): Bytes
  {
    ReplaceAll(ReplaceAll(queryRaw, OrWord, [Pipe]), [Quote], [])
  }

  /**
    The rewritten query holds no '"', and it is exactly the text with "OR"
    replaced by '|' with its quotes then deleted.
   */
  lemma SearchQueryHasNoQuotes(queryRaw: Bytes)
    ensures Quote !in SearchQuery(queryRaw)
    ensures SearchQuery(queryRaw) == Without(ReplaceAll(queryRaw, OrWord, [Pipe]), Quote)
  {
    ReplaceByteByNothing(ReplaceAll(queryRaw, OrWord, [Pipe]), Quote);
  }

  /**
    Every case-sensitive "OR", inside words too, became '|': for a query
    without '|' or '"', turning each '|' back into "OR" recovers it.
   */
  lemma SearchQueryRestoresOr(queryRaw: Bytes)
    requires Pipe !in queryRaw && Quote !in queryRaw
    ensures ReplaceAll(SearchQuery(queryRaw), [Pipe], OrWord) == queryRaw
  {
    var replaced := ReplaceAll(queryRaw, OrWord, [Pipe]);
    ReplaceAllBytes(queryRaw, OrWord, [Pipe], Quote);
    ReplaceByteByNothing(replaced, Quote);
    WithoutAbsent(replaced, Quote);
    ReplaceAllInverse(queryRaw, OrWord, [Pipe]);
  }

  /**
    The first rewrite leaves no "OR" at all: every case-sensitive occurrence,
    inside words too, became '|'.
   */
  lemma OrRewriteLeavesNoOr(queryRaw: Bytes)
    ensures forall i :: !MatchesAt(ReplaceAll(queryRaw, OrWord, [Pipe]), i, OrWord)
  {
    ReplaceAllLeavesNoPair(queryRaw, OrWord, Pipe);
  }

  /**
    Quotes are deleted after the "OR" rewrite, so deleting them can join a new
    "OR" that is sent as it is: `O"R` becomes `OR`.
   */
  lemma QuoteDeletionCanFormOr()
    ensures SearchQuery([79, 34, 82]) == OrWord
  {
    var s: Bytes := [79, 34, 82];
    assert s[..2][1] != OrWord[1];
    assert s[1..][..2][0] != OrWord[0];
    assert ReplaceAll(s, OrWord, [Pipe]) == s;
    ReplaceByteByNothing(s, Quote);
    assert Without(s, Quote) == [79] + Without([34, 82], Quote);
  }

  /** The request parameters, in the order `params.Add` records them. */
  function SearchParams(apiKey: Bytes, queryRaw: Bytes, fromDate: Bytes, toDate: Bytes, pageSize: int): seq<Param>
  {
    [ Param(Ascii("api-key"), apiKey),
      Param([113], SearchQuery(queryRaw)),  // "q"
      Param(Ascii("type"), Ascii("article")),
      Param(Ascii("page-size"), Decimal(pageSize)),
      Param(Ascii("from-date"), fromDate),
      Param(Ascii("to-date"), toDate) ]
  }

  /** The `q` parameter carries the rewritten query, and only articles are asked for. */
  lemma SearchParamsCarryQuery(apiKey: Bytes, queryRaw: Bytes, fromDate: Bytes, toDate: Bytes, pageSize: int)
    ensures ParamValue(SearchParams(apiKey, queryRaw, fromDate, toDate, pageSize), [113]) == Some(SearchQuery(queryRaw))
    ensures ParamValue(SearchParams(apiKey, queryRaw, fromDate, toDate, pageSize), Ascii("type")) == Some(Ascii("article"))
  {
    var ps := SearchParams(apiKey, queryRaw, fromDate, toDate, pageSize);
    assert ps[0].name != [113];
    assert ps[1..][1..][0].name == Ascii("type");
    assert ps[0].name != Ascii("type") && ps[1..][0].name != Ascii("type");
  }

  // ---------------------------------------------------------------------------
  // Response checks

  /**
    The checks of `BuscarArticulos`, in source order: the request, the read,
    the HTTP status (before any decoding), the decode, then the status inside
    the decoded body.
   */
  function CheckResponse(ex: Exchange, decoded: Decoded<Response>): (r: Result<Response>)
    ensures r.Success? <==> ex.Received? && ex.status == StatusOK && decoded.Parsed? && decoded.value.status == Ok
    ensures r.Success? ==> r.value == decoded.value
    ensures ex.Received? && ex.status != StatusOK ==> r == Failure(HttpStatus(ex.status, ex.body))
    ensures ex.Received? && ex.status == StatusOK && decoded.Malformed? ==> r == Failure(BadJson(Preview(ex.body)))
    ensures ex.Received? && ex.status == StatusOK && decoded.Parsed? && decoded.value.status != Ok ==>
      r == Failure(ApiStatus(decoded.value.status, None))
    ensures ex.RequestFailed? || ex.TransportFailed? ==> r == Failure(Transport)
    ensures ex.ReadFailed? ==> r == Failure(Read)
  {
    match ex
    case RequestFailed => Failure(Transport)
    case TransportFailed => Failure(Transport)
    case ReadFailed => Failure(Read)
    case Received(status, body) =>
      if status != StatusOK then Failure(HttpStatus(status, body))
      else match decoded
        case Malformed => Failure(BadJson(Preview(body)))
        case Parsed(resp) =>
          if resp.status != Ok then Failure(ApiStatus(resp.status, None))
          else Success(resp)
  }

  /** A non-200 answer is rejected whatever decoding would have produced. */
  lemma HttpErrorPrecedesDecoding(status: int, body: Bytes, d1: Decoded<Response>, d2: Decoded<Response>)
    requires status != StatusOK
    ensures CheckResponse(Received(status, body), d1) == CheckResponse(Received(status, body), d2)
  {
  }

  // ---------------------------------------------------------------------------
  // Exploration report

  const TopSectionCount := 5
  const SampleCount := 5

  function SectionName(a: Article): Bytes
  {
    a.sectionName
  }

  /** What `ExplorarDatosGuardian` prints, without the layout. */
  datatype Report =
    | NoResults(total: int)
    | Summary(total: int, retrieved: nat, topSections: seq<KeyValue>, samples: seq<Article>)

  /**
    `ExplorarDatosGuardian`: with no results only the reported total; otherwise
    the totals, the five most frequent sections and the first five articles.
   */
  method Explore(resp: Response) returns (report: Report)
    ensures report.total == resp.total
    ensures report.NoResults? <==> |resp.results| == 0
    ensures report.Summary? ==>
      && report.retrieved == |resp.results|
      && IsTopN(TallyBy(resp.results, SectionName), TopSectionCount, report.topSections)
      && report.samples == resp.results[..Min(SampleCount, |resp.results|)]
  {
    if |resp.results| == 0 {
      return NoResults(resp.total);
    }
    var sections := CountBy(resp.results, SectionName);
    var top := TopN(sections, TopSectionCount);
    var samples := Sample(resp.results, SampleCount);
    report := Summary(resp.total, |resp.results|, top, samples);
  }
}
