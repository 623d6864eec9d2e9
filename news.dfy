/**
  The news-aggregator crawler (go-collector/news_crawler.go): the fixed
  query, the request parameters, the checks on the response (decode first,
  then the embedded status; the HTTP status is never looked at) and the
  exploration report with its top ten sources.
 */
module NewsApi {
  import opened Text
  import opened Wrappers
  import opened Fetch
  import opened Aggregate

  datatype Article = Article(
    sourceName: Bytes,
    author: Bytes,
    title: Bytes,
    url: Bytes,
    publishedAt: Bytes,
    content: Bytes)

  datatype Response = Response(status: Bytes, totalResults: int, articles: seq<Article>)

  /** The query `BuscarArticulos` always sends. */
  const FixedQuery: Bytes := Ascii("\"Universidad de Antioquia\" OR UdeA")

  // ---------------------------------------------------------------------------
  // Query

  /** The query sent for `queryRaw`: the argument is ignored. */
  function SearchQuery(queryRaw: Bytes): Bytes
  {
    FixedQuery
  }

  /** The request parameters, in the order `params.Add` records them. */
  function SearchParams(queryRaw: Bytes, languagesCsv: Bytes, from: Bytes, to: Bytes, pageSize: int): seq<Param>
  {
    [ Param([113], SearchQuery(queryRaw)),  // "q"
      Param(Ascii("language"), languagesCsv),
      Param(Ascii("sortBy"), Ascii("publishedAt")),
      Param(Ascii("pageSize"), Decimal(pageSize)),
      Param(Ascii("from"), from),
      Param(Ascii("to"), to) ]
  }

  /** Whatever `queryRaw` is, the `q` parameter is the same constant. */
  lemma QueryIgnoresArgument(queryRaw: Bytes, languagesCsv: Bytes, from: Bytes, to: Bytes, pageSize: int)
    ensures ParamValue(SearchParams(queryRaw, languagesCsv, from, to, pageSize), [113]) == Some(FixedQuery)
  {
  }

  // ---------------------------------------------------------------------------
  // Response checks

  /**
    The checks of `BuscarArticulos`, in source order: the request, the read,
    the decode, then the status inside the decoded body, whose error also
    shows the whole body. The HTTP status code is not checked at all.
   */
  function CheckResponse(ex: Exchange, decoded: Decoded<Response>): (r: Result<Response>)
    ensures r.Success? <==> ex.Received? && decoded.Parsed? && decoded.value.status == Ok
    ensures r.Success? ==> r.value == decoded.value
    ensures ex.Received? && decoded.Malformed? ==> r == Failure(BadJson(Preview(ex.body)))
    ensures ex.Received? && decoded.Parsed? && decoded.value.status != Ok ==>
      r == Failure(ApiStatus(decoded.value.status, Some(ex.body)))
    ensures ex.RequestFailed? ==> r == Failure(BadRequest)
    ensures ex.TransportFailed? ==> r == Failure(Transport)
    ensures ex.ReadFailed? ==> r == Failure(Read)
  {
    match ex
    case RequestFailed => Failure(BadRequest)
    case TransportFailed => Failure(Transport)
    case ReadFailed => Failure(Read)
    case Received(_, body) =>
      match decoded
      case Malformed => Failure(BadJson(Preview(body)))
      case Parsed(resp) =>
        if resp.status != Ok then Failure(ApiStatus(resp.status, Some(body)))
        else Success(resp)
  }

  /** The HTTP status code has no influence on the outcome. */
  lemma HttpStatusIgnored(s1: int, s2: int, body: Bytes, decoded: Decoded<Response>)
    ensures CheckResponse(Received(s1, body), decoded) == CheckResponse(Received(s2, body), decoded)
  {
  }

  // ---------------------------------------------------------------------------
  // Exploration report

  const TopSourceCount := 10
  const SampleCount := 5

  function SourceName(a: Article): Bytes
  {
    a.sourceName
  }

  /** What `ExplorarDatosNewsAPI` prints, without the layout. */
  datatype Report =
    | NoArticles
    | Summary(totalResults: int, retrieved: nat, topSources: seq<KeyValue>, samples: seq<Article>)

  /**
    `ExplorarDatosNewsAPI`: with no articles only a notice; otherwise the
    totals, the ten most frequent sources and the first five articles.
   */
  method Explore(resp: Response) returns (report: Report)
    ensures report.NoArticles? <==> |resp.articles| == 0
    ensures report.Summary? ==>
      && report.totalResults == resp.totalResults
      && report.retrieved == |resp.articles|
      && IsTopN(TallyBy(resp.articles, SourceName), TopSourceCount, report.topSources)
      && report.samples == resp.articles[..Min(SampleCount, |resp.articles|)]
    ensures report.Summary? ==> |report.topSources| <= 10 && |report.samples| <= 5
  {
    if |resp.articles| == 0 {
      return NoArticles;
    }
    var sources := CountBy(resp.articles, SourceName);
    var top := TopN(sources, TopSourceCount);
    var samples := Sample(resp.articles, SampleCount);
    report := Summary(resp.totalResults, |resp.articles|, top, samples);
  }
}
