/**
  The global-event-index crawler (go-collector/gdelt_crawler.go): the
  language filter and the final query, the request parameters, the checks on
  the response (HTTP status, then decode; the body carries no status) and the
  exploration report built from three frequency tables counted in one pass.
 */
module Gdelt {
  import opened Text
  import opened Wrappers
  import opened Fetch
  import opened Aggregate

  datatype Article = Article(
    url: Bytes,
    urlMobile: Bytes,
    title: Bytes,
    seenDate: Bytes,
    socialImage: Bytes,
    domain: Bytes,
    language: Bytes,
    sourceCountry: Bytes)

  datatype Response = Response(articles: seq<Article>)

  const SourceLangPrefix: Bytes := Ascii("sourceLang:")
  const OrSeparator: Bytes := Ascii(" OR ")
  const AndOpen: Bytes := Ascii(") AND (")
  const OpenParen: byte := 40   // '('
  const CloseParen: byte := 41  // ')'

  // ---------------------------------------------------------------------------
  // Query

  /** `"sourceLang:" + lang` for every language, in order. */
  function LangFilterList(idiomas: seq<Bytes>): (filters: seq<Bytes>)
    ensures |filters| == |idiomas|
    ensures forall i :: 0 <= i < |idiomas| ==> filters[i] == SourceLangPrefix + idiomas[i]
  {
    if idiomas == [] then []
    else [SourceLangPrefix + idiomas[0]] + LangFilterList(idiomas[1..])
  }

  /** `make([]string, len(idiomas))` filled index by index. */
  method LangFilters(idiomas: seq<Bytes>) returns (filters: seq<Bytes>)
    ensures |filters| == |idiomas|
    ensures forall i :: 0 <= i < |idiomas| ==> filters[i] == SourceLangPrefix + idiomas[i]
  {
    var a := new Bytes[|idiomas|];
    var i := 0;
    while i < |idiomas|
      invariant 0 <= i <= |idiomas|
      invariant forall j :: 0 <= j < i ==> a[j] == SourceLangPrefix + idiomas[j]
    {
      a[i] := SourceLangPrefix + idiomas[i];
      i := i + 1;
    }
    filters := a[..];
  }

  /** `fmt.Sprintf("(%s) AND (%s)", queryRaw, strings.Join(langFilters, " OR "))`. */
  function FinalQuery(queryRaw: Bytes, idiomas: seq<Bytes>): Bytes
  {
    [OpenParen] + queryRaw + AndOpen + Join(LangFilterList(idiomas), OrSeparator) + [CloseParen]
  }

  /** The query construction of `BuscarArticulosMultiLang`. */
  method BuildQuery(queryRaw: Bytes, idiomas: seq<Bytes>) returns (finalQuery: Bytes)
    ensures finalQuery == FinalQuery(queryRaw, idiomas)
  {
    var langFilters := LangFilters(idiomas);
    assert langFilters == LangFilterList(idiomas);
    var langSegment := Join(langFilters, OrSeparator);
    finalQuery := [OpenParen] + queryRaw + AndOpen + langSegment + [CloseParen];
  }

  /**
    The query is the parenthesised raw query, " AND (", the language segment
    and ")": the raw query can be read back from it.
   */
  lemma FinalQueryShape(queryRaw: Bytes, idiomas: seq<Bytes>)
    ensures FinalQuery(queryRaw, idiomas)[0] == OpenParen
    ensures FinalQuery(queryRaw, idiomas)[1..1 + |queryRaw|] == queryRaw
    ensures FinalQuery(queryRaw, idiomas)[1 + |queryRaw|..1 + |queryRaw| + 7] == AndOpen
    ensures FinalQuery(queryRaw, idiomas)[|FinalQuery(queryRaw, idiomas)| - 1] == CloseParen
  {
    var q := FinalQuery(queryRaw, idiomas);
    var tail := AndOpen + Join(LangFilterList(idiomas), OrSeparator) + [CloseParen];
    assert q == [OpenParen] + queryRaw + tail;
    assert q[1..1 + |queryRaw|] == queryRaw;
    assert q[1 + |queryRaw|..1 + |queryRaw| + 7] == tail[..7] == AndOpen;
    assert q[|q| - 1] == tail[|tail| - 1];
  }

  /** With no languages the filter is empty: the query ends in "()". */
  lemma FinalQueryNoLanguages(queryRaw: Bytes)
    ensures FinalQuery(queryRaw, []) == [OpenParen] + queryRaw + AndOpen + [CloseParen]
    ensures FinalQuery(queryRaw, [])[|FinalQuery(queryRaw, [])| - 2..] == [OpenParen, CloseParen]
  {
    assert AndOpen[6] == OpenParen;
  }

  /** A single language contributes its filter and no " OR ". */
  lemma FinalQueryOneLanguage(queryRaw: Bytes, lang: Bytes)
    ensures FinalQuery(queryRaw, [lang]) == [OpenParen] + queryRaw + AndOpen + SourceLangPrefix + lang + [CloseParen]
  {
  }

  /** The crawler's own call, with Spanish and English. */
  lemma FinalQuerySpanishEnglish(queryRaw: Bytes)
    ensures FinalQuery(queryRaw, [Ascii("spanish"), Ascii("english")])
      == [OpenParen] + queryRaw + AndOpen
         + Ascii("sourceLang:spanish") + OrSeparator + Ascii("sourceLang:english") + [CloseParen]
  {
    var filters := LangFilterList([Ascii("spanish"), Ascii("english")]);
    assert filters == [SourceLangPrefix + Ascii("spanish"), SourceLangPrefix + Ascii("english")];
    assert SourceLangPrefix + Ascii("spanish") == Ascii("sourceLang:spanish");
    assert SourceLangPrefix + Ascii("english") == Ascii("sourceLang:english");
  }

  lemma {:induction false} LangFilterListLength(idiomas: seq<Bytes>)
    ensures TotalLength(LangFilterList(idiomas)) == TotalLength(idiomas) + |SourceLangPrefix| * |idiomas|
  {
    if idiomas != [] {
      LangFilterListLength(idiomas[1..]);
      assert LangFilterList(idiomas)[1..] == LangFilterList(idiomas[1..]);
    }
  }

  /**
    The length of the query for k >= 1 languages: the raw query, the nine
    bytes of "(", ") AND (" and ")", k prefixes, the languages and k - 1
    separators.
   */
  lemma FinalQueryLength(queryRaw: Bytes, idiomas: seq<Bytes>)
    requires |idiomas| > 0
    ensures |FinalQuery(queryRaw, idiomas)|
      == |queryRaw| + 9 + TotalLength(idiomas) + 11 * |idiomas| + 4 * (|idiomas| - 1)
  {
    LangFilterListLength(idiomas);
    JoinLength(LangFilterList(idiomas), OrSeparator);
  }

  /** The request parameters, in the order `params.Add` records them. */
  function SearchParams(queryRaw: Bytes, idiomas: seq<Bytes>, start: Bytes, end: Bytes, maxRecords: int): seq<Param>
  {
    [ Param(Ascii("query"), FinalQuery(queryRaw, idiomas)),
      Param(Ascii("mode"), Ascii("artlist")),
      Param(Ascii("maxrecords"), Decimal(maxRecords)),
      Param(Ascii("format"), Ascii("json")),
      Param(Ascii("startdatetime"), start),
      Param(Ascii("enddatetime"), end) ]
  }

  /** The `query` parameter carries the final query. */
  lemma SearchParamsCarryQuery(queryRaw: Bytes, idiomas: seq<Bytes>, start: Bytes, end: Bytes, maxRecords: int)
    ensures ParamValue(SearchParams(queryRaw, idiomas, start, end, maxRecords), Ascii("query"))
      == Some(FinalQuery(queryRaw, idiomas))
  {
  }

  // ---------------------------------------------------------------------------
  // Response checks

  /**
    The checks of `BuscarArticulosMultiLang`, in source order: the request,
    the read, the HTTP status (before any decoding), then the decode. The body
    carries no status of its own, so nothing else is checked.
   */
  function CheckResponse(ex: Exchange, decoded: Decoded<Response>): (r: Result<Response>)
    ensures r.Success? <==> ex.Received? && ex.status == StatusOK && decoded.Parsed?
    ensures r.Success? ==> r.value == decoded.value
    ensures ex.Received? && ex.status != StatusOK ==> r == Failure(HttpStatus(ex.status, ex.body))
    ensures ex.Received? && ex.status == StatusOK && decoded.Malformed? ==> r == Failure(BadJson(Preview(ex.body)))
    ensures ex.RequestFailed? ==> r == Failure(BadRequest)
    ensures ex.TransportFailed? ==> r == Failure(Transport)
    ensures ex.ReadFailed? ==> r == Failure(Read)
  {
    match ex
    case RequestFailed => Failure(BadRequest)
    case TransportFailed => Failure(Transport)
    case ReadFailed => Failure(Read)
    case Received(status, body) =>
      if status != StatusOK then Failure(HttpStatus(status, body))
      else match decoded
        case Malformed => Failure(BadJson(Preview(body)))
        case Parsed(resp) => Success(resp)
  }

  /** A non-200 answer is rejected whatever decoding would have produced. */
  lemma HttpErrorPrecedesDecoding(status: int, body: Bytes, d1: Decoded<Response>, d2: Decoded<Response>)
    requires status != StatusOK
    ensures CheckResponse(Received(status, body), d1) == CheckResponse(Received(status, body), d2)
  {
  }

  // ---------------------------------------------------------------------------
  // Exploration report

  const TopDomainCount := 10
  const SampleCount := 5

  function Domain(a: Article): Bytes
  {
    a.domain
  }

  function Language(a: Article): Bytes
  {
    a.language
  }

  function SourceCountry(a: Article): Bytes
  {
    a.sourceCountry
  }

  /** The counting loop of `ExplorarDatos`: three tables filled in one pass. */
  method CountFields(articles: seq<Article>) returns (dominios: map<Bytes, int>, idiomas: map<Bytes, int>, paises: map<Bytes, int>)
    ensures dominios == TallyBy(articles, Domain)
    ensures idiomas == TallyBy(articles, Language)
    ensures paises == TallyBy(articles, SourceCountry)
  {
    dominios, idiomas, paises := map[], map[], map[];
    var i := 0;
    while i < |articles|
      invariant 0 <= i <= |articles|
      invariant dominios == TallyBy(articles[..i], Domain)
      invariant idiomas == TallyBy(articles[..i], Language)
      invariant paises == TallyBy(articles[..i], SourceCountry)
    {
      assert articles[..i + 1][..i] == articles[..i];
      var art := articles[i];
      dominios := Increment(dominios, art.domain);
      idiomas := Increment(idiomas, art.language);
      paises := Increment(paises, art.sourceCountry);
      i := i + 1;
    }
    assert articles[..i] == articles;
  }

  /** Each of the three tables counts every article exactly once. */
  lemma FieldCountsSum(articles: seq<Article>)
    ensures MapSum(TallyBy(articles, Domain)) == |articles|
    ensures MapSum(TallyBy(articles, Language)) == |articles|
    ensures MapSum(TallyBy(articles, SourceCountry)) == |articles|
  {
    TallySum(articles, Domain);
    TallySum(articles, Language);
    TallySum(articles, SourceCountry);
  }

  /** What `ExplorarDatos` prints, without the layout (languages are printed in map order). */
  datatype Report =
    | NoArticles
    | Summary(total: nat, topDomains: seq<KeyValue>, languages: map<Bytes, int>, samples: seq<Article>)

  /**
    `ExplorarDatos`: with no articles only a notice; otherwise the total, the
    ten most frequent domains, the count of every language and the first five
    articles. The country table is counted but never shown.
   */
  method Explore(resp: Response) returns (report: Report)
    ensures report.NoArticles? <==> |resp.articles| == 0
    ensures report.Summary? ==>
      && report.total == |resp.articles|
      && IsTopN(TallyBy(resp.articles, Domain), TopDomainCount, report.topDomains)
      && report.languages == TallyBy(resp.articles, Language)
      && report.samples == resp.articles[..Min(SampleCount, |resp.articles|)]
  {
    if |resp.articles| == 0 {
      return NoArticles;
    }
    var dominios, idiomas, paises := CountFields(resp.articles);
    var top := TopN(dominios, TopDomainCount);
    var samples := Sample(resp.articles, SampleCount);
    report := Summary(|resp.articles|, top, idiomas, samples);
  }
}
