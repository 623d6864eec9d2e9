# Web-Crawler collectors: a Dafny model of the counting and checking logic

The Go collectors each query one content API (a newspaper search, a news
aggregator, a global news-event index) or read RSS feeds. They check the
answer, count a categorical field of the returned articles, and print the
most frequent values and a few sample records. This project models the parts
of that code that are logic rather than I/O:

- the frequency-rank aggregator that every crawler repeats: the counting loop
  (`m[field]++` once per record) and `getTopN` (list the map, sort by
  descending count, clamp `n`, return a prefix);
- the query strings: the newspaper crawler's `OR` to `|` rewrite with quotes
  deleted, the event index's `sourceLang:` filter joined with `" OR "`, and
  the news crawler's fixed query;
- the checks each `BuscarArticulos` applies to an answer (HTTP status,
  decoding, status embedded in the body), each in its own file's order;
- the `truncate` helper and the 500-byte body preview;
- the RSS reader's loop over feeds and its first-three-items clamp.

Go strings are byte strings (`len` and slicing count bytes), so every string
is a `seq<byte>` (`Text.Bytes`).

Files and modules:

- `text.dfy` (`Text`): bytes, `strings.ReplaceAll`, `strings.Join`, `%d`
  formatting, `truncate`.
- `wrappers.dfy` (`Wrappers`): `Option`, for nil pointers.
- `aggregate.dfy` (`Aggregate`): the frequency tables, `getTopN` (with an
  in-place sort on an array) and the sample loop.
- `fetch.dfy` (`Fetch`): the exchange, the decode outcome, the errors and the
  preview.
- `guardian.dfy`, `news.dfy`, `gdelt.dfy` (`Guardian`, `NewsApi`, `Gdelt`):
  one module per crawler file.
- `rss_reader.dfy` (`RssReader`): go-collector/main.go.
- `check_order.dfy` (`CheckOrder`): the three check orders compared.

I/O is abstract. The HTTP exchange is an input (`Fetch.Exchange`: the request
could not be built, the transport failed, the read failed, or a status and a
body were received). So is the outcome of `json.Unmarshal`
(`Fetch.Decoded`: malformed, or the decoded value). The feed parser is a
function parameter, and what the programs print is returned as a report
value or an event log.

`getTopN`'s ties have no defined order. Go's map iteration order is random
and `sort.Slice` is not stable. The model enumerates the map with a
nondeterministic choice and sorts with an insertion sort. Its contract
(`Aggregate.IsTopN`) fixes no tie order. It states only the length, the
non-increasing order, that entries are distinct `(k, m[k])` pairs of the map,
and that no key left out counts more than a listed one.

Two facts about the code that are easy to misread:

- The newspaper and event-index crawlers accept HTTP status 200 only, not any
  2xx status. The news crawler never reads the status code.
- Records with an empty field value are counted under the empty key, so the
  counts sum to the number of records (`Aggregate.TallySum`).

## Model

| member | source | states |
|---|---|---|
| Aggregate.Increment | go-collector/guardian_crawler.go:142 | `m[k]++` reads a missing key as 0: afterwards k counts one more and every other key is unchanged |
| Aggregate.CountBy | go-collector/guardian_crawler.go:139-143 | the counting loop leaves exactly the frequency table of the records' field values, built in record order |
| Aggregate.TallyCounts | go-collector/guardian_crawler.go:139-143 | a table entry equals the number of records with that field value, the empty value included; a value is a key iff it occurs |
| Aggregate.TallyPositive | go-collector/news_crawler.go:140-144 | every count in a table is at least 1 |
| Aggregate.TallySum | go-collector/news_crawler.go:140-144 | the counts of a table, summed over its keys in any order, equal the number of records |
| Aggregate.ListEntries | go-collector/guardian_crawler.go:167-170 | the range loop over the map lists every key exactly once, with its count, in an unspecified order |
| Aggregate.SortByValueDesc | go-collector/guardian_crawler.go:172-174 | the in-place sort leaves the entries in non-increasing count order and is a permutation of them |
| Aggregate.InsertLast | go-collector/guardian_crawler.go:172-174 | one step of the sort: with the first i entries in order, moving entry i left by swaps leaves the first i + 1 in order and permutes the array |
| Aggregate.SortedEnumeration | go-collector/news_crawler.go:173-175 | sorting a listing of the map keeps it a listing of every key once |
| Aggregate.SortedPrefixIsTopN | go-collector/guardian_crawler.go:176-179 | any prefix of the sorted listing is a valid top-N answer for its length |
| Aggregate.TopN | go-collector/guardian_crawler.go:166-180 | `getTopN` (n >= 0) returns min(n, distinct keys) distinct `(k, m[k])` entries in non-increasing order, and no omitted key counts more than a returned one; n = 0 or an empty map gives the empty list |
| Aggregate.SixRecordsTally | go-collector/gdelt_crawler.go:131-135 | counting records A, B, A, C, A, B gives A: 3, B: 2, C: 1 |
| Aggregate.TopTwoOfTable | go-collector/gdelt_crawler.go:163-177 | for the table A: 3, B: 2, C: 1 the only valid top-2 answer is [(A, 3), (B, 2)], whatever the map and sort order |
| Aggregate.TopTwoOfSixRecords | go-collector/gdelt_crawler.go:163-177 | the top two of records A, B, A, C, A, B are (A, 3) then (B, 2) |
| Aggregate.Sample | go-collector/guardian_crawler.go:154-157 | the range loop that breaks at index 5 shows exactly the first min(5, n) records |
| Text.ReplaceAll | go-collector/guardian_crawler.go:66-67 | `strings.ReplaceAll` for a non-empty pattern, a leftmost non-overlapping scan; its properties are the lemmas below |
| Text.ReplaceAllInverse | go-collector/guardian_crawler.go:66 | only occurrences of the pattern are changed: when the input holds no byte of the replacement, replacing back recovers the input |
| Text.ReplaceAllLeavesNoPair | go-collector/guardian_crawler.go:66 | every occurrence is replaced: after replacing a two-byte pattern by one byte that is neither of its bytes, the pattern occurs nowhere in the result |
| Text.ReplaceByteByNothing | go-collector/guardian_crawler.go:67 | replacing a one-byte pattern by "" deletes every occurrence of that byte and nothing else |
| Text.Join | go-collector/gdelt_crawler.go:60 | `strings.Join`: the elements with the separator between neighbours; `Text.JoinLength` and the `Gdelt.FinalQuery*` lemmas state what it yields |
| Text.JoinLength | go-collector/gdelt_crawler.go:60 | a join of k >= 1 elements has their bytes plus exactly k - 1 separators |
| Text.Truncate | go-collector/main.go:71-76 | `truncate(s, max)` with max >= 0: s unchanged when len(s) <= max; otherwise length max + 3 ending in "..."; the first min(len(s), max) bytes are always those of s |
| Text.TruncateIdempotent | go-collector/main.go:71-76 | truncating a truncated text again changes nothing |
| Text.Decimal | go-collector/guardian_crawler.go:75 | `%d` formatting: a '-' exactly for negative numbers, followed by the digits of the magnitude |
| Text.DigitsRoundTrip | go-collector/guardian_crawler.go:75 | the decimal digits of n, read back most significant first, denote n |
| Text.DecimalRoundTrip | go-collector/guardian_crawler.go:75 | reading back the `%d` text of any integer, its sign included, gives the integer |
| Fetch.Preview | go-collector/guardian_crawler.go:109-112 | the preview is the body when it has at most 500 bytes, otherwise its first 500 bytes plus "..." (503 bytes) |
| Guardian.SearchQuery | go-collector/guardian_crawler.go:66-67 | the two rewrites in source order: "OR" to "\|", then '"' deleted; the three lemmas below state what the result is |
| Guardian.SearchQueryHasNoQuotes | go-collector/guardian_crawler.go:66-67 | the rewritten query holds no '"'; it is the "OR" to "\|" rewrite with every quote then deleted |
| Guardian.OrRewriteLeavesNoOr | go-collector/guardian_crawler.go:66 | the first rewrite leaves no "OR": every case-sensitive occurrence, inside words too, became "\|" |
| Guardian.QuoteDeletionCanFormOr | go-collector/guardian_crawler.go:66-67 | since quotes are deleted after the rewrite, deleting them can join a new "OR" that is sent unchanged: `O"R` becomes `OR` |
| Guardian.SearchQueryRestoresOr | go-collector/guardian_crawler.go:66-67 | nothing but "OR" and '"' is changed: for a query without "\|" or '"', turning each "\|" back into "OR" recovers the query |
| Guardian.SearchParams | go-collector/guardian_crawler.go:70-79 | the six `params.Add` calls in order; `Guardian.SearchParamsCarryQuery` states what `q` and `type` carry |
| Guardian.SearchParamsCarryQuery | go-collector/guardian_crawler.go:70-79 | the `q` parameter is the rewritten query and `type` is "article" |
| Guardian.CheckResponse | go-collector/guardian_crawler.go:90-121 | success iff status 200, a successful decode and embedded status "ok"; a non-200 status is rejected with its code and body; a decode failure after a 200 yields the body preview; a decoded status other than "ok" is reported without the body; a request or transport failure is a transport error, a failed read a read error |
| Guardian.HttpErrorPrecedesDecoding | go-collector/guardian_crawler.go:102-108 | with a non-200 status the outcome does not depend on what decoding would give: decoding is never attempted |
| Guardian.Explore | go-collector/guardian_crawler.go:126-163 | no results gives only the total; otherwise the report holds the totals, a valid top-5 of the section table and exactly the first min(5, n) articles |
| NewsApi.SearchQuery | go-collector/news_crawler.go:64 | the query sent is the constant `"Universidad de Antioquia" OR UdeA`; `NewsApi.QueryIgnoresArgument` states that the argument plays no part |
| NewsApi.SearchParams | go-collector/news_crawler.go:67-77 | the six `params.Add` calls in order |
| NewsApi.QueryIgnoresArgument | go-collector/news_crawler.go:64-77 | the `q` parameter is the same constant query whatever `queryRaw` is |
| NewsApi.CheckResponse | go-collector/news_crawler.go:85-124 | success iff something was received, decoded, with embedded status "ok", whatever the HTTP status; decode failure yields the preview; a bad embedded status is reported with the whole body; a request that cannot be built, a transport failure and a failed read each give their own error |
| NewsApi.HttpStatusIgnored | go-collector/news_crawler.go:101-123 | two answers that differ only in HTTP status get the same outcome |
| NewsApi.Explore | go-collector/news_crawler.go:128-164 | no articles gives a notice only; otherwise a valid top-10 of the source table (at most 10 entries) and exactly the first min(5, n) articles (at most 5) |
| Gdelt.LangFilterList | go-collector/gdelt_crawler.go:55-58 | the filter list has one entry per language, entry i being "sourceLang:" + idiomas[i] |
| Gdelt.LangFilters | go-collector/gdelt_crawler.go:55-58 | the loop fills the slice so that it has len(idiomas) entries and entry i is "sourceLang:" + idiomas[i] |
| Gdelt.FinalQuery | go-collector/gdelt_crawler.go:60-62 | "(" + queryRaw + ") AND (" + the filters joined by " OR " + ")"; the `Gdelt.FinalQuery*` lemmas state its shape, edge cases and length |
| Gdelt.BuildQuery | go-collector/gdelt_crawler.go:55-62 | the query built by the loop, the join and the wrap is `FinalQuery(queryRaw, idiomas)` |
| Gdelt.FinalQueryShape | go-collector/gdelt_crawler.go:62 | the query starts with "(", then the raw query, then ") AND (", and ends with ")" |
| Gdelt.FinalQueryNoLanguages | go-collector/gdelt_crawler.go:60-62 | with no languages the query is "(" + queryRaw + ") AND ()", ending in "()" |
| Gdelt.FinalQueryOneLanguage | go-collector/gdelt_crawler.go:60-62 | one language gives "(" + queryRaw + ") AND (sourceLang:" + lang + ")", with no " OR " added |
| Gdelt.FinalQuerySpanishEnglish | go-collector/gdelt_crawler.go:187 | the crawler's two languages give "(q) AND (sourceLang:spanish OR sourceLang:english)" |
| Gdelt.LangFilterListLength | go-collector/gdelt_crawler.go:57 | each filter adds the 11 bytes of "sourceLang:" to its language |
| Gdelt.FinalQueryLength | go-collector/gdelt_crawler.go:55-62 | for k >= 1 languages the query has len(queryRaw) + 9 + the languages' bytes + 11k + 4(k - 1) bytes |
| Gdelt.SearchParams | go-collector/gdelt_crawler.go:65-71 | the six `params.Add` calls in order; `Gdelt.SearchParamsCarryQuery` states what `query` carries |
| Gdelt.SearchParamsCarryQuery | go-collector/gdelt_crawler.go:65-71 | the `query` parameter is the final query |
| Gdelt.CheckResponse | go-collector/gdelt_crawler.go:78-112 | success iff status 200 and a successful decode, with no embedded status checked; non-200 is rejected with code and body; a decode failure yields the preview; a request that cannot be built, a transport failure and a failed read each give their own error |
| Gdelt.HttpErrorPrecedesDecoding | go-collector/gdelt_crawler.go:97-108 | with a non-200 status the outcome does not depend on what decoding would give |
| Gdelt.CountFields | go-collector/gdelt_crawler.go:127-135 | the single loop leaves the domain, language and country tables of the articles |
| Gdelt.FieldCountsSum | go-collector/gdelt_crawler.go:127-135 | each of the three tables' counts sums to the number of articles |
| Gdelt.Explore | go-collector/gdelt_crawler.go:115-161 | no articles gives a notice only; otherwise the total, a valid top-10 of the domain table, the whole language table and exactly the first min(5, n) articles |
| CheckOrder.ServerErrorWithBadBody | go-collector/news_crawler.go:106-114 | a 500 answer with an undecodable body is an HTTP error for the newspaper and event-index crawlers but a decode error with a preview for the news crawler |
| CheckOrder.OkBodyBehindErrorStatus | go-collector/news_crawler.go:116-123 | a non-200 answer whose body decodes with status "ok" is accepted by the news crawler only |
| CheckOrder.ErrorStatusInBody | go-collector/gdelt_crawler.go:101-111 | a 200 answer with an embedded status other than "ok" is rejected by the newspaper and news crawlers and accepted by the event index, which has no such status |
| RssReader.ShowItems | go-collector/main.go:42-66 | the events of the item loop, one per item in order; `RssReader.ShowItemsCount` counts them |
| RssReader.ShowItemsCount | go-collector/main.go:42-66 | the item events of a list of items number exactly as many as the items |
| RssReader.FeedLog | go-collector/main.go:23-66 | one feed's events: banner then error, or banner, channel and the first min(3, items) items; `RssReader.FeedShowsFirstItems` and `RssReader.FeedLogBanner` state this |
| RssReader.FeedLogBanner | go-collector/main.go:23-25 | each feed's events carry exactly one banner, its own URL |
| RssReader.FeedsLog | go-collector/main.go:22-67 | the events of the feed loop: each feed's events in list order; its properties are the lemmas below |
| RssReader.ShowItem | go-collector/main.go:46-65 | an item is shown with its title and link and its description truncated to at most 123 bytes |
| RssReader.ReadFeed | go-collector/main.go:23-66 | one turn of the feed loop: a banner, then the parse error, or the channel and the first min(3, items) items (every index used is in bounds) |
| RssReader.ReadFeeds | go-collector/main.go:22-67 | the feed loop produces the concatenation, in list order, of every feed's events |
| RssReader.FeedsLogAppend | go-collector/main.go:27-31 | a feed's events do not depend on the feeds before it, so a parse error only skips to the next feed |
| RssReader.EveryFeedVisitedInOrder | go-collector/main.go:22-31 | the banners of the log are exactly the feed list, in order, whatever fails to parse |
| RssReader.FeedShowsFirstItems | go-collector/main.go:37-43 | a failing feed shows its banner and the error only; a parsed one shows min(3, number of items) items |

## Left out

- go-collector/twitter_crawler.go is not part of this model: it is request and response plumbing, and its one rule (the body preview) is the one `Fetch.Preview` models.
- HTTP work (`http.Client`, `http.NewRequest`, headers, timeouts) and `io.ReadAll`: foreign I/O. Their outcomes are the `Fetch.Exchange` input. The newspaper crawler's `Client.Get` builds the request itself, so a request that cannot be built surfaces there as the wrapped transport error.
- `json.Unmarshal` and how the response structs are filled: library decoding. Its outcome is the `Fetch.Decoded` input. The newspaper crawler's nested `response` object is flattened into `Guardian.Response`.
- The base URLs and `url.Values.Encode` (ordering and percent-encoding). The model keeps the parameters as the list `params.Add` builds.
- `fmt` output and console layout. The reports and the feed log record what is printed, not how. Error messages are kept as their kind and the data they carry.
- `time.Now`, `AddDate` and date formatting. Dates are byte strings formatted elsewhere.
- Each crawler's own `main`: hard-coded constants (among them the credentials), one call, and printing of a fatal error.
- The gofeed parser: it is the `parse` parameter of `RssReader.ReadFeeds`. The `log.Println` of a parse error is the `FeedError` event. The feed URL list is a parameter.
- The printing order of the event index's language table, which is random: the report carries the whole table instead.
- The `response == nil` guard of the news and event-index reports: `BuscarArticulos` never returns nil without an error, so the model takes a response value.
- `strings.ReplaceAll` with an empty pattern: the code only ever uses the constant patterns "OR" and '"'.
- `sort.Slice`'s own algorithm: an insertion sort stands in for it. The contracts fix nothing about ties, so any correct sort meets them.
- Guardian.SearchQueryRestoresOr: the round trip is stated only for queries that contain no '|' and no '"'. For other queries, restoring '|' to "OR" cannot tell an original '|' from a rewritten "OR". That every "OR" is rewritten is stated by `Guardian.OrRewriteLeavesNoOr`, about the text before the quotes are deleted; after the deletion an "OR" can appear (`Guardian.QuoteDeletionCanFormOr`).
- Aggregate.TopN: requires n >= 0. A negative `n` makes `kvList[:n]` panic in `getTopN`, and that panic is not modelled. Every call passes 5 or 10.
- Text.Truncate: requires max >= 0. A negative `max` makes `s[:max]` panic in `truncate`, and that panic is not modelled. The only call passes 120.
