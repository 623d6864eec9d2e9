/**
  The RSS reader (go-collector/main.go): for every feed URL in list order, a
  banner, then either a logged parse error (and on to the next feed) or the
  channel's title and description and its first three items, each with a
  description cut to 120 bytes. The parser is a parameter; what is printed is
  recorded as a log of events.
 */
module RssReader {
  import opened Text
  import opened Wrappers

  datatype Item = Item(
    title: Bytes,
    link: Bytes,
    published: Bytes,
    description: Bytes,
    categories: seq<Bytes>,
    author: Option<Bytes>,   // item.Author.Name, when item.Author is not nil
    image: Option<Bytes>,    // item.Image.URL, when item.Image is not nil
    enclosures: seq<Bytes>)  // the URLs of item.Enclosures

  datatype Feed = Feed(title: Bytes, description: Bytes, items: seq<Item>)

  /** What `parser.ParseURL(url)` returns. */
  datatype ParseResult = ParseFailed | ParsedFeed(feed: Feed)

  datatype Event =
    | Banner(url: Bytes)
    | FeedError(url: Bytes)
    | Channel(title: Bytes, description: Bytes)
    | ItemShown(
        title: Bytes,
        link: Bytes,
        published: Bytes,
        description: Bytes,
        categories: Option<seq<Bytes>>,
        author: Option<Bytes>,
        image: Option<Bytes>,
        enclosure: Option<Bytes>)

  const ItemsPerFeed := 3
  const DescriptionWidth := 120

  /** The lines printed for one item; the optional ones only when present. */
  function ShowItem(item: Item): (e: Event)
    ensures e.ItemShown? && e.title == item.title && e.link == item.link
    ensures e.description == Truncate(item.description, DescriptionWidth)
    ensures |e.description| <= DescriptionWidth + 3
  {
    ItemShown(
      item.title, item.link, item.published,
      Truncate(item.description, DescriptionWidth),
      if |item.categories| > 0 then Some(item.categories) else None,
      item.author,
      item.image,
      if |item.enclosures| > 0 then Some(item.enclosures[0]) else None)
  }

  /** The events for a list of items, in order. */
  function ShowItems(items: seq<Item>): seq<Event>
  {
    if |items| == 0 then [] else ShowItems(items[..|items| - 1]) + [ShowItem(items[|items| - 1])]
  }

  /** The events for one feed. */
  function FeedLog(url: Bytes, parsed: ParseResult): seq<Event>
  {
    match parsed
    case ParseFailed => [Banner(url), FeedError(url)]
    case ParsedFeed(feed) =>
      [Banner(url), Channel(feed.title, feed.description)]
        + ShowItems(feed.items[..Min(ItemsPerFeed, |feed.items|)])
  }

  /** The events for a list of feeds, visited in order. */
  function FeedsLog(urls: seq<Bytes>, parse: Bytes -> ParseResult): seq<Event>
  {
    if |urls| == 0 then [] else FeedsLog(urls[..|urls| - 1], parse) + FeedLog(urls[|urls| - 1], parse(urls[|urls| - 1]))
  }

  /**
    One turn of `main`'s feed loop: the banner, then the parse error, or the
    channel, the `limit` clamp and the indexed loop over the first items.
   */
  method ReadFeed(url: Bytes, parsed: ParseResult) returns (events: seq<Event>)
    ensures events == FeedLog(url, parsed)
  {
    events := [Banner(url)];
    if parsed.ParseFailed? {
      events := events + [FeedError(url)];
      return;
    }
    var feed := parsed.feed;
    events := events + [Channel(feed.title, feed.description)];

    var limit := ItemsPerFeed;
    if |feed.items| < limit {
      limit := |feed.items|;
    }
    ghost var header := events;
    var i := 0;
    while i < limit
      invariant 0 <= i <= limit <= |feed.items|
      invariant events == header + ShowItems(feed.items[..i])
    {
      var item := feed.items[i];
      assert feed.items[..i + 1][..i] == feed.items[..i];
      events := events + [ShowItem(item)];
      i := i + 1;
    }
  }

  /** `main`: every feed of the list in order; a parse error moves on to the next feed. */
  method ReadFeeds(urls: seq<Bytes>, parse: Bytes -> ParseResult) returns (log: seq<Event>)
    ensures log == FeedsLog(urls, parse)
  {
    log := [];
    var f := 0;
    while f < |urls|
      invariant 0 <= f <= |urls|
      invariant log == FeedsLog(urls[..f], parse)
    {
      assert urls[..f + 1][..f] == urls[..f];
      var events := ReadFeed(urls[f], parse(urls[f]));
      log := log + events;
      f := f + 1;
    }
    assert urls[..f] == urls;
  }

  // ---------------------------------------------------------------------------
  // Properties of the log

  /**
    Each feed's events depend on that feed alone: a failing feed earlier in
    the list does not change what a later one prints.
   */
  lemma {:induction false} FeedsLogAppend(a: seq<Bytes>, b: seq<Bytes>, parse: Bytes -> ParseResult)
    ensures FeedsLog(a + b, parse) == FeedsLog(a, parse) + FeedsLog(b, parse)
    decreases |b|
  {
    if |b| > 0 {
      var b' := b[..|b| - 1];
      assert (a + b)[..|a + b| - 1] == a + b';
      FeedsLogAppend(a, b', parse);
    } else {
      assert a + b == a;
    }
  }

  /** The URLs of the banners, in log order. */
  function Banners(log: seq<Event>): seq<Bytes>
  {
    if log == [] then []
    else (if log[0].Banner? then [log[0].url] else []) + Banners(log[1..])
  }

  lemma {:induction false} BannersAppend(a: seq<Event>, b: seq<Event>)
    ensures Banners(a + b) == Banners(a) + Banners(b)
  {
    if a != [] {
      assert (a + b)[0] == a[0];
      assert (a + b)[1..] == a[1..] + b;
      BannersAppend(a[1..], b);
    } else {
      assert a + b == b;
    }
  }

  lemma {:induction false} ShowItemsHaveNoBanner(items: seq<Item>)
    ensures Banners(ShowItems(items)) == []
  {
    if |items| > 0 {
      ShowItemsHaveNoBanner(items[..|items| - 1]);
      BannersAppend(ShowItems(items[..|items| - 1]), [ShowItem(items[|items| - 1])]);
    }
  }

  lemma FeedLogBanner(url: Bytes, parsed: ParseResult)
    ensures Banners(FeedLog(url, parsed)) == [url]
  {
    match parsed
    case ParseFailed =>
      BannersAppend([Banner(url)], [FeedError(url)]);
      assert [Banner(url)] + [FeedError(url)] == [Banner(url), FeedError(url)];
    case ParsedFeed(feed) =>
      var shown := ShowItems(feed.items[..Min(ItemsPerFeed, |feed.items|)]);
      ShowItemsHaveNoBanner(feed.items[..Min(ItemsPerFeed, |feed.items|)]);
      BannersAppend([Banner(url), Channel(feed.title, feed.description)], shown);
  }

  lemma BannersSnoc(before: seq<Event>, turn: seq<Event>, init: seq<Bytes>, last: Bytes)
    requires Banners(before) == init && Banners(turn) == [last]
    ensures Banners(before + turn) == init + [last]
  {
    BannersAppend(before, turn);
  }

  /** Every feed is visited, once and in list order, whatever failed to parse. */
  lemma {:induction false} EveryFeedVisitedInOrder(urls: seq<Bytes>, parse: Bytes -> ParseResult)
    ensures Banners(FeedsLog(urls, parse)) == urls
  {
    if |urls| > 0 {
      var init, last := urls[..|urls| - 1], urls[|urls| - 1];
      var before, turn := FeedsLog(init, parse), FeedLog(last, parse(last));
      EveryFeedVisitedInOrder(init, parse);
      FeedLogBanner(last, parse(last));
      BannersSnoc(before, turn, init, last);
      assert FeedsLog(urls, parse) == before + turn;
      assert init + [last] == urls;
    }
  }

  /** The number of items shown. */
  function ShownCount(log: seq<Event>): nat
  {
    if log == [] then 0
    else (if log[0].ItemShown? then 1 else 0) + ShownCount(log[1..])
  }

  lemma {:induction false} ShownCountAppend(a: seq<Event>, b: seq<Event>)
    ensures ShownCount(a + b) == ShownCount(a) + ShownCount(b)
  {
    if a != [] {
      assert (a + b)[0] == a[0];
      assert (a + b)[1..] == a[1..] + b;
      ShownCountAppend(a[1..], b);
    } else {
      assert a + b == b;
    }
  }

  lemma {:induction false} ShowItemsCount(items: seq<Item>)
    ensures ShownCount(ShowItems(items)) == |items|
  {
    if |items| > 0 {
      ShowItemsCount(items[..|items| - 1]);
      ShownCountAppend(ShowItems(items[..|items| - 1]), [ShowItem(items[|items| - 1])]);
    }
  }

  /**
    A feed that parses shows min(3, number of items) items; one that fails
    shows its banner and the error only.
   */
  lemma FeedShowsFirstItems(url: Bytes, parsed: ParseResult)
    ensures parsed.ParseFailed? ==> FeedLog(url, parsed) == [Banner(url), FeedError(url)]
    ensures parsed.ParsedFeed? ==>
      ShownCount(FeedLog(url, parsed)) == Min(ItemsPerFeed, |parsed.feed.items|)
  {
    if parsed.ParsedFeed? {
      var items := parsed.feed.items[..Min(ItemsPerFeed, |parsed.feed.items|)];
      ShowItemsCount(items);
      ShownCountAppend([Banner(url), Channel(parsed.feed.title, parsed.feed.description)], ShowItems(items));
    }
  }
}
