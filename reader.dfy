/**
 * The feed reader component (static/feeder.js:146-296) as one object: its
 * data fields, its computed lists, and `fetchFeed`, which ties the cache, the
 * byte-budget read and the repairer together (lines 198-237).
 *
 * What the browser supplies is passed in: `network` gives, for each requested
 * URL, what the proxy sends back; `encode` stands for `encodeURIComponent`;
 * `parse` stands for `RSSParser.parseString`, `None` where it throws; `now`
 * stands for `Date.now()`.
 */
module Reader {
  import opened Wrappers
  import opened Text
  import opened Stream
  import opened Repair
  import opened Base64
  import opened Cache
  import opened FeedList

  /** One parsed feed item: the fields line 204-210 copy (`mediaContent` is not modelled). */
  datatype ParsedItem = ParsedItem(title: Option<string>, link: Option<string>, pubDate: int, content: Option<string>)

  /** A parsed feed, as `setCache` stores it and `getCache` returns it. */
  datatype Feed = Feed(title: Option<string>, items: seq<ParsedItem>)

  /** The response to a request: the stream of chunks with its status, or a request that fails outright. */
  datatype Download = Download(chunks: seq<Chunk>, end: StreamEnd, status: int, statusText: string) | Unreachable

  /** Line 217: the one proxy every feed is fetched through. */
  const Proxy: string := "https://api.allorigins.win/raw?url="

  function ProxyUrl(url: string, encode: string -> string): (r: string)
    ensures |Proxy| <= |r| && r[..|Proxy|] == Proxy && r[|Proxy|..] == encode(url)
  {
    Proxy + encode(url)
  }

  /**
   * Line 219: the text handed to the parser. An untruncated body is parsed
   * as it is; a truncated one is repaired, which keeps a prefix of it and
   * appends closers.
   */
  function FeedText(resp: Response): (r: string)
    ensures !resp.truncated ==> r == resp.data
    ensures resp.truncated ==> exists k :: 0 <= k <= |resp.data| && r == resp.data[..k] + Closers(OpenTags(resp.data[..k]))
  {
    if resp.truncated then
      var k := |TrimTrailingTag(resp.data)|;
      assert Repaired(resp.data) == resp.data[..k] + Closers(OpenTags(resp.data[..k]));
      Repaired(resp.data)
    else resp.data
  }

  /** Lines 203-211 and 222-230: the displayed items of a feed, each collapsed and labelled with the feed's title. */
  function Displayed(feed: Feed): (r: seq<FeedItem>)
    ensures |r| == |feed.items|
    ensures forall i :: 0 <= i < |r| ==>
      var p := feed.items[i];
      r[i] == FeedItem(p.title, p.link, p.pubDate, p.content, feed.title, false)
  {
    seq(|feed.items|, i requires 0 <= i < |feed.items| =>
      var p := feed.items[i];
      FeedItem(p.title, p.link, p.pubDate, p.content, feed.title, false))
  }

  /** How one `fetchFeed` call ends: served from the cache, fetched and parsed, or failed (the error is only logged). */
  datatype FetchResult = FromCache(feed: Feed) | Fetched(feed: Feed) | Failed

  /** What one `fetchFeed(url)` call yields for a given store and network. */
  function FetchOne(items: map<string, Stored<Feed>>, url: string, ttl: int, now: int, maxKB: int,
                    network: string -> Download, encode: string -> string, parse: string -> Option<Feed>): (r: FetchResult)
    ensures r.FromCache? <==> Lookup(items, url, ttl, now).Ok? && Lookup(items, url, ttl, now).value.Some?
    ensures r.FromCache? ==> r.feed == Lookup(items, url, ttl, now).value.value
    ensures r.Fetched? <==> (Lookup(items, url, ttl, now) == Ok(None) &&
      var d := network(ProxyUrl(url, encode));
      d.Download? && PartialRead(d.chunks, d.end, maxKB, d.status, d.statusText).Ok? &&
      parse(FeedText(PartialRead(d.chunks, d.end, maxKB, d.status, d.statusText).value)).Some?)
    ensures r.Fetched? ==>
      var d := network(ProxyUrl(url, encode));
      Some(r.feed) == parse(FeedText(PartialRead(d.chunks, d.end, maxKB, d.status, d.statusText).value))
  {
    match Lookup(items, url, ttl, now)
    case Err => Failed
    case Ok(Some(feed)) => FromCache(feed)
    case Ok(None) =>
      match network(ProxyUrl(url, encode))
      case Unreachable => Failed
      case Download(cs, end, status, statusText) =>
        match PartialRead(cs, end, maxKB, status, statusText)
        case Err => Failed
        case Ok(resp) =>
          match parse(FeedText(resp))
          case None => Failed
          case Some(feed) => Fetched(feed)
  }

  /** The store after `fetchFeed(url)`: the lookup's effect, then the new entry if a feed was fetched. */
  function StoreAfterFetch(items: map<string, Stored<Feed>>, url: string, ttl: int, now: int, r: FetchResult): (s: map<string, Stored<Feed>>)
  {
    var afterGet := AfterLookup(items, url, ttl, now);
    if r.Fetched? then AfterSet(afterGet, url, r.feed, now) else afterGet
  }

  /** The items `fetchFeed` appends. */
  function Added(r: FetchResult): seq<FeedItem>
  {
    if r.Failed? then [] else Displayed(r.feed)
  }

  /** What a run of fetches has built up: the unfiltered items so far and the store. */
  datatype Session = Session(items: seq<FeedItem>, store: map<string, Stored<Feed>>)

  /** One `fetchFeed(url)` call: the items it appends and the store it leaves. */
  function FetchStep(s: Session, url: string, ttl: int, now: int, maxKB: int,
                     network: string -> Download, encode: string -> string, parse: string -> Option<Feed>): (t: Session)
    ensures s.items <= t.items
  {
    var r := FetchOne(s.store, url, ttl, now, maxKB, network, encode, parse);
    Session(s.items + Added(r), StoreAfterFetch(s.store, url, ttl, now, r))
  }

  /** `fetchFeed` for each URL of `urls` in turn. */
  function FetchAll(s: Session, urls: seq<string>, ttl: int, now: int, maxKB: int,
                    network: string -> Download, encode: string -> string, parse: string -> Option<Feed>): (t: Session)
    ensures s.items <= t.items
    decreases |urls|
  {
    if urls == [] then s
    else FetchStep(FetchAll(s, urls[..|urls| - 1], ttl, now, maxKB, network, encode, parse), urls[|urls| - 1], ttl, now, maxKB, network, encode, parse)
  }

  /** Fetching one more URL is one more fetch step after the fetches before it. */
  lemma FetchAllSnoc(s: Session, urls: seq<string>, i: nat, ttl: int, now: int, maxKB: int,
                     network: string -> Download, encode: string -> string, parse: string -> Option<Feed>)
    requires i < |urls|
    ensures FetchAll(s, urls[..i + 1], ttl, now, maxKB, network, encode, parse) ==
      FetchStep(FetchAll(s, urls[..i], ttl, now, maxKB, network, encode, parse), urls[i], ttl, now, maxKB, network, encode, parse)
  {
    assert urls[..i + 1][..i] == urls[..i];
  }

  // ---------------------------------------------------------------------------
  // Properties of a fetch

  /**
   * Lines 200 and 221: after `fetchFeed(url)` a fetched feed is stored under
   * the URL's key, stamped with the time; without a fetch no key is added;
   * either way every other key keeps its value.
   */
  lemma StoreAfterFetchEntries(items: map<string, Stored<Feed>>, url: string, ttl: int, now: int, r: FetchResult)
    ensures var s := StoreAfterFetch(items, url, ttl, now, r);
      r.Fetched? && CacheKey(url).Ok? ==> CacheKey(url).value in s && s[CacheKey(url).value] == Entry(now, r.feed)
    ensures !r.Fetched? ==> StoreAfterFetch(items, url, ttl, now, r).Keys <= items.Keys
    ensures var s := StoreAfterFetch(items, url, ttl, now, r);
      forall k :: k in items && (CacheKey(url).Err? || k != CacheKey(url).value) ==> k in s && s[k] == items[k]
  {
  }

  /** A live cache entry is used without asking the network, and the store is left as it was. */
  lemma CacheHitSkipsNetwork(items: map<string, Stored<Feed>>, url: string, ttl: int, now: int, maxKB: int,
                             network: string -> Download, other: string -> Download,
                             encode: string -> string, parse: string -> Option<Feed>)
    requires Lookup(items, url, ttl, now).Ok? && Lookup(items, url, ttl, now).value.Some?
    ensures FetchOne(items, url, ttl, now, maxKB, network, encode, parse) == FetchOne(items, url, ttl, now, maxKB, other, encode, parse)
    ensures StoreAfterFetch(items, url, ttl, now, FetchOne(items, url, ttl, now, maxKB, network, encode, parse)) == items
  {
  }

  /** A feed just fetched is served from the cache by the next fetch at the same time, if the time to live is not negative. */
  lemma FetchedThenCached(items: map<string, Stored<Feed>>, url: string, ttl: int, now: int, maxKB: int,
                          network: string -> Download, encode: string -> string, parse: string -> Option<Feed>)
    requires ttl >= 0
    requires FetchOne(items, url, ttl, now, maxKB, network, encode, parse).Fetched?
    ensures var r := FetchOne(items, url, ttl, now, maxKB, network, encode, parse);
      var after := StoreAfterFetch(items, url, ttl, now, r);
      FetchOne(after, url, ttl, now, maxKB, network, encode, parse) == FromCache(r.feed)
  {
    var r := FetchOne(items, url, ttl, now, maxKB, network, encode, parse);
    assert IsLatin1(url);
    SetThenGet(AfterLookup(items, url, ttl, now), url, r.feed, now, ttl, now);
  }

  /**
   * `btoa` throws for a URL with a character outside Latin-1, inside the
   * `try`: such a feed is never loaded and nothing is stored.
   */
  lemma NonLatin1NeverLoads(items: map<string, Stored<Feed>>, url: string, ttl: int, now: int, maxKB: int,
                            network: string -> Download, encode: string -> string, parse: string -> Option<Feed>)
    requires !IsLatin1(url)
    ensures FetchOne(items, url, ttl, now, maxKB, network, encode, parse) == Failed
    ensures StoreAfterFetch(items, url, ttl, now, Failed) == items
  {
  }

  /**
   * What the parser is given: the whole downloaded text when it was not
   * truncated, and otherwise a prefix of it followed by synthesized closers.
   */
  lemma ParserInput(cs: seq<Chunk>, end: StreamEnd, maxKB: int, status: int, statusText: string)
    requires PartialRead(cs, end, maxKB, status, statusText).Ok?
    ensures var resp := PartialRead(cs, end, maxKB, status, statusText).value;
      !resp.truncated ==> FeedText(resp) == Texts(cs)
    ensures var resp := PartialRead(cs, end, maxKB, status, statusText).value;
      resp.truncated ==> exists k :: 0 <= k <= |Texts(cs)| && FeedText(resp) == Texts(cs)[..k] + Closers(OpenTags(Texts(cs)[..k]))
  {
    var resp := PartialRead(cs, end, maxKB, status, statusText).value;
    if resp.truncated {
      TruncatedIsPrefix(cs, end, maxKB, status, statusText);
      RepairedPrefix(resp, Texts(cs));
    }
  }

  /** A repaired body that is a prefix of `all` keeps a prefix of `all`. */
  lemma RepairedPrefix(resp: Response, all: string)
    requires resp.truncated && resp.data <= all
    ensures exists k :: 0 <= k <= |all| && FeedText(resp) == all[..k] + Closers(OpenTags(all[..k]))
  {
    var t := TrimTrailingTag(resp.data);
    assert t == all[..|t|];
    assert FeedText(resp) == Repaired(resp.data) == t + Closers(OpenTags(t));
  }

  /** The component's data (lines 148-159) and `unfilteredFeeds` (line 188). */
  class FeedReader {
    var rssInput: string
    var feeds: seq<FeedItem>
    var unfilteredFeeds: seq<FeedItem>
    var loading: bool
    var currentPage: int
    /** `pageSize` is data, but nothing ever assigns it. */
    const pageSize: nat := 10
    var cacheTTL: int
    var responseTruncationLimitKB: int
    var blocklist: string

    constructor ()
      ensures rssInput == "" && feeds == [] && unfilteredFeeds == [] && !loading
      ensures currentPage == 1 && cacheTTL == 30
      ensures responseTruncationLimitKB == 300 && blocklist == ""
    {
      rssInput := "";
      feeds := [];
      unfilteredFeeds := [];
      loading := false;
      currentPage := 1;
      cacheTTL := 30;
      responseTruncationLimitKB := 300;
      blocklist := "";
    }

    /**
     * `sortedFeeds` (line 176-178): `feeds.sort` reorders `feeds` itself,
     * newest first, and returns it.
     */
    method SortedFeeds() returns (r: seq<FeedItem>)
      modifies this`feeds
      ensures feeds == SortByDate(old(feeds)) && r == feeds
    {
      feeds := SortByDate(feeds);
      r := feeds;
    }

    /** `filteredFeeds` (lines 166-175), with the sort it triggers. */
    method FilteredFeeds() returns (r: seq<FeedItem>)
      modifies this`feeds
      ensures r == Filtered(old(feeds), blocklist)
      ensures feeds == SortByDate(old(feeds))
    {
      var sorted := SortedFeeds();
      if IsBlank(blocklist) {
        return sorted;
      }
      var blocks := Terms(blocklist);
      r := Filter(sorted, blocks);
    }

    /** `paginatedFeeds` (lines 162-165). */
    method PaginatedFeeds() returns (r: seq<FeedItem>)
      modifies this`feeds
      ensures r == Page(Filtered(old(feeds), blocklist), currentPage, pageSize)
      ensures |r| <= pageSize
      ensures feeds == SortByDate(old(feeds))
    {
      var filtered := FilteredFeeds();
      var start := (currentPage - 1) * pageSize;
      r := JsSlice(filtered, start, start + pageSize);
    }

    /** `totalPages` (lines 179-181). */
    method TotalPagesOf() returns (r: nat)
      modifies this`feeds
      ensures r == TotalPages(|Filtered(old(feeds), blocklist)|, pageSize)
      ensures feeds == SortByDate(old(feeds))
    {
      var filtered := FilteredFeeds();
      r := TotalPages(|filtered|, pageSize);
    }

    /** `updateFilteredFeeds` (lines 247-253): `feeds` becomes the unfiltered items that no term blocks. */
    method UpdateFilteredFeeds()
      modifies this`feeds
      ensures feeds == Filter(unfilteredFeeds, ActiveTerms(blocklist))
    {
      var blocks: seq<string> := [];
      if !IsBlank(blocklist) {
        blocks := Terms(blocklist);
      }
      feeds := Filter(unfilteredFeeds, blocks);
    }

    /** `showDescription(item)` (lines 254-259) for the item at `index` of `feeds`. */
    method ShowDescription(index: int)
      modifies this`feeds
      ensures feeds == ToggleAt(old(feeds), index)
    {
      feeds := ToggleAt(feeds, index);
    }

    /** `closeDescription(item)` (lines 260-262) for the item at `index` of `feeds`. */
    method CloseDescription(index: nat)
      requires index < |feeds|
      modifies this`feeds
      ensures feeds == old(feeds)[index := old(feeds)[index].(showDescription := false)]
    {
      feeds := feeds[index := feeds[index].(showDescription := false)];
    }

    /**
     * `fetchFeed(url)` (lines 198-237): a live cache entry is used as it is;
     * otherwise the feed is fetched through the proxy within the byte budget,
     * repaired if truncated, parsed and cached. Either way its items are
     * appended and the filtered list is rebuilt; on any failure nothing is
     * appended.
     */
    method FetchFeed(url: string, store: LocalStorage<Feed>, now: int,
                     network: string -> Download, encode: string -> string, parse: string -> Option<Feed>)
      modifies this`feeds, this`unfilteredFeeds, store
      ensures Session(unfilteredFeeds, store.items) ==
        FetchStep(Session(old(unfilteredFeeds), old(store.items)), url, cacheTTL, now, responseTruncationLimitKB, network, encode, parse)
      ensures FetchOne(old(store.items), url, cacheTTL, now, responseTruncationLimitKB, network, encode, parse).Failed? ==>
        feeds == old(feeds)
      ensures !FetchOne(old(store.items), url, cacheTTL, now, responseTruncationLimitKB, network, encode, parse).Failed? ==>
        feeds == Filter(unfilteredFeeds, ActiveTerms(blocklist))
      ensures old(feeds) == Filter(old(unfilteredFeeds), ActiveTerms(blocklist)) ==>
        feeds == Filter(unfilteredFeeds, ActiveTerms(blocklist))
    {
      var cachedFeed := store.GetCache(url, cacheTTL, now);
      if cachedFeed.Err? {
        return;
      }
      if cachedFeed.value.Some? {
        var feed := cachedFeed.value.value;
        unfilteredFeeds := unfilteredFeeds + Displayed(feed);
        UpdateFilteredFeeds();
        return;
      }
      var download := network(ProxyUrl(url, encode));
      if download.Unreachable? {
        return;
      }
      var response := ReadStream(download.chunks, download.end, responseTruncationLimitKB, download.status, download.statusText);
      if response.Err? {
        return;
      }
      var feedText;
      if response.value.truncated {
        feedText := CloseTruncatedFeed(response.value.data);
      } else {
        feedText := response.value.data;
      }
      var parsed := parse(feedText);
      if parsed.None? {
        return;
      }
      var feed := parsed.value;
      var _ := store.SetCache(url, feed, now);
      unfilteredFeeds := unfilteredFeeds + Displayed(feed);
      UpdateFilteredFeeds();
    }

    /**
     * `fetchFeeds()` (lines 184-245): clear both lists, split the input into
     * URLs, and fetch each one.
     */
    method FetchFeeds(store: LocalStorage<Feed>, now: int,
                      network: string -> Download, encode: string -> string, parse: string -> Option<Feed>)
      modifies this`loading, this`feeds, this`unfilteredFeeds, store
      ensures Session(unfilteredFeeds, store.items) ==
        FetchAll(Session([], old(store.items)), SplitUrls(rssInput), cacheTTL, now, responseTruncationLimitKB, network, encode, parse)
      ensures feeds == Filter(unfilteredFeeds, ActiveTerms(blocklist))
      ensures !loading
    {
      loading := true;
      feeds := [];
      unfilteredFeeds := [];
      var urls := SplitUrls(rssInput);
      FetchEach(urls, store, now, network, encode, parse);
    }

    /**
     * Lines 240-245: `fetchFeed` for every URL, then loading ends. The fetches
     * run concurrently in the source; here they complete in the order of the
     * list.
     */
    method FetchEach(urls: seq<string>, store: LocalStorage<Feed>, now: int,
                     network: string -> Download, encode: string -> string, parse: string -> Option<Feed>)
      requires feeds == Filter(unfilteredFeeds, ActiveTerms(blocklist))
      modifies this`loading, this`feeds, this`unfilteredFeeds, store
      ensures Session(unfilteredFeeds, store.items) ==
        FetchAll(Session(old(unfilteredFeeds), old(store.items)), urls, cacheTTL, now, responseTruncationLimitKB, network, encode, parse)
      ensures feeds == Filter(unfilteredFeeds, ActiveTerms(blocklist))
      ensures !loading
    {
      var i := 0;
      while i < |urls|
        invariant 0 <= i <= |urls|
        invariant Session(unfilteredFeeds, store.items) ==
          FetchAll(Session(old(unfilteredFeeds), old(store.items)), urls[..i], cacheTTL, now, responseTruncationLimitKB, network, encode, parse)
        invariant feeds == Filter(unfilteredFeeds, ActiveTerms(blocklist))
      {
        FetchFeed(urls[i], store, now, network, encode, parse);
        FetchAllSnoc(Session(old(unfilteredFeeds), old(store.items)), urls, i, cacheTTL, now, responseTruncationLimitKB, network, encode, parse);
        i := i + 1;
      }
      assert urls[..i] == urls;
      loading := false;
    }
  }
}
