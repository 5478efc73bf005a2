/**
 * main.py's service: one full scrape cycle (`scrape_full`) with fetching
 * and HTML parsing as parameters, and the cache freshness test behind the
 * `/matches` endpoint.
 */
module Service {
  import opened Wrappers
  import opened Sequences
  import opened Strings
  import opened OrderedDicts
  import opened Urls
  import opened Listing
  import opened Embed
  import opened Streams
  import opened Logos
  import opened Aggregator

  /** `x or ""` for an optional text field. */
  function OrEmpty(x: Option<string>): string {
    if x.Some? then x.value else ""
  }

  /**
   * The stream address `scrape_full` obtains for a fixture: the detail page
   * (skipped when its fetch came back empty), its embed link, and main.py's
   * stream cascade over the embed page.
   */
  function StreamFor(f: Fixture, fetch: string -> string, parseDetail: string -> DetailPage): (r: Option<string>)
    ensures fetch(f.url) == "" ==> r.None?
    ensures r.Some? ==> StartsWith(r.value, "http")
    ensures r.Some? ==>
              && ExtractEmbedUrl(parseDetail(fetch(f.url))).Some?
              && r == ExtractM3u8(fetch(ExtractEmbedUrl(parseDetail(fetch(f.url))).value))
  {
    var html := fetch(f.url);
    var embed := if html != "" then ExtractEmbedUrl(parseDetail(html)) else None;
    if embed.Some? then ExtractM3u8(fetch(embed.value)) else None
  }

  /**
   * The converse of `StreamFor`'s contract: a non-empty detail page with an
   * embed link always yields main.py's cascade over the embed page, and a
   * page without one yields nothing.
   */
  lemma StreamForSufficient(f: Fixture, fetch: string -> string, parseDetail: string -> DetailPage)
    ensures fetch(f.url) != "" && ExtractEmbedUrl(parseDetail(fetch(f.url))).Some? ==>
              StreamFor(f, fetch, parseDetail) == ExtractM3u8(fetch(ExtractEmbedUrl(parseDetail(fetch(f.url))).value))
    ensures ExtractEmbedUrl(parseDetail(fetch(f.url))).None? ==> StreamFor(f, fetch, parseDetail).None?
  {
  }

  /** The one record of a fixture: a single stream URL, date and league defaulting to `""`. */
  function ScrapedRecord(f: Fixture, m3u8: string, logos: Catalog): (r: MatchRecord)
    requires Contains(f.title, " v ")
    ensures r.streamUrls == [m3u8 + Referer]
    ensures r.date == Some(OrEmpty(f.date)) && r.league == Some(OrEmpty(f.league))
    ensures (r.home, r.away) == Sides(f.title, logos, MainPy)
  {
    var sides := Sides(f.title, logos, MainPy);
    MatchRecord(sides.0, sides.1, [m3u8 + Referer], Some(OrEmpty(f.date)), Some(OrEmpty(f.league)))
  }

  /**
   * The stream addresses of main.py's cascade start with `http`, as every
   * stream handed to `ScrapedAll` by `ScrapeFull` does.
   */
  lemma StreamsStartWithHttp(fetch: string -> string, parseDetail: string -> DetailPage)
    ensures StreamsHttp(f => StreamFor(f, fetch, parseDetail))
  {
  }

  /** Every stream address a stream function gives starts with `http`. */
  ghost predicate StreamsHttp(stream: Fixture -> Option<string>) {
    forall f :: stream(f).Some? ==> StartsWith(stream(f).value, "http")
  }

  /** The record of one fixture with stream `s`: only for a truthy stream and a ` v ` title. */
  function FixtureRecord(f: Fixture, s: Option<string>, logos: Catalog): Option<MatchRecord> {
    if s.Some? && s.value != "" && Contains(f.title, " v ") then Some(ScrapedRecord(f, s.value, logos))
    else None
  }

  /**
   * The records of the fixtures, in listing order, at most one each;
   * `stream(f)` is the stream address found for fixture `f`.
   */
  function ScrapedAll(fs: seq<Fixture>, stream: Fixture -> Option<string>, logos: Catalog): seq<MatchRecord> {
    FilterMap(fs, f => FixtureRecord(f, stream(f), logos))
  }

  /** One more fixture adds its record, if it has one, at the end. */
  lemma ScrapedAllStep(fs: seq<Fixture>, stream: Fixture -> Option<string>, logos: Catalog)
    requires fs != []
    ensures var f := fs[|fs| - 1];
            ScrapedAll(fs, stream, logos) == ScrapedAll(fs[..|fs| - 1], stream, logos) +
              (if FixtureRecord(f, stream(f), logos).Some? then [FixtureRecord(f, stream(f), logos).value] else [])
  {
    FilterMapStep(fs, f => FixtureRecord(f, stream(f), logos));
  }

  lemma FixtureRecordShape(f: Fixture, s: Option<string>, logos: Catalog)
    requires s.Some? ==> StartsWith(s.value, "http")
    ensures var r := FixtureRecord(f, s, logos);
            r.Some? ==>
              && |r.value.streamUrls| == 1
              && EndsWith(r.value.streamUrls[0], Referer)
              && StartsWith(r.value.streamUrls[0], "http")
              && r.value.date.Some? && r.value.league.Some?
  {
    if FixtureRecord(f, s, logos).Some? {
      var u := s.value;
      var r := ScrapedRecord(f, u, logos);
      assert FixtureRecord(f, s, logos) == Some(r);
      assert r.streamUrls[0] == u + Referer;
      StartsWithExtend(u, Referer, "http");
    }
  }

  /**
   * What a scrape cycle returns: never more records than fixtures, each with
   * exactly one stream URL carrying the referer suffix and starting with
   * `http`, and date and league always present.
   */
  lemma ScrapedAllShape(fs: seq<Fixture>, stream: Fixture -> Option<string>, logos: Catalog)
    requires StreamsHttp(stream)
    ensures |ScrapedAll(fs, stream, logos)| <= |fs|
    ensures forall r :: r in ScrapedAll(fs, stream, logos) ==>
              && |r.streamUrls| == 1
              && EndsWith(r.streamUrls[0], Referer)
              && StartsWith(r.streamUrls[0], "http")
              && r.date.Some? && r.league.Some?
  {
    var g := f => FixtureRecord(f, stream(f), logos);
    FilterMapMembers(fs, g);
    forall r | r in ScrapedAll(fs, stream, logos)
      ensures |r.streamUrls| == 1 && EndsWith(r.streamUrls[0], Referer)
              && StartsWith(r.streamUrls[0], "http") && r.date.Some? && r.league.Some?
    {
      var i :| 0 <= i < |fs| && g(fs[i]) == Some(r);
      FixtureRecordShape(fs[i], stream(fs[i]), logos);
    }
  }

  /** Listing order is kept: the records of two runs of fixtures are those of each, in turn. */
  lemma ScrapedAllAppend(a: seq<Fixture>, b: seq<Fixture>, stream: Fixture -> Option<string>, logos: Catalog)
    ensures ScrapedAll(a + b, stream, logos) == ScrapedAll(a, stream, logos) + ScrapedAll(b, stream, logos)
  {
    FilterMapAppend(a, b, f => FixtureRecord(f, stream(f), logos));
  }

  /**
   * `scrape_full`: nothing when the home page fetch is empty; otherwise the
   * listed fixtures, the logo catalog, and a record per fixture that has a
   * stream and a ` v ` title.
   */
  method ScrapeFull(fetch: string -> string, parseListing: string -> seq<Container>,
                    parseDetail: string -> DetailPage, logoResponse: Option<string>)
    returns (out: seq<MatchRecord>)
    ensures fetch(Base) == "" ==> out == []
    ensures fetch(Base) != "" ==>
              out == ScrapedAll(Fixtures(parseListing(fetch(Base))), f => StreamFor(f, fetch, parseDetail),
                                CatalogOf(logoResponse, MainPy))
  {
    var home := fetch(Base);
    if home == "" {
      return [];
    }
    var matches := FindMatchesFromHtml(parseListing(home));
    var logos := ParseCatalog(logoResponse, MainPy);
    ghost var stream := f => StreamFor(f, fetch, parseDetail);
    out := [];
    var i := 0;
    while i < |matches|
      invariant 0 <= i <= |matches|
      invariant out == ScrapedAll(matches[..i], stream, logos)
    {
      var m := matches[i];
      var html := fetch(m.url);
      var embed := if html != "" then ExtractEmbedUrl(parseDetail(html)) else None;
      var m3u8: Option<string> := None;
      if embed.Some? {
        m3u8 := ExtractM3u8(fetch(embed.value));
      }
      assert m3u8 == stream(m);
      ScrapedAllStep(matches[..i + 1], stream, logos);
      assert matches[..i + 1][..i] == matches[..i];
      if m3u8.Some? && m3u8.value != "" && Contains(m.title, " v ") {
        out := out + [ScrapedRecord(m, m3u8.value, logos)];
      }
      i := i + 1;
    }
    assert matches[..i] == matches;
  }

  // ---- the cache behind `/matches` ----

  /** Seconds a cached scrape stays valid. */
  const CacheTtl: real := 1200.0

  /**
   * The cache file as `read_cache` finds it: its `timestamp` and `matches`
   * entries, each absent when the key is missing.
   */
  datatype CacheFile<M> = CacheFile(timestamp: Option<real>, matches: Option<M>)

  /** The file holds both entries and was written less than `CacheTtl` seconds before `now`. */
  predicate Fresh<M>(file: CacheFile<M>, now: real) {
    file.timestamp.Some? && file.matches.Some? && now - file.timestamp.value < CacheTtl
  }

  /**
   * main.py's `read_cache`: the cached matches while they are fresh; nothing
   * when the file is missing or unreadable (`None`), a key is missing, or
   * the cache has expired.
   */
  function ReadCache<M>(file: Option<CacheFile<M>>, now: real): (r: Option<M>)
    ensures r.Some? <==> file.Some? && Fresh(file.value, now)
    ensures r.Some? ==> r == file.value.matches
  {
    match file
    case None => None
    case Some(f) =>
      match f.timestamp
      case None => None
      case Some(ts) => if now - ts < CacheTtl then f.matches else None
  }

  /** A scrape written at `written` is served strictly before `written + CacheTtl`, and not from then on. */
  lemma CacheWindow<M>(ms: M, written: real, now: real)
    ensures ReadCache(Some(CacheFile(Some(written), Some(ms))), now) == Some(ms) <==> now < written + CacheTtl
    ensures ReadCache(Some(CacheFile(Some(written), Some(ms))), written + CacheTtl).None?
  {
  }

  /** Once the cache reads as unavailable it stays so until the file changes. */
  lemma StaleStaysStale<M>(file: Option<CacheFile<M>>, now: real, later: real)
    requires now <= later && ReadCache(file, now).None?
    ensures ReadCache(file, later).None?
  {
  }

  /**
   * The background refresher sleeps `CacheTtl` after writing, so a scrape
   * taking `d > 0` seconds leaves a window of `d` seconds in which the last
   * file has already expired.
   */
  lemma RefreshGap<M>(ms: M, written: real, d: real, now: real)
    requires d > 0.0 && written + CacheTtl <= now < written + CacheTtl + d
    ensures ReadCache(Some(CacheFile(Some(written), Some(ms))), now).None?
  {
  }

  /** The reply of `GET /matches` after the key check. */
  datatype Reply<M> = Served(body: M) | Unavailable(status: int)

  /** `get_matches`: the cached matches, or status 503 exactly when there are none. */
  function GetMatches<M>(file: Option<CacheFile<M>>, now: real): (r: Reply<M>)
    ensures r.Unavailable? <==> ReadCache(file, now).None?
    ensures r.Unavailable? ==> r.status == 503
    ensures r.Served? ==> Some(r.body) == ReadCache(file, now)
  {
    match ReadCache(file, now)
    case None => Unavailable(503)
    case Some(ms) => Served(ms)
  }

  /**
   * app/main.py's `get_cached_matches` reads a missing timestamp as 0; with a
   * timestamp present it agrees with `read_cache`.
   */
  function CachedMatches<M>(file: Option<CacheFile<M>>, now: real): (r: Option<M>)
    ensures file.Some? && file.value.timestamp.Some? ==> r == ReadCache(file, now)
    ensures file.Some? && file.value.timestamp.None? ==>
              (r.Some? <==> file.value.matches.Some? && now < CacheTtl)
  {
    match file
    case None => None
    case Some(f) =>
      var ts := if f.timestamp.Some? then f.timestamp.value else 0.0;
      if now - ts < CacheTtl then f.matches else None
  }
}
