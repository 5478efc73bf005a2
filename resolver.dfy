/**
 * `process_match` of scraper.py and app/scraper.py: from a listed fixture
 * to its embed page and stream address. Fetching is a parameter: `fetch(u)`
 * is the page body, or `None` when fetching raised an exception; the HTML
 * parser is a parameter as well.
 */
module Resolver {
  import opened Wrappers
  import opened Strings
  import opened Urls
  import opened Listing
  import opened Embed
  import opened Streams

  /** The dict `process_match` returns. */
  datatype Resolved = Resolved(
    title: string,
    embed: Option<string>,
    m3u8: Option<string>,
    image: Option<string>,
    date: Option<string>,
    league: Option<string>)

  /** The result with no embed and no stream: a page without an embed link, or an exception. */
  function Unresolved(f: Fixture): Resolved {
    Resolved(f.title, None, None, f.image, f.date, f.league)
  }

  /**
   * `process_match`: fetch the detail page, find the embed link, fetch the
   * embed page and run the stream cascade over it. The fixture's title,
   * image, date and league are always copied; an exception on either fetch
   * gives neither embed nor stream.
   */
  function ProcessMatch(f: Fixture, fetch: string -> Option<string>, parse: string -> DetailPage): (r: Resolved)
    ensures r.title == f.title && r.image == f.image && r.date == f.date && r.league == f.league
    ensures r.embed.None? ==> r.m3u8.None?
    ensures fetch(f.url).None? ==> r.embed.None? && r.m3u8.None?
    ensures r.embed.Some? <==>
              && fetch(f.url).Some?
              && ExtractEmbedUrl(parse(fetch(f.url).value)).Some?
              && fetch(ExtractEmbedUrl(parse(fetch(f.url).value)).value).Some?
    ensures r.embed.Some? ==>
              && r.embed == ExtractEmbedUrl(parse(fetch(f.url).value))
              && r.m3u8 == ExtractM3u8FromEmbed(fetch(r.embed.value).value)
    ensures r.embed.Some? ==> IsAbsolute(r.embed.value)
    ensures r.m3u8.Some? ==> IsAbsolute(r.m3u8.value)
  {
    match fetch(f.url)
    case None => Unresolved(f)
    case Some(html) =>
      match ExtractEmbedUrl(parse(html))
      case None => Unresolved(f)
      case Some(embed) =>
        match fetch(embed)
        case None => Unresolved(f)
        case Some(embedHtml) =>
          Resolved(f.title, Some(embed), ExtractM3u8FromEmbed(embedHtml), f.image, f.date, f.league)
  }

  /** With a fetch that never raises (scraper.py's), an embed link found is always kept. */
  lemma NonRaisingFetchKeepsEmbed(f: Fixture, fetch: string -> Option<string>, parse: string -> DetailPage)
    requires forall u :: fetch(u).Some?
    ensures ProcessMatch(f, fetch, parse).embed == ExtractEmbedUrl(parse(fetch(f.url).value))
  {
  }
}
