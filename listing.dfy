/**
 * The listing page: which match containers become fixtures, and what each
 * fixture carries. The page is given as its `div` elements in document
 * order, each reduced to what the scraper looks at.
 */
module Listing {
  import opened Wrappers
  import opened Sequences
  import opened Strings
  import opened Urls

  /** The `div.info` block of a container: its first `span` text and first `img` source. */
  datatype InfoBlock = InfoBlock(span: Option<string>, leagueSrc: Option<string>)

  /**
   * A `div` of the listing page: its `id` attribute, the stripped text of
   * its first `h2`, the `href` of its first anchor that has one, the `src`
   * of its first image that has one, and its first `div.info`.
   */
  datatype Container = Container(
    id: Option<string>,
    h2: Option<string>,
    href: Option<string>,
    imgSrc: Option<string>,
    info: Option<InfoBlock>)

  /** A listed fixture, as the scraper's dict with keys title, url, image, date, league. */
  datatype Fixture = Fixture(
    title: string,
    url: string,
    image: Option<string>,
    date: Option<string>,
    league: Option<string>)

  /** The `find_all` filter: an `id` that is present, non-empty and starts with `port`. */
  predicate IsListed(c: Container) {
    c.id.Some? && StartsWith(c.id.value, "port")
  }

  /** The league text of an image path: after the last `/x/`, `.jpg` dropped, `_` as a space. */
  function LeagueName(src: string): (r: Option<string>)
    ensures r.None? <==> !Contains(src, "/x/")
    ensures r.Some? ==> '_' !in r.value
  {
    if Contains(src, "/x/") then
      var tail := Last(Split(src, "/x/"));
      var name := ReplaceAll(ReplaceAll(tail, ".jpg", ""), "_", " ");
      ReplaceCharRemovesIt(ReplaceAll(tail, ".jpg", ""), '_', ' ');
      Some(name)
    else None
  }

  /**
   * The piece `LeagueName` cleans is a tail of the path right after a `/x/`,
   * and that tail holds no further `/x/`.
   */
  lemma LeagueNameFromTail(src: string)
    requires Contains(src, "/x/")
    ensures var tail := Last(Split(src, "/x/"));
            && EndsWith(src, "/x/" + tail)
            && !Contains(tail, "/x/")
            && LeagueName(src) == Some(ReplaceAll(ReplaceAll(tail, ".jpg", ""), "_", " "))
  {
    SplitLastPiece(src, "/x/");
    SplitPiecesLackSep(src, "/x/");
  }

  lemma EndsWithContains(s: string, suffix: string, sub: string)
    requires EndsWith(s, suffix) && Contains(suffix, sub)
    ensures Contains(s, sub)
  {
    assert s == s[..|s| - |suffix|] + suffix;
    ContainsAfterPrefix(s[..|s| - |suffix|], suffix, sub);
  }

  /**
   * One container of the loop in `find_matches_from_html`: skipped unless it
   * is listed, has an `h2` and its first link mentions `match=`; otherwise
   * the fixture with the normalised link and image, the info span as date
   * and the league read off the info image.
   */
  function Candidate(c: Container): (r: Option<Fixture>)
    ensures r.Some? <==>
              IsListed(c) && c.h2.Some? && c.href.Some? && Contains(c.href.value, "match=")
    ensures r.Some? ==> r.value.title == c.h2.value
    ensures r.Some? ==> Some(r.value.url) == NormalizeUrl(c.href.value)
    ensures r.Some? ==> Contains(r.value.url, "match=") && StartsWith(r.value.url, "http")
    ensures r.Some? ==> r.value.image == if c.imgSrc.Some? then NormalizeUrl(c.imgSrc.value) else None
    ensures r.Some? ==> r.value.date == if c.info.Some? then c.info.value.span else None
    ensures r.Some? ==> (r.value.league.Some? <==>
              c.info.Some? && c.info.value.leagueSrc.Some? && Contains(c.info.value.leagueSrc.value, "/x/"))
    ensures r.Some? && r.value.league.Some? ==> r.value.league == LeagueName(c.info.value.leagueSrc.value)
  {
    if !IsListed(c) || c.h2.None? || c.href.None? || !Contains(c.href.value, "match=") then None
    else
      var href := c.href.value;
      NormalizeUrlAbsolute(href);
      EndsWithContains(NormalizeUrl(href).value, href, "match=");
      var image := if c.imgSrc.Some? then NormalizeUrl(c.imgSrc.value) else None;
      var date := if c.info.Some? then c.info.value.span else None;
      var league :=
        if c.info.Some? && c.info.value.leagueSrc.Some? then LeagueName(c.info.value.leagueSrc.value)
        else None;
      Some(Fixture(c.h2.value, NormalizeUrl(href).value, image, date, league))
  }

  /** The fixtures of a page: the accepted containers, in page order. */
  function Fixtures(cs: seq<Container>): seq<Fixture> {
    FilterMap(cs, Candidate)
  }

  /** Page order is kept: the fixtures of two runs of containers are those of each, in turn. */
  lemma FixturesAppend(a: seq<Container>, b: seq<Container>)
    ensures Fixtures(a + b) == Fixtures(a) + Fixtures(b)
  {
    FilterMapAppend(a, b, Candidate);
  }

  /** Every fixture comes from a container, and there are never more fixtures than containers. */
  lemma FixturesSound(cs: seq<Container>)
    ensures |Fixtures(cs)| <= |cs|
    ensures forall f :: f in Fixtures(cs) ==> exists i :: 0 <= i < |cs| && Candidate(cs[i]) == Some(f)
  {
    FilterMapMembers(cs, Candidate);
  }

  /** Every container that yields a fixture has it listed. */
  lemma FixturesComplete(cs: seq<Container>)
    ensures forall i :: 0 <= i < |cs| && Candidate(cs[i]).Some? ==> Candidate(cs[i]).value in Fixtures(cs)
  {
    FilterMapComplete(cs, Candidate);
  }

  /** `find_matches_from_html`: appends the fixture of every accepted container. */
  method FindMatchesFromHtml(cs: seq<Container>) returns (matches: seq<Fixture>)
    ensures matches == Fixtures(cs)
  {
    matches := [];
    var i := 0;
    while i < |cs|
      invariant 0 <= i <= |cs|
      invariant matches == Fixtures(cs[..i])
    {
      assert cs[..i + 1][..i] == cs[..i];
      FilterMapStep(cs[..i + 1], Candidate);
      match Candidate(cs[i]) {
        case Some(f) => matches := matches + [f];
        case None =>
      }
      i := i + 1;
    }
    assert cs[..i] == cs;
  }
}
