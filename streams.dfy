/**
 * Picking the playable stream address out of an embed page: the three
 * patterns tried in order, first hit wins, with `https:` put in front of a
 * protocol-relative address.
 */
module Streams {
  import opened Wrappers
  import opened Strings
  import opened Urls
  import opened Patterns

  /** The address a generic match stands for: protocol-relative ones get `https:`. */
  function AbsoluteMatch(u: string): string {
    if StartsWith(u, "//") then "https:" + u else u
  }

  /**
   * The cascade of `extract_m3u8_from_embed` on the three search results, in
   * the order the patterns are tried.
   */
  function EmbedCascade(m1: Option<Hit>, m2: Option<Hit>, m3: Option<Hit>): (r: Option<string>)
    requires HitOf(HlsSource, m1) && HitOf(HlsBackup, m2) && HitOf(M3u8Url, m3)
    ensures r.Some? ==> IsAbsolute(r.value)
    ensures m1.Some? || m2.Some? ==> r.Some? && StartsWith(r.value, "https://")
  {
    if m1.Some? then
      HttpsBeforeSlashes(m1.value.group.value);
      Some("https:" + m1.value.group.value)
    else if m2.Some? then
      HttpsBeforeSlashes(m2.value.group.value);
      Some("https:" + m2.value.group.value)
    else if m3.Some? then
      GenericMatchAbsolute(m3.value);
      Some(AbsoluteMatch(m3.value.whole))
    else None
  }

  /**
   * `extract_m3u8_from_embed` (scraper.py and app/scraper.py): `src` first,
   * then `backupSrc`, then a generic `.m3u8` address.
   */
  function ExtractM3u8FromEmbed(html: string): (r: Option<string>)
    ensures r.None? <==>
              Search(HlsSource, html).None? && Search(HlsBackup, html).None? && Search(M3u8Url, html).None?
    ensures Search(HlsSource, html).Some? ==>
              r == Some("https:" + Search(HlsSource, html).value.group.value)
    ensures Search(HlsSource, html).None? && Search(HlsBackup, html).Some? ==>
              r == Some("https:" + Search(HlsBackup, html).value.group.value)
    ensures Search(HlsSource, html).None? && Search(HlsBackup, html).None? && Search(M3u8Url, html).Some? ==>
              r == Some(AbsoluteMatch(Search(M3u8Url, html).value.whole))
    ensures Search(HlsSource, html).Some? || Search(HlsBackup, html).Some? ==>
              StartsWith(r.value, "https://")
    ensures r.Some? ==> IsAbsolute(r.value)
  {
    EmbedCascade(Search(HlsSource, html), Search(HlsBackup, html), Search(M3u8Url, html))
  }

  lemma HttpsBeforeSlashes(u: string)
    requires StartsWith(u, "//")
    ensures StartsWith("https:" + u, "https://")
  {
    assert ("https:" + u)[..8] == "https:" + u[..2];
  }

  lemma GenericMatchAbsolute(h: Hit)
    requires WellFormed(M3u8Url, h)
    ensures IsAbsolute(AbsoluteMatch(h.whole))
  {
    if h.group.None? {
      HttpsBeforeSlashes(h.whole);
    } else {
      assert h.whole[..|h.group.value|] == h.group.value;
      assert h.whole[..|h.group.value| + 2] == h.group.value + "//";
      if h.group.value == "https:" {
        assert h.whole[..8] == "https://";
      } else {
        assert h.whole[..7] == "http://";
      }
    }
  }

  /** The pattern list of main.py's `extract_m3u8`, in the order it is tried. */
  const StreamPatterns: seq<Pattern> := [HlsSource, HlsBackup, M3u8Url]

  /**
   * What main.py returns for a match: group 1 when the pattern has a group
   * that took part, the whole match otherwise, with `https:` put in front when
   * that starts with `//`.
   */
  function CoerceGroup(h: Hit): string {
    var u := if h.group.Some? then h.group.value else h.whole;
    if StartsWith(u, "//") then "https:" + u else u
  }

  /**
   * The loop of main.py's `extract_m3u8` over the search results of its
   * pattern list: the first pattern that matched decides.
   */
  function FirstCoerced(hits: seq<Option<Hit>>): Option<string>
    decreases |hits|
  {
    if hits == [] then None
    else if hits[0].Some? then Some(CoerceGroup(hits[0].value))
    else FirstCoerced(hits[1..])
  }

  /** The cascade reaches the generic pattern and that match carries an explicit scheme. */
  predicate SchemeOnlyHits(m1: Option<Hit>, m2: Option<Hit>, m3: Option<Hit>) {
    m1.None? && m2.None? && m3.Some? && m3.value.group.Some?
  }

  /**
   * On the same three results main.py's loop agrees with the embed cascade,
   * except in the scheme-only case, where it yields the scheme alone.
   */
  lemma FirstCoercedAgrees(m1: Option<Hit>, m2: Option<Hit>, m3: Option<Hit>)
    requires HitOf(HlsSource, m1) && HitOf(HlsBackup, m2) && HitOf(M3u8Url, m3)
    ensures !SchemeOnlyHits(m1, m2, m3) ==> FirstCoerced([m1, m2, m3]) == EmbedCascade(m1, m2, m3)
    ensures SchemeOnlyHits(m1, m2, m3) ==> FirstCoerced([m1, m2, m3]) == m3.value.group
    ensures SchemeOnlyHits(m1, m2, m3) ==> m3.value.group == Some("https:") || m3.value.group == Some("http:")
    ensures FirstCoerced([m1, m2, m3]).Some? ==> StartsWith(FirstCoerced([m1, m2, m3]).value, "http")
  {
    var hits := [m1, m2, m3];
    assert hits[1..] == [m2, m3] && hits[1..][1..] == [m3] && hits[1..][1..][1..] == [];
    if m1.Some? {
      assert m1.value.group.value[..2] == "//";
      AbsoluteStartsWithHttp(EmbedCascade(m1, m2, m3).value);
    } else if m2.Some? {
      assert FirstCoerced(hits) == FirstCoerced([m2, m3]);
      assert m2.value.group.value[..2] == "//";
      AbsoluteStartsWithHttp(EmbedCascade(m1, m2, m3).value);
    } else {
      assert FirstCoerced(hits) == FirstCoerced([m3]);
      if m3.None? {
        assert FirstCoerced([m3]) == FirstCoerced([]);
      } else if m3.value.group.Some? {
        var g := m3.value.group.value;
        assert g[..2][0] == g[0] == 'h';
        assert g[..4] == "http";
      } else {
        AbsoluteStartsWithHttp(EmbedCascade(m1, m2, m3).value);
      }
    }
  }

  /**
   * The cascade reaches the generic pattern and that match carries an explicit
   * scheme; main.py then returns only the scheme.
   */
  predicate ReachesSchemeOnly(html: string) {
    SchemeOnlyHits(Search(HlsSource, html), Search(HlsBackup, html), Search(M3u8Url, html))
  }

  /**
   * main.py's `extract_m3u8`. It agrees with `extract_m3u8_from_embed`
   * except when the first hit is a generic match with an explicit scheme:
   * then it yields just `http:` or `https:`.
   */
  function ExtractM3u8(html: string): (r: Option<string>)
    ensures !ReachesSchemeOnly(html) ==> r == ExtractM3u8FromEmbed(html)
    ensures ReachesSchemeOnly(html) ==> r == Search(M3u8Url, html).value.group
    ensures ReachesSchemeOnly(html) ==> r == Some("https:") || r == Some("http:")
    ensures r.Some? ==> StartsWith(r.value, "http")
  {
    var m1 := Search(HlsSource, html);
    var m2 := Search(HlsBackup, html);
    var m3 := Search(M3u8Url, html);
    var hits := seq(|StreamPatterns|, k requires 0 <= k < |StreamPatterns| => Search(StreamPatterns[k], html));
    assert hits == [m1, m2, m3];
    FirstCoercedAgrees(m1, m2, m3);
    FirstCoerced(hits)
  }

  /** In the scheme-only case the two variants really differ: the address is lost. */
  lemma SchemeOnlyLosesAddress(html: string)
    requires ReachesSchemeOnly(html)
    ensures ExtractM3u8(html) != ExtractM3u8FromEmbed(html)
    ensures |ExtractM3u8(html).value| < |ExtractM3u8FromEmbed(html).value|
  {
    var h := Search(M3u8Url, html).value;
    assert StartsWith(h.whole, h.group.value + "//");
  }
}
