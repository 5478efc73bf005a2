/**
 * The match detail page: which link leads to the embedded player.
 */
module Embed {
  import opened Wrappers
  import opened Strings
  import opened Urls

  /**
   * A detail page as `extract_embed_url` reads it: the `href` of the first
   * anchor with an `href` inside the first `div#player` (absent when there is
   * no such div or it holds no such anchor), and the `href` of every anchor
   * of the page that has one, in document order.
   */
  datatype DetailPage = DetailPage(playerHref: Option<string>, hrefs: seq<string>)

  /** The anchors the fallback scan accepts. */
  predicate IsEmbedHref(href: string) {
    Contains(href, "embed") || Contains(href, "spotlightmoment")
  }

  /** Index of the first accepted anchor at or after `from`. */
  function FirstEmbedFrom(hrefs: seq<string>, from: nat): (r: Option<nat>)
    requires from <= |hrefs|
    ensures r.Some? ==> from <= r.value < |hrefs| && IsEmbedHref(hrefs[r.value])
    ensures r.Some? ==> forall j :: from <= j < r.value ==> !IsEmbedHref(hrefs[j])
    ensures r.None? <==> forall j :: from <= j < |hrefs| ==> !IsEmbedHref(hrefs[j])
    decreases |hrefs| - from
  {
    if from == |hrefs| then None
    else if IsEmbedHref(hrefs[from]) then Some(from)
    else FirstEmbedFrom(hrefs, from + 1)
  }

  /**
   * `extract_embed_url` (the same in all three variants): the player link
   * if there is one, else the first anchor that mentions `embed` or
   * `spotlightmoment`, joined to the site base; nothing when there is neither.
   */
  function ExtractEmbedUrl(page: DetailPage): (r: Option<string>)
    ensures page.playerHref.Some? ==> r == Some(UrlJoin(page.playerHref.value))
    ensures page.playerHref.None? ==>
              (r.None? <==> forall j :: 0 <= j < |page.hrefs| ==> !IsEmbedHref(page.hrefs[j]))
    ensures page.playerHref.None? && r.Some? ==>
              exists k :: 0 <= k < |page.hrefs| && IsEmbedHref(page.hrefs[k])
                          && (forall j :: 0 <= j < k ==> !IsEmbedHref(page.hrefs[j]))
                          && r.value == UrlJoin(page.hrefs[k])
    ensures r.Some? ==> IsAbsolute(r.value)
  {
    if page.playerHref.Some? then Some(UrlJoin(page.playerHref.value))
    else
      match FirstEmbedFrom(page.hrefs, 0)
      case None => None
      case Some(k) => Some(UrlJoin(page.hrefs[k]))
  }

  /**
   * An embed address, once found, is joined to the base and so never empty:
   * the `if not embed` test of `process_match` only ever sees no address.
   */
  lemma EmbedUrlNonEmpty(page: DetailPage)
    requires ExtractEmbedUrl(page).Some?
    ensures |ExtractEmbedUrl(page).value| >= 7
  {
    var u := ExtractEmbedUrl(page).value;
    assert StartsWith(u, "http://") || StartsWith(u, "https://");
  }

  /** Anchors before the first accepted one, or after it, do not change the choice. */
  lemma {:induction false} FirstEmbedIgnoresOthers(pre: seq<string>, h: string, post: seq<string>)
    requires forall j :: 0 <= j < |pre| ==> !IsEmbedHref(pre[j])
    requires IsEmbedHref(h)
    ensures ExtractEmbedUrl(DetailPage(None, pre + [h] + post)) == Some(UrlJoin(h))
  {
    var hrefs := pre + [h] + post;
    assert hrefs[|pre|] == h;
    assert forall j :: 0 <= j < |pre| ==> hrefs[j] == pre[j];
    var k := FirstEmbedFrom(hrefs, 0);
    assert k == Some(|pre|);
  }
}
