/**
 * URL handling of the scraper: `urljoin` against the site base and
 * `normalize_url`, which is the same in all three scraper variants.
 */
module Urls {
  import opened Wrappers
  import opened Strings

  /** The site every listing, detail and embed link is resolved against. */
  const Base: string := "https://hoofoot.com/"
  const Origin: string := "https://hoofoot.com"

  predicate IsAbsolute(u: string) {
    StartsWith(u, "http://") || StartsWith(u, "https://")
  }

  /**
   * `urljoin(BASE, ref)` for references that are absolute http(s) URLs,
   * protocol-relative, root-relative or relative without dot-segments.
   * The result is absolute and ends with the reference; an absolute
   * reference comes back unchanged.
   */
  function UrlJoin(ref: string): (r: string)
    ensures IsAbsolute(r)
    ensures EndsWith(r, ref)
    ensures IsAbsolute(ref) ==> r == ref
    ensures StartsWith(ref, "//") ==> r == "https:" + ref
  {
    if IsAbsolute(ref) then
      assert ref[..2][0] == ref[0] == 'h';
      ref
    else if StartsWith(ref, "//") then "https:" + ref
    else if StartsWith(ref, "/") then Origin + ref
    else Base + ref
  }

  /** Joining an already joined URL changes nothing. */
  lemma UrlJoinIdempotent(ref: string)
    ensures UrlJoin(UrlJoin(ref)) == UrlJoin(ref)
  {
  }

  /**
   * `normalize_url(src)`: nothing for an empty source, `https:` in front of a
   * protocol-relative one, an `http`-prefixed one as it is, anything else
   * joined to the base.
   */
  function NormalizeUrl(src: string): (r: Option<string>)
    ensures r.None? <==> src == ""
    ensures StartsWith(src, "//") ==> r == Some("https:" + src)
    ensures StartsWith(src, "http") ==> r == Some(src)
    ensures src != "" && !StartsWith(src, "//") && !StartsWith(src, "http") ==> r == Some(UrlJoin(src))
  {
    if src == "" then None
    else if StartsWith(src, "//") then
      assert src[..2][0] == src[0] == '/';
      Some("https:" + src)
    else if StartsWith(src, "/") then
      assert src[..1][0] == src[0] == '/';
      Some(UrlJoin(src))
    else if !StartsWith(src, "http") then Some(UrlJoin(src))
    else Some(src)
  }

  /**
   * Every normalized URL starts with `http` and ends with its source, and for
   * the four shapes of reference (protocol-relative, root-relative, bare and
   * absolute) it is an absolute http(s) URL.
   */
  lemma NormalizeUrlAbsolute(src: string)
    requires src != ""
    ensures NormalizeUrl(src).Some? && StartsWith(NormalizeUrl(src).value, "http")
    ensures EndsWith(NormalizeUrl(src).value, src)
    ensures !StartsWith(src, "http") || IsAbsolute(src) ==> IsAbsolute(NormalizeUrl(src).value)
  {
    var r := NormalizeUrl(src).value;
    if StartsWith(src, "//") {
      assert r == "https:" + src;
      EndsWithConcat("https:", src);
      assert r[..8] == "https:" + src[..2];
      StartsWithTrans(r, "https://", "http");
    } else if StartsWith(src, "http") {
      assert r == src;
      if IsAbsolute(src) {
        AbsoluteStartsWithHttp(src);
      }
    } else {
      assert r == UrlJoin(src);
      AbsoluteStartsWithHttp(r);
    }
  }

  lemma AbsoluteStartsWithHttp(u: string)
    requires IsAbsolute(u)
    ensures StartsWith(u, "http")
  {
    if StartsWith(u, "http://") {
      StartsWithTrans(u, "http://", "http");
    } else {
      StartsWithTrans(u, "https://", "http");
    }
  }

  /** Normalizing a normalized URL gives it back. */
  lemma NormalizeUrlIdempotent(src: string)
    requires src != ""
    ensures NormalizeUrl(NormalizeUrl(src).value) == NormalizeUrl(src)
  {
    NormalizeUrlAbsolute(src);
    var r := NormalizeUrl(src).value;
    assert r[..4] == "http";
  }
}
