/**
 * Hand-written recognisers for the six regular expressions the scraper uses,
 * and `re.search` over them. Each recogniser decides whether its pattern
 * matches at one position; for these patterns backtracking always ends in
 * the same single candidate, which is what the recogniser computes.
 */
module Patterns {
  import opened Wrappers
  import opened Strings
  import opened Urls

  datatype Pattern =
    /** `src`, then `:`, `{`, `hls`, `:` and a single-quoted protocol-relative URL (group `u`), then `}`; whitespace allowed between tokens */
    | HlsSource
    /** the same with `backupSrc` in place of `src` */
    | HlsBackup
    /** an optional `http:`/`https:` (group 1), `//`, a run of characters other than whitespace, quotes and `;` containing `.m3u8` after its first character */
    | M3u8Url
    /** `Filename: `, then the shortest non-empty text on the same line (group 1) that is followed by `.png` */
    | LogoFilename
    /** `URL: `, then `http://` or `https://` and a non-empty run of non-whitespace (group 1 is the URL) */
    | LogoUrlToken
    /** `URL: `, then `http://` or `https://` and the non-empty rest of the line (group 1 is the URL) */
    | LogoUrlLine

  /** A match: the whole matched text and group 1, when that group took part. */
  datatype Hit = Hit(whole: string, group: Option<string>)

  datatype CharClass = Space | NotQuote | UrlChar | NotSpace | NotNewline

  predicate InClass(c: char, k: CharClass) {
    match k
    case Space => IsSpace(c)
    case NotQuote => c != '\''
    case UrlChar => !IsSpace(c) && c != '\'' && c != '"' && c != ';'
    case NotSpace => !IsSpace(c)
    case NotNewline => c != '\n'
  }

  /** End of the longest run of characters of class `k` starting at `i`. */
  function RunEnd(s: string, i: nat, k: CharClass): (j: nat)
    requires i <= |s|
    ensures i <= j <= |s|
    ensures forall m :: i <= m < j ==> InClass(s[m], k)
    ensures j == |s| || !InClass(s[j], k)
    decreases |s| - i
  {
    if i < |s| && InClass(s[i], k) then RunEnd(s, i + 1, k) else i
  }

  /** The literal `lit` at `i`: the position after it. */
  function Lit(s: string, i: nat, lit: string): (r: Option<nat>)
    ensures r.Some? <==> OccursAt(s, lit, i)
    ensures r.Some? ==> r.value == i + |lit| && r.value <= |s|
  {
    if OccursAt(s, lit, i) then Some(i + |lit|) else None
  }

  /** Each token of `toks` in turn, each after optional whitespace: the position after the last. */
  function Tokens(s: string, i: nat, toks: seq<string>): (r: Option<nat>)
    requires i <= |s|
    ensures r.Some? ==> i <= r.value <= |s|
    decreases |toks|
  {
    if toks == [] then Some(i)
    else
      var b :- Lit(s, RunEnd(s, i, Space), toks[0]);
      Tokens(s, b, toks[1..])
  }

  function HlsAt(s: string, i: nat, key: string): (r: Option<Hit>)
    requires i <= |s|
    ensures r.Some? ==> r.value.group.Some? && |r.value.group.value| > 2
    ensures r.Some? ==> StartsWith(r.value.group.value, "//")
  {
    var a :- Lit(s, i, key);
    var g :- Tokens(s, a, [":", "{", "hls", ":", "'"]);
    var h :- Lit(s, g, "//");
    var t := RunEnd(s, h, NotQuote);
    if t == h then None
    else
      var q :- Lit(s, t, "'");
      var z :- Tokens(s, q, ["}"]);
      SliceStartsWith(s, g, t, "//");
      Some(Hit(s[i..z], Some(s[g..t])))
  }

  /** A slice starting where `lit` occurs, and reaching past it, starts with `lit`. */
  lemma SliceStartsWith(s: string, g: nat, t: nat, lit: string)
    requires OccursAt(s, lit, g) && g + |lit| <= t <= |s|
    ensures StartsWith(s[g..t], lit)
  {
    assert s[g..t][..|lit|] == s[g..g + |lit|];
  }

  function M3u8At(s: string, i: nat): (r: Option<Hit>)
    requires i <= |s|
    ensures r.Some? ==> Contains(r.value.whole, ".m3u8")
    ensures r.Some? && r.value.group.None? ==> StartsWith(r.value.whole, "//")
    ensures r.Some? && r.value.group.Some? ==>
              (r.value.group.value == "https:" || r.value.group.value == "http:")
              && StartsWith(r.value.whole, r.value.group.value + "//")
  {
    var scheme: Option<string> :=
      if OccursAt(s, "https:", i) then Some("https:")
      else if OccursAt(s, "http:", i) then Some("http:")
      else None;
    var pre := if scheme.Some? then scheme.value else "";
    var p := i + |pre|;
    var h :- Lit(s, p, "//");
    var t := RunEnd(s, h, UrlChar);
    if h < t && Contains(s[h + 1..t], ".m3u8") then
      M3u8Shape(s, i, t, pre);
      Some(Hit(s[i..t], scheme))
    else None
  }

  /** The text from a scheme through `//` to a run containing `.m3u8`: its shape. */
  lemma M3u8Shape(s: string, i: nat, t: nat, pre: string)
    requires OccursAt(s, pre, i) && OccursAt(s, "//", i + |pre|)
    requires i + |pre| + 2 < t <= |s| && Contains(s[i + |pre| + 3..t], ".m3u8")
    ensures Contains(s[i..t], ".m3u8") && StartsWith(s[i..t], pre + "//")
  {
    var h := i + |pre| + 2;
    assert s[i..t] == s[i..h + 1] + s[h + 1..t];
    ContainsAfterPrefix(s[i..h + 1], s[h + 1..t], ".m3u8");
    assert s[i..t][..h - i] == s[i..i + |pre|] + s[i + |pre|..h];
  }

  /** From `k` on, the first `.png` such that no newline lies between `k - 1` and it. */
  function PngEnd(s: string, k: nat): (r: Option<nat>)
    requires k >= 1
    ensures r.Some? ==> k <= r.value && OccursAt(s, ".png", r.value)
    ensures r.Some? ==> forall j :: k <= j < r.value ==> !OccursAt(s, ".png", j)
    ensures r.Some? ==> forall m :: k - 1 <= m < r.value ==> s[m] != '\n'
    decreases |s| + 1 - k
  {
    if k > |s| then None
    else if s[k - 1] == '\n' then None
    else if OccursAt(s, ".png", k) then Some(k)
    else PngEnd(s, k + 1)
  }

  function FilenameAt(s: string, i: nat): (r: Option<Hit>)
    requires i <= |s|
    ensures r.Some? ==> r.value.group.Some? && r.value.group.value != []
    ensures r.Some? ==> OccursAt(s, "Filename: ", i)
    ensures r.Some? ==>
              exists e :: i + 11 <= e && OccursAt(s, ".png", e)
                && r.value.whole == s[i..e + 4] && r.value.group.value == s[i + 10..e]
                && (forall j :: i + 11 <= j < e ==> !OccursAt(s, ".png", j))
                && (forall m :: i + 10 <= m < e ==> s[m] != '\n')
  {
    var a :- Lit(s, i, "Filename: ");
    var e :- PngEnd(s, a + 1);
    Some(Hit(s[i..e + 4], Some(s[a..e])))
  }

  function UrlFieldAt(s: string, i: nat, k: CharClass): (r: Option<Hit>)
    requires i <= |s|
    ensures r.Some? ==> r.value.group.Some? && IsAbsolute(r.value.group.value)
  {
    var a :- Lit(s, i, "URL: ");
    var b :- if OccursAt(s, "https://", a) then Some(a + 8)
             else if OccursAt(s, "http://", a) then Some(a + 7)
             else None;
    var t := RunEnd(s, b, k);
    if t == b then None
    else
      assert s[a..t][..b - a] == s[a..b];
      Some(Hit(s[i..t], Some(s[a..t])))
  }

  /** What a match of each pattern is known to look like. */
  predicate WellFormed(p: Pattern, h: Hit) {
    match p
    case HlsSource => h.group.Some? && |h.group.value| > 2 && StartsWith(h.group.value, "//")
    case HlsBackup => h.group.Some? && |h.group.value| > 2 && StartsWith(h.group.value, "//")
    case M3u8Url =>
      || (h.group.None? && StartsWith(h.whole, "//"))
      || (h.group.Some? && (h.group.value == "https:" || h.group.value == "http:")
          && StartsWith(h.whole, h.group.value + "//"))
    case LogoFilename => h.group.Some?
    case LogoUrlToken => h.group.Some? && IsAbsolute(h.group.value)
    case LogoUrlLine => h.group.Some? && IsAbsolute(h.group.value)
  }

  /** What a search result of pattern `p` may be: no match, or a well-formed match of `p`. */
  predicate HitOf(p: Pattern, m: Option<Hit>) {
    m.Some? ==> WellFormed(p, m.value)
  }

  /** Does `p` match at position `i` of `s`? */
  function MatchAt(p: Pattern, s: string, i: nat): (r: Option<Hit>)
    requires i <= |s|
    ensures r.Some? ==> WellFormed(p, r.value)
  {
    match p
    case HlsSource => HlsAt(s, i, "src")
    case HlsBackup => HlsAt(s, i, "backupSrc")
    case M3u8Url => M3u8At(s, i)
    case LogoFilename => FilenameAt(s, i)
    case LogoUrlToken => UrlFieldAt(s, i, NotSpace)
    case LogoUrlLine => UrlFieldAt(s, i, NotNewline)
  }

  /** The leftmost position, at or after `i`, where `p` matches. */
  function SearchFrom(p: Pattern, s: string, i: nat): (r: Option<nat>)
    requires i <= |s|
    ensures r.Some? ==> i <= r.value <= |s| && MatchAt(p, s, r.value).Some?
    ensures r.Some? ==> forall j :: i <= j < r.value ==> MatchAt(p, s, j).None?
    ensures r.None? ==> forall j :: i <= j <= |s| ==> MatchAt(p, s, j).None?
    decreases |s| - i
  {
    if MatchAt(p, s, i).Some? then Some(i)
    else if i == |s| then None
    else SearchFrom(p, s, i + 1)
  }

  /** `re.search(p, s)`: the match at the leftmost position where `p` matches. */
  function Search(p: Pattern, s: string): (r: Option<Hit>)
    ensures HitOf(p, r)
  {
    match SearchFrom(p, s, 0)
    case None => None
    case Some(j) => MatchAt(p, s, j)
  }

  /**
   * `Search` is leftmost-first: it fails exactly when the pattern matches
   * nowhere, and otherwise returns the match at the first position where it
   * matches.
   */
  lemma SearchLeftmost(p: Pattern, s: string)
    ensures Search(p, s).None? <==> forall j :: 0 <= j <= |s| ==> MatchAt(p, s, j).None?
    ensures Search(p, s).Some? ==>
              exists j :: 0 <= j <= |s| && Search(p, s) == MatchAt(p, s, j)
                          && forall m :: 0 <= m < j ==> MatchAt(p, s, m).None?
  {
    match SearchFrom(p, s, 0)
    case None =>
    case Some(j) =>
      assert Search(p, s) == MatchAt(p, s, j);
  }
}
