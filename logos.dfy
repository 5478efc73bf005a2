/**
 * The team-logo catalog: parsing the published text file into a
 * filename-to-URL dict, and looking a team name up in it.
 */
module Logos {
  import opened Wrappers
  import opened Strings
  import opened OrderedDicts
  import opened Urls
  import opened Patterns

  /**
   * The two variants of the code: scraper.py and app/scraper.py take the URL
   * up to the first whitespace and also match single words of a team name;
   * main.py takes the URL as the rest of its line and matches whole names only.
   */
  datatype Variant = ScraperPy | MainPy

  /** The line of thirty hyphens that separates the blocks of the catalog file. */
  const Delimiter: string := "------------------------------"

  function UrlPattern(v: Variant): Pattern {
    match v
    case ScraperPy => LogoUrlToken
    case MainPy => LogoUrlLine
  }

  type Catalog = Dict<string, string>

  /** The entry made of a filename hit and a URL hit: both stripped, when both are there. */
  function EntryOf(name: Option<Hit>, url: Option<Hit>, v: Variant): (r: Option<(string, string)>)
    requires HitOf(LogoFilename, name) && HitOf(UrlPattern(v), url)
    ensures r.Some? <==> name.Some? && url.Some?
    ensures r.Some? ==> r.value == (Strip(name.value.group.value), Strip(url.value.group.value))
    ensures r.Some? ==> StartsWith(r.value.1, "http")
  {
    if name.None? || url.None? then None
    else
      var u := url.value.group.value;
      assert IsAbsolute(u);
      assert StartsWith(u, "http") by {
        if StartsWith(u, "http://") { assert u[..4] == u[..7][..4]; }
        else { assert u[..4] == u[..8][..4]; }
      }
      StripKeepsPrefix(u, "http");
      Some((Strip(name.value.group.value), Strip(u)))
  }

  /** The entry one block contributes, from the first filename and the first URL field in it. */
  function BlockEntry(block: string, v: Variant): Option<(string, string)> {
    EntryOf(Search(LogoFilename, block), Search(UrlPattern(v), block), v)
  }

  /** The entries of the blocks, in block order. */
  function Entries(blocks: seq<string>, v: Variant): (es: seq<(string, string)>)
    ensures forall e :: e in es ==> StartsWith(e.1, "http")
    decreases |blocks|
  {
    if blocks == [] then []
    else
      var prev := Entries(blocks[..|blocks| - 1], v);
      match BlockEntry(blocks[|blocks| - 1], v)
      case Some(e) => prev + [e]
      case None => prev
  }

  lemma EntriesStep(blocks: seq<string>, i: nat, v: Variant)
    requires i < |blocks|
    ensures Entries(blocks[..i + 1], v) == Entries(blocks[..i], v) +
              (if BlockEntry(blocks[i], v).Some? then [BlockEntry(blocks[i], v).value] else [])
  {
    assert blocks[..i + 1][..i] == blocks[..i];
  }

  /**
   * The dict the catalog text yields, assigning the entries in order; no
   * response (the request raised) yields the empty dict. In scraper.py and
   * app/scraper.py an error status raises too (`raise_for_status`), whereas
   * main.py parses the body of an error response like any other.
   */
  function CatalogOf(response: Option<string>, v: Variant): Catalog {
    match response
    case None => []
    case Some(text) => FromPairs(Entries(Split(text, Delimiter), v))
  }

  /**
   * The parsing half of `fetch_and_parse_logos` (scraper.py, app/scraper.py)
   * and `fetch_logos` (main.py): `logo_dict[filename] = url` for every block
   * with both fields.
   */
  method ParseCatalog(response: Option<string>, v: Variant) returns (d: Catalog)
    ensures DistinctKeys(d)
    ensures d == CatalogOf(response, v)
  {
    d := [];
    if response.None? {
      return;
    }
    var blocks := Split(response.value, Delimiter);
    var i := 0;
    while i < |blocks|
      invariant 0 <= i <= |blocks|
      invariant d == FromPairs(Entries(blocks[..i], v))
    {
      var entry := BlockEntry(blocks[i], v);
      ghost var before := Entries(blocks[..i], v);
      EntriesStep(blocks, i, v);
      if entry.Some? {
        assert Entries(blocks[..i + 1], v) == before + [entry.value];
        FromPairsSnoc(before, entry.value);
        d := Put(d, entry.value.0, entry.value.1);
      } else {
        assert Entries(blocks[..i + 1], v) == before;
      }
      i := i + 1;
    }
    assert blocks[..i] == blocks;
  }

  /**
   * What the catalog holds: every URL starts with `http`; a filename sits
   * where it first appeared; when it appears again, the last block's URL wins.
   */
  lemma {:induction false} CatalogShape(text: string, v: Variant)
    ensures var es := Entries(Split(text, Delimiter), v);
            var d := CatalogOf(Some(text), v);
            && (forall i :: 0 <= i < |d| ==> StartsWith(d[i].1, "http"))
            && Keys(d) == FirstSeen(Keys(es))
            && forall k :: Get(d, k) == LastValue(es, k)
  {
    var es := Entries(Split(text, Delimiter), v);
    var d := CatalogOf(Some(text), v);
    FromPairsElements(es);
    FromPairsKeys(es);
    forall k ensures Get(d, k) == LastValue(es, k) {
      FromPairsLastWins(es, k);
    }
    forall i | 0 <= i < |d| ensures StartsWith(d[i].1, "http") {
      assert d[i] in d;
    }
  }

  /** Does a logo filename answer for the (lowered, stripped) team name `t`? */
  predicate EntryMatches(name: string, t: string, v: Variant) {
    var words := Split(name, "-");
    || t in words
    || (v == ScraperPy && exists w :: w in Words(t) && w in words)
  }

  /** The first entry at or after `from`, in dict order, whose filename answers for `t`. */
  function ScanFrom(d: Catalog, t: string, v: Variant, from: nat): (r: Option<nat>)
    requires from <= |d|
    ensures r.Some? ==> from <= r.value < |d| && EntryMatches(d[r.value].0, t, v)
    ensures r.Some? ==> forall j :: from <= j < r.value ==> !EntryMatches(d[j].0, t, v)
    ensures r.None? <==> forall j :: from <= j < |d| ==> !EntryMatches(d[j].0, t, v)
    decreases |d| - from
  {
    if from == |d| then None
    else if EntryMatches(d[from].0, t, v) then Some(from)
    else ScanFrom(d, t, v, from + 1)
  }

  /** The key tried first: the lowered, stripped name with spaces as hyphens. */
  function ExactKey(team: string): string {
    ReplaceAll(Strip(Lower(team)), " ", "-")
  }

  /**
   * `find_logo_url` (scraper.py, app/scraper.py) and `find_logo` (main.py):
   * the URL under the exact key if present, else the URL of the first entry
   * whose filename answers for the name, else the empty string.
   */
  function FindLogo(team: string, d: Catalog, v: Variant): string {
    match Find(d, ExactKey(team))
    case Some(i) => d[i].1
    case None =>
      match ScanFrom(d, Strip(Lower(team)), v, 0)
      case Some(i) => d[i].1
      case None => ""
  }

  /**
   * What `FindLogo` returns: the URL under the exact key when that key is
   * present; otherwise the URL of the first entry, in dict order, whose
   * filename answers for the name; otherwise the empty string. So the
   * result is always empty or one of the dict's URLs.
   */
  lemma FindLogoSpec(team: string, d: Catalog, v: Variant)
    ensures var r := FindLogo(team, d, v);
            var t := Strip(Lower(team));
            && (Find(d, ExactKey(team)).Some? ==> Get(d, ExactKey(team)) == Some(r))
            && (Find(d, ExactKey(team)).None? && ScanFrom(d, t, v, 0).None? ==> r == "")
            && (Find(d, ExactKey(team)).None? && ScanFrom(d, t, v, 0).Some? ==>
                  exists k :: 0 <= k < |d| && EntryMatches(d[k].0, t, v)
                              && (forall j :: 0 <= j < k ==> !EntryMatches(d[j].0, t, v))
                              && r == d[k].1)
            && (r == "" || exists i :: 0 <= i < |d| && d[i].1 == r)
  {
  }

  /**
   * main.py's whole-name scan is a narrowing of the other variants' scan: an
   * entry it accepts, the word-matching scan accepts too, at the same index
   * or an earlier one.
   */
  lemma WholeNameScanNarrower(d: Catalog, t: string)
    requires ScanFrom(d, t, MainPy, 0).Some?
    ensures ScanFrom(d, t, ScraperPy, 0).Some?
    ensures ScanFrom(d, t, ScraperPy, 0).value <= ScanFrom(d, t, MainPy, 0).value
  {
    var i := ScanFrom(d, t, MainPy, 0).value;
    assert EntryMatches(d[i].0, t, ScraperPy);
  }

  /** For a one-word team name both variants find the same logo. */
  lemma OneWordNamesAgree(team: string, d: Catalog)
    requires Strip(Lower(team)) != [] && HasNoSpace(Strip(Lower(team)))
    ensures FindLogo(team, d, ScraperPy) == FindLogo(team, d, MainPy)
  {
    var t := Strip(Lower(team));
    WordsOfOneWord(t);
    assert forall name :: EntryMatches(name, t, ScraperPy) == EntryMatches(name, t, MainPy);
    ScansAgree(d, t, 0);
  }

  lemma {:induction false} ScansAgree(d: Catalog, t: string, from: nat)
    requires from <= |d|
    requires forall name :: EntryMatches(name, t, ScraperPy) == EntryMatches(name, t, MainPy)
    ensures ScanFrom(d, t, ScraperPy, from) == ScanFrom(d, t, MainPy, from)
    decreases |d| - from
  {
    if from < |d| {
      ScansAgree(d, t, from + 1);
    }
  }

  /** The exact key beats any scan: when it is present, no other entry is consulted. */
  lemma ExactKeyWins(team: string, d: Catalog, v: Variant, u: string)
    requires DistinctKeys(d) && (ExactKey(team), u) in d
    ensures FindLogo(team, d, v) == u
  {
    var i :| 0 <= i < |d| && d[i] == (ExactKey(team), u);
    FindUnique(d, ExactKey(team), i);
  }
}
