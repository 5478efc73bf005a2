# hoofoot highlight scraper — a Dafny model

The repository scrapes the match listing of `https://hoofoot.com/`, follows
each fixture to its detail page and embedded player, pulls the HLS (`.m3u8`)
stream address out of the player page, and pairs each fixture with team logos
taken from a published text catalog. It has three variants of the same
pipeline:

- `scraper.py` and `app/scraper.py`: a batch scraper (`process_match`, then
  `process_matches_to_json`, which groups streams by title);
- `main.py`: a FastAPI service whose background thread runs `scrape_full`
  and writes a cache file, and whose `/matches` endpoint serves that cache
  while it is fresh (twenty minutes) and answers 503 otherwise;
- `app/main.py`: the same endpoint over a cache written by `app/scraper.py`.

The model keeps the pipeline's own stages as modules:

- `Strings`: the Python string operations the code uses.
- `Sequences`: mapping a list through a step that may skip an element, the shape of every list-building loop here.
- `OrderedDicts`: an insertion-ordered dict, with Python's assignment semantics.
- `Urls`: `normalize_url` and `urljoin` against the site base.
- `Patterns`: the six regular expressions, as position-by-position recognisers with leftmost search.
- `Listing`: the listing page and `find_matches_from_html`.
- `Embed`: `extract_embed_url`.
- `Streams`: the two stream-address cascades.
- `Resolver`: `process_match`.
- `Logos`: the catalog parser and the team lookup.
- `Aggregator`: `process_matches_to_json`.
- `Service`: `scrape_full`, the cache and the endpoint.

Fetching and HTML parsing are parameters:

- A page fetch is a function from URL to body. `None` stands for an exception in `app/scraper.py`; `""` stands for a failed fetch in `main.py`.
- A parsed page is a record of exactly the elements the code reads.

Loops that build results step by step are methods proved equal to functions of their inputs:

- `FindMatchesFromHtml` (listing);
- `ParseCatalog` (logo catalog);
- `BuildGroups` and `ProcessMatchesToJson` (grouping and records);
- `ScrapeFull` (`scrape_full`).

Lemmas then prove what the code promises about those functions.

`scraper.py` and `app/scraper.py` differ only in their fetch. The first (scraper.py:44-51) returns `""` both on an exception and on a status other than 200. The second (app/scraper.py:20-34) lets exceptions escape and returns the body of a non-200 response as it would any other. Both share one model. `main.py` differs from them as follows:

- its logo lookup has no per-word fallback;
- its logo URL pattern takes the rest of the line;
- `scrape_full` makes one record per fixture, with no grouping, and defaults date and league to `""`;
- its stream cascade keeps the defect listed under "## Findings".

The model keeps each of these differences as a `Variant` parameter or as a separate member.

## Model

| member | source | states |
|---|---|---|
| Strings.SplitJoin | scraper.py:184 | joining the pieces of `s.split(sep)` with `sep` gives `s` back |
| Strings.SplitOnce | scraper.py:246 | `split(" v ", 1)` cuts at the first occurrence: `s == a + sep + b` and `a` holds no `sep` |
| Strings.StripShape | scraper.py:191-192 | the result of `strip()` neither starts nor ends with whitespace, and stripping twice is stripping once |
| Strings.StripInfix | scraper.py:191-192 | the result of `strip()` is an infix `s[i..j]` of the text with only whitespace before `i` and after `j` |
| Strings.WordsShape | scraper.py:214 | every word of `split()` is non-empty and holds no whitespace |
| Strings.WordsOfOneWord | scraper.py:214 | `split()` of a non-empty text without whitespace is that one word |
| Strings.ReplaceCharRemovesIt | scraper.py:101 | after replacing `_` by a space no `_` remains |
| OrderedDicts.Find | scraper.py:204-206 | `k in d` / `d[k]`: the index of key `k`, none exactly when the key is absent |
| OrderedDicts.Put | scraper.py:193 | `d[k] = v`: keys stay distinct, `k` now maps to `v`, other keys keep their values, a new key goes last and an existing one keeps its place |
| OrderedDicts.FirstSeenSpec | scraper.py:232-233 | first-seen order holds exactly the elements of the input, each once, in order of first appearance |
| OrderedDicts.FromPairsLastWins | scraper.py:186-193 | after assigning a run of pairs, each key maps to its last assigned value |
| OrderedDicts.FromPairsKeys | scraper.py:186-193 | after assigning a run of pairs, the keys are in the order of their first assignment |
| Urls.UrlJoin | scraper.py:122 | `urljoin(BASE, ref)`: absolute, ends with `ref`; an absolute `ref` is kept, a `//` one gets `https:` |
| Urls.UrlJoinIdempotent | scraper.py:125 | joining an already joined address again changes nothing |
| Urls.NormalizeUrl | scraper.py:56-65 | none for an empty source; `//` gets `https:`; `http…` is kept; anything else is joined to the base (the same as app/scraper.py:36-45 and main.py:58-64) |
| Urls.NormalizeUrlAbsolute | scraper.py:56-65 | a normalized address starts with `http` and ends with its source |
| Urls.NormalizeUrlIdempotent | scraper.py:56-65 | normalizing a normalized address changes nothing |
| Patterns.RunEnd | scraper.py:129 | a character-class run (`\s*`, `[^']+`, …) is maximal: every character in it is in the class and the next is not |
| Patterns.HlsAt | scraper.py:129 | a `src: {hls: '//…'}` match captures a group starting with `//` and longer than two characters |
| Patterns.M3u8At | scraper.py:135 | a generic match contains `.m3u8`; without the scheme group it starts with `//`, with it the group is `http:` or `https:` and begins the match |
| Patterns.FilenameAt | scraper.py:187 | a match at `i` starts with `Filename: ` and spans `s[i..e+4]` for the first `.png` at some `e >= i+11` with no newline in `s[i+10..e]`; the captured name is the non-empty `s[i+10..e]` |
| Patterns.UrlFieldAt | scraper.py:188 | a `URL: (https?://…)` match captures an absolute address (the same as main.py:121 for the line-long variant) |
| Patterns.SearchFrom | scraper.py:129 | `re.search` from a position: the leftmost matching position, none exactly when no position matches |
| Patterns.Search | scraper.py:129 | a search hit is well formed for its pattern |
| Patterns.SearchLeftmost | scraper.py:135 | `re.search` finds nothing exactly when no position matches, and otherwise the leftmost match |
| Streams.EmbedCascade | scraper.py:128-141 | the cascade over the three pattern hits yields an absolute address, an `https://` one whenever the player source or backup matched |
| Streams.ExtractM3u8FromEmbed | scraper.py:128-141 | nothing exactly when none of the three patterns matches; the player source wins, then the backup source, each prefixed with `https:`; otherwise the whole generic match, prefixed with `https:` when protocol-relative; the result is absolute |
| Streams.GenericMatchAbsolute | scraper.py:137-140 | a generic `.m3u8` match, scheme-relative or not, becomes an absolute address |
| Streams.HttpsBeforeSlashes | scraper.py:131 | prefixing a `//` address with `https:` gives an `https://` address |
| Streams.FirstCoercedAgrees | main.py:104-113 | main.py's loop over the patterns gives the same as the batch cascade, except when the generic pattern matches with an explicit scheme, where it gives the scheme group |
| Streams.ExtractM3u8 | main.py:103-113 | main.py's `extract_m3u8`: equal to the batch cascade except in the scheme-only case, where the result is `http:` or `https:`; any result starts with `http` |
| Streams.SchemeOnlyLosesAddress | main.py:111 | in the scheme-only case main.py's result differs from, and is shorter than, the full address |
| Listing.LeagueName | scraper.py:100-102 | no league name without `/x/` in the image source; otherwise a name without `_` |
| Listing.LeagueNameFromTail | scraper.py:101 | the league name is the text after the last `/x/`, with `.jpg` removed and `_` turned into spaces |
| Listing.Candidate | scraper.py:71-110 | a container yields a fixture exactly when its id starts with `port`, it has a title and a link whose address contains `match=`; title, normalized url and image, date and league are taken as the code reads them |
| Listing.FixturesAppend | scraper.py:71-110 | the fixtures of two runs of containers are those of each, in turn |
| Listing.FixturesSound | scraper.py:104-110 | at most one fixture per container, each from some container |
| Listing.FixturesComplete | scraper.py:104-110 | every container that qualifies yields its fixture |
| Listing.FindMatchesFromHtml | scraper.py:67-114 | the loop appends exactly the fixtures of the listed containers, in page order |
| Embed.FirstEmbedFrom | scraper.py:123-125 | the first anchor at or after a position that mentions `embed` or `spotlightmoment`, none exactly when there is none |
| Embed.ExtractEmbedUrl | scraper.py:116-126 | the `div#player` link wins; otherwise the first anchor mentioning `embed`/`spotlightmoment`, none exactly when there is none; the address is joined to the base |
| Embed.EmbedUrlNonEmpty | scraper.py:146-147 | a found embed address is never empty, so `if not embed` only sees a missing one |
| Embed.FirstEmbedIgnoresOthers | scraper.py:123-125 | anchors before the first accepted one, and all after it, do not change the choice |
| Resolver.ProcessMatch | scraper.py:143-174 | fixture fields copied; an embed address exactly when both fetches succeed and the page has an embed link; the stream is the cascade over the embed page; an exception gives neither (app/scraper.py:124-155 over the raising fetch of app/scraper.py:20-34) |
| Resolver.NonRaisingFetchKeepsEmbed | scraper.py:17-54 | with scraper.py's fetch, which never raises, a found embed link is always kept |
| Logos.EntryOf | scraper.py:187-193 | a block yields an entry exactly when both its filename and URL fields match; both are stripped and the URL starts with `http` |
| Logos.Entries | scraper.py:184-193 | every URL of every block entry starts with `http` |
| Logos.EntriesStep | scraper.py:186-193 | one more block adds its entry, if any, at the end |
| Logos.ParseCatalog | scraper.py:176-199 | the loop builds the dict of assigning every block's entry in order; no response gives `{}`; keys stay distinct |
| Logos.CatalogShape | scraper.py:183-193 | every URL starts with `http`; a filename sits where it first appeared and maps to the URL of its last block |
| Logos.ScanFrom | scraper.py:208-217 | the first entry, in dict order, whose hyphen-split filename holds the name or, in scraper.py, one of its words |
| Logos.FindLogoSpec | scraper.py:201-219 | the URL under the exact key if present; otherwise that of the first answering entry; otherwise `""`; so always empty or a catalog URL (main.py:129-137 without the word fallback) |
| Logos.WholeNameScanNarrower | main.py:134-136 | main.py's whole-name scan finds an entry only if the word scan does, at the same index or earlier |
| Logos.OneWordNamesAgree | main.py:129-137 | for a one-word team name main.py's lookup and scraper.py's agree |
| Logos.ExactKeyWins | scraper.py:204-206 | when the exact key is in the catalog its URL is returned, whatever the other entries |
| Aggregator.StreamUrl | scraper.py:230 | a stream URL is the stream address with the referer suffix |
| Aggregator.StreamsOf | scraper.py:227-240 | every URL collected for a title ends with the referer suffix |
| Aggregator.StreamTitlesMembers | scraper.py:227-240 | a title has a streamed entry exactly when it has a first entry and exactly when its stream list is non-empty |
| Aggregator.TitlesMembers | scraper.py:227-240 | a title is grouped exactly when some entry with a truthy stream carries it, exactly when its stream list is non-empty |
| Aggregator.FirstWithIsFirst | scraper.py:232-238 | a group's image, date and league come from the first streamed entry with that title |
| Aggregator.FirstWithNone | scraper.py:232-238 | with no first entry for a title, no entry with that title has a stream |
| Aggregator.FirstWithFound | scraper.py:232-238 | a streamed entry with a title gives that title a first entry |
| Aggregator.GroupStep | scraper.py:229-240 | one more entry either leaves the groups alone, opens a group for a new title, or appends its stream to the title's group |
| Aggregator.SidesSplit | scraper.py:245-262 | home is the stripped text before the first ` v `, away the stripped rest, each with its logo looked up unstripped |
| Aggregator.RecordsStreams | scraper.py:242-266 | every record has at least one stream URL and each ends with the referer suffix |
| Aggregator.RecordsCount | scraper.py:242-266 | never more records than titles; one per title when every title holds ` v `; none when no title does |
| Aggregator.OutputStreams | scraper.py:221-266 | every output record has at least one stream URL and each ends with the referer suffix |
| Aggregator.Absorb | scraper.py:229-240 | adding one entry to the groups keeps keys distinct |
| Aggregator.AbsorbKeys | scraper.py:229-240 | adding one entry leaves the group order alone or appends the new title |
| Aggregator.AbsorbValues | scraper.py:229-240 | adding one entry changes only its own title's group |
| Aggregator.AbsorbOwnTitle | scraper.py:232-240 | adding one entry opens or extends its own title's group as the code does |
| Aggregator.AbsorbOtherTitle | scraper.py:229-240 | adding one entry leaves the other titles' groups as they were |
| Aggregator.AbsorbStep | scraper.py:229-240 | the grouping loop's invariant survives one more entry |
| Aggregator.BuildGroups | scraper.py:227-240 | the grouping loop leaves each title with a truthy stream once, in first-seen order, with its first entry's metadata and all its stream URLs |
| Aggregator.RecordsStep | scraper.py:244-263 | emitting the next group adds its record exactly when its title holds ` v ` |
| Aggregator.ProcessMatchesToJson | scraper.py:221-266 | the two loops return exactly the records of the grouped titles, in first-seen order |
| Service.StreamFor | main.py:151-155 | an empty detail page gives no stream; any stream starts with `http` and is main.py's cascade over the fetched embed page |
| Service.StreamForSufficient | main.py:151-155 | conversely, a non-empty detail page with an embed link always gives main.py's cascade over the embed page, and one without an embed link gives no stream |
| Service.ScrapedRecord | main.py:157-165 | one record per fixture: a single referer-suffixed stream URL, date and league defaulting to `""`, sides split at the first ` v ` |
| Service.StreamsStartWithHttp | main.py:151-155 | every stream address `scrape_full` can obtain starts with `http` |
| Sequences.FilterMapAppend | main.py:149-166 | collecting over two runs of inputs gives the results of each, in turn (the shape of both the fixture loop and the listing loop) |
| Sequences.FilterMapMembers | main.py:149-166 | at most one result per input, each the result of some input |
| Sequences.FilterMapComplete | scraper.py:104-110 | every present result of an input appears in the output |
| Service.ScrapedAllStep | main.py:149-166 | one more fixture adds its record, if it has one, at the end |
| Service.FixtureRecordShape | main.py:156-165 | a fixture's record has one stream URL, starting with `http` and ending with the referer suffix, and a date and league |
| Service.ScrapedAllShape | main.py:140-167 | a scrape never has more records than fixtures; each has one `http` stream URL with the referer suffix and a date and league |
| Service.ScrapedAllAppend | main.py:149-166 | records keep listing order |
| Service.ScrapeFull | main.py:140-167 | an empty home page gives `[]`; otherwise exactly the records of the listed fixtures with a stream and a ` v ` title, in order |
| Service.ReadCache | main.py:170-176 | the cached matches exactly when the file is readable, has both keys and is under 1200 seconds old |
| Service.CacheWindow | main.py:174 | a scrape written at `t` is served strictly before `t + 1200` and not at `t + 1200` |
| Service.StaleStaysStale | main.py:170-176 | an expired or missing cache stays unavailable until the file changes |
| Service.RefreshGap | main.py:188-194 | while the last file written at `written` is left as it is, `/matches` finds nothing throughout `[written+1200, written+1200+d)`, the `d > 0` seconds a refresh started at expiry takes |
| Service.GetMatches | main.py:207-212 | `/matches` serves the cache, and answers 503 exactly when it is unavailable |
| Service.CachedMatches | app/main.py:35-52 | app/main.py agrees with main.py when a timestamp is present, and reads a missing timestamp as 0 |

## Left out

- Network I/O is not modelled: pycurl and `requests`, timeouts, headers and status codes. Each fetch is a parameter, and the same URL is taken to give the same body within one run.
- HTML parsing (BeautifulSoup) is not modelled. Pages are records of the elements the code reads: for each container its id, `h2` text, first link, image and info block; for a detail page the player link and the anchors' `href`s.
- General regular-expression semantics are not modelled. Each of the six patterns is a hand-written recogniser that follows its pattern.
- Urls.UrlJoin: covers the four reference shapes the site produces. It does not resolve dot segments, queries or other schemes the way `urllib.parse.urljoin` does.
- Strings.Lower: folds ASCII letters only, where Python's `lower()` folds all of Unicode.
- The logo request itself is not modelled. A request that raises is a missing response and gives `{}`. In `scraper.py` and `app/scraper.py` an error status raises as well (`raise_for_status`, scraper.py:180). `main.py` has no such call, so the body of an error response is parsed like any other text.
- Time is a `real` parameter, with no clock.
- `time.sleep`, the thread started by `lifespan`, the endless loop of `cache_refresher` and the schedulers in `scheduler.py` and `app/scheduler.py` are not modelled: they are concurrency and timing. `RefreshGap` states the timing consequence.
- FastAPI routing, the API-key checks (`check_key`, `verify_api_key`), `/`, `/health` and uvicorn start-up are not modelled: they are unrelated to the scraping core.
- Writing the cache file and JSON encoding are not modelled: they are I/O. The cache file is a record of its `timestamp` and `matches` entries, absent when missing. An unreadable file, and app/main.py's `os.path.exists` check, become a missing file.
- The drivers `main()` and `run_scraping_job`, logging and `print` are not modelled.
- Python list identity is not modelled: the grouping stores lists in dicts, and lists are values here.

## Findings

| source | as written | input that shows it | evidently intended | confidence | as-written member | corrected member |
|---|---|---|---|---|---|---|
| main.py:111 | for the generic `.m3u8` pattern the code returns capture group 1 whenever a group took part in the match, and for that pattern group 1 is only the optional `https?:` scheme | an embed page whose only stream address is `https://cdn.example/v/index.m3u8` gives `https:` instead of the address | return the whole match for the generic pattern, as scraper.py:135-140 does | high; not executed | Streams.ExtractM3u8 (Streams.SchemeOnlyLosesAddress exhibits it) | Streams.ExtractM3u8FromEmbed (Streams.FirstCoercedAgrees shows they agree elsewhere) |
