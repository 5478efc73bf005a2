/**
 * `process_matches_to_json` of scraper.py and app/scraper.py: the resolved
 * matches grouped by title, in first-seen order, and turned into home/away
 * records with team logos and referer-suffixed stream URLs.
 */
module Aggregator {
  import opened Wrappers
  import opened Strings
  import opened OrderedDicts
  import opened Logos
  import opened Resolver

  /** The header suffix every stream URL carries for the player. */
  const Referer: string := "|Referer=https://hoofootay4.spotlightmoment.com/"

  /** An entry counts only with a truthy `m3u8`: present and non-empty. */
  predicate Streamable(m: Resolved) {
    m.m3u8.Some? && m.m3u8.value != ""
  }

  function StreamUrl(m: Resolved): (u: string)
    requires Streamable(m)
    ensures EndsWith(u, Referer) && StartsWith(u, m.m3u8.value)
  {
    m.m3u8.value + Referer
  }

  /** A side of a fixture: the team name and its logo URL (empty when none was found). */
  datatype Side = Side(name: string, logoUrl: string)

  /** One record of the JSON output. */
  datatype MatchRecord = MatchRecord(
    home: Side,
    away: Side,
    streamUrls: seq<string>,
    date: Option<string>,
    league: Option<string>)

  /** The per-title group: metadata of its first entry and all its stream URLs. */
  datatype Group = Group(image: string, streamUrls: seq<string>, date: Option<string>, league: Option<string>)

  /** `image or ''` */
  function ImageOf(m: Resolved): string {
    if m.image.Some? then m.image.value else ""
  }

  /** The titles of the entries with a stream, in input order, repeats kept. */
  function StreamTitles(ms: seq<Resolved>): seq<string>
    decreases |ms|
  {
    if ms == [] then []
    else
      var m := ms[|ms| - 1];
      StreamTitles(ms[..|ms| - 1]) + (if Streamable(m) then [m.title] else [])
  }

  /** The group titles: each title with a stream once, where it first appears. */
  function Titles(ms: seq<Resolved>): seq<string> {
    FirstSeen(StreamTitles(ms))
  }

  /** The stream URLs of title `t`, in input order. */
  function StreamsOf(ms: seq<Resolved>, t: string): (us: seq<string>)
    ensures forall u :: u in us ==> EndsWith(u, Referer)
    decreases |ms|
  {
    if ms == [] then []
    else
      var m := ms[|ms| - 1];
      StreamsOf(ms[..|ms| - 1], t) + (if Streamable(m) && m.title == t then [StreamUrl(m)] else [])
  }

  /** The first entry with a stream and title `t`. */
  function FirstWith(ms: seq<Resolved>, t: string): Option<Resolved>
    decreases |ms|
  {
    if ms == [] then None
    else
      var m := ms[|ms| - 1];
      var prev := FirstWith(ms[..|ms| - 1], t);
      if prev.Some? then prev
      else if Streamable(m) && m.title == t then Some(m)
      else None
  }

  /** The group of title `t`: image, date and league of its first entry, all its streams. */
  function GroupOf(ms: seq<Resolved>, t: string): Group {
    match FirstWith(ms, t)
    case Some(m) => Group(ImageOf(m), StreamsOf(ms, t), m.date, m.league)
    case None => Group("", [], None, None)
  }

  /**
   * The two sides of a title holding ` v `: split at its first occurrence,
   * names stripped, each looked up in the logo catalog unstripped.
   */
  function Sides(title: string, logos: Catalog, v: Variant): (Side, Side)
    requires Contains(title, " v ")
  {
    var parts := SplitOnce(title, " v ");
    (Side(Strip(parts.0), FindLogo(parts.0, logos, v)), Side(Strip(parts.1), FindLogo(parts.1, logos, v)))
  }

  /**
   * The home name comes from the text before the first ` v `, the away name
   * from all the text after it.
   */
  lemma SidesSplit(title: string, logos: Catalog, v: Variant)
    requires Contains(title, " v ")
    ensures exists h, a ::
              && title == h + " v " + a
              && (forall j :: 0 <= j < |h| ==> !OccursAt(title, " v ", j))
              && Sides(title, logos, v).0 == Side(Strip(h), FindLogo(h, logos, v))
              && Sides(title, logos, v).1 == Side(Strip(a), FindLogo(a, logos, v))
  {
    var h := SplitOnce(title, " v ").0;
    var a := SplitOnce(title, " v ").1;
    assert title == h + " v " + a;
    assert Sides(title, logos, v) == (Side(Strip(h), FindLogo(h, logos, v)), Side(Strip(a), FindLogo(a, logos, v)));
  }

  /** The records of the titles `ts`, in order, for those holding ` v `. */
  function Records(ts: seq<string>, ms: seq<Resolved>, logos: Catalog): seq<MatchRecord>
    decreases |ts|
  {
    if ts == [] then []
    else
      var t := ts[|ts| - 1];
      var prev := Records(ts[..|ts| - 1], ms, logos);
      if Contains(t, " v ") then
        var g := GroupOf(ms, t);
        var sides := Sides(t, logos, ScraperPy);
        prev + [MatchRecord(sides.0, sides.1, g.streamUrls, g.date, g.league)]
      else prev
  }

  /** The output of `process_matches_to_json`. */
  function MatchesToJson(ms: seq<Resolved>, logos: Catalog): seq<MatchRecord> {
    Records(Titles(ms), ms, logos)
  }

  // ---- facts about the grouping ----

  lemma {:induction false} StreamTitlesMembers(ms: seq<Resolved>, t: string)
    ensures t in StreamTitles(ms) <==> FirstWith(ms, t).Some?
    ensures t in StreamTitles(ms) <==> StreamsOf(ms, t) != []
    decreases |ms|
  {
    if ms != [] {
      StreamTitlesMembers(ms[..|ms| - 1], t);
    }
  }

  /** A title is grouped exactly when some entry with a stream carries it. */
  lemma TitlesMembers(ms: seq<Resolved>, t: string)
    ensures t in Titles(ms) <==> exists i :: 0 <= i < |ms| && Streamable(ms[i]) && ms[i].title == t
    ensures t in Titles(ms) <==> StreamsOf(ms, t) != []
  {
    FirstSeenSpec(StreamTitles(ms));
    StreamTitlesMembers(ms, t);
    FirstWithIsFirst(ms, t);
    if exists i :: 0 <= i < |ms| && Streamable(ms[i]) && ms[i].title == t {
      var i :| 0 <= i < |ms| && Streamable(ms[i]) && ms[i].title == t;
      FirstWithFound(ms, t, i);
    }
  }

  /** The group's metadata comes from the first entry with a stream and that title. */
  lemma {:induction false} FirstWithIsFirst(ms: seq<Resolved>, t: string)
    ensures FirstWith(ms, t).Some? ==>
              exists i :: 0 <= i < |ms| && ms[i] == FirstWith(ms, t).value
                          && Streamable(ms[i]) && ms[i].title == t
                          && forall j :: 0 <= j < i ==> !(Streamable(ms[j]) && ms[j].title == t)
    decreases |ms|
  {
    if ms != [] {
      var init := ms[..|ms| - 1];
      FirstWithIsFirst(init, t);
      if FirstWith(init, t).Some? {
        var i :| 0 <= i < |init| && init[i] == FirstWith(init, t).value
                 && Streamable(init[i]) && init[i].title == t
                 && forall j :: 0 <= j < i ==> !(Streamable(init[j]) && init[j].title == t);
        assert ms[i] == init[i];
        assert forall j :: 0 <= j < i ==> ms[j] == init[j];
      } else if FirstWith(ms, t).Some? {
        FirstWithNone(init, t);
        assert forall j :: 0 <= j < |init| ==> ms[j] == init[j];
      }
    }
  }

  lemma {:induction false} FirstWithNone(ms: seq<Resolved>, t: string)
    requires FirstWith(ms, t).None?
    ensures forall j :: 0 <= j < |ms| ==> !(Streamable(ms[j]) && ms[j].title == t)
    decreases |ms|
  {
    if ms != [] {
      var init := ms[..|ms| - 1];
      FirstWithNone(init, t);
      assert forall j :: 0 <= j < |init| ==> ms[j] == init[j];
    }
  }

  lemma FirstWithFound(ms: seq<Resolved>, t: string, i: nat)
    requires i < |ms| && Streamable(ms[i]) && ms[i].title == t
    ensures FirstWith(ms, t).Some?
  {
    if FirstWith(ms, t).None? {
      FirstWithNone(ms, t);
    }
  }

  /** Adding one entry: how titles and groups change. */
  lemma GroupStep(ms: seq<Resolved>, i: nat)
    requires i < |ms|
    ensures var pre := ms[..i]; var m := ms[i];
            StreamTitles(ms[..i + 1]) == StreamTitles(pre) + (if Streamable(m) then [m.title] else [])
    ensures var pre := ms[..i]; var m := ms[i];
            forall t :: !(Streamable(m) && m.title == t) ==> GroupOf(ms[..i + 1], t) == GroupOf(pre, t)
    ensures var pre := ms[..i]; var m := ms[i];
            Streamable(m) && FirstWith(pre, m.title).Some? ==>
              GroupOf(ms[..i + 1], m.title) ==
                GroupOf(pre, m.title).(streamUrls := GroupOf(pre, m.title).streamUrls + [StreamUrl(m)])
    ensures var pre := ms[..i]; var m := ms[i];
            Streamable(m) && FirstWith(pre, m.title).None? ==>
              GroupOf(ms[..i + 1], m.title) == Group(ImageOf(m), [StreamUrl(m)], m.date, m.league)
  {
    var pre := ms[..i];
    var m := ms[i];
    assert ms[..i + 1][..i] == pre && ms[..i + 1][i] == m;
    if Streamable(m) && FirstWith(pre, m.title).None? {
      StreamTitlesMembers(pre, m.title);
      assert StreamsOf(pre, m.title) == [];
    }
  }

  /** Every record has at least one stream URL, and each carries the referer suffix. */
  lemma {:induction false} RecordsStreams(ts: seq<string>, ms: seq<Resolved>, logos: Catalog)
    requires forall t :: t in ts ==> t in Titles(ms)
    ensures forall r :: r in Records(ts, ms, logos) ==>
              r.streamUrls != [] && forall u :: u in r.streamUrls ==> EndsWith(u, Referer)
    decreases |ts|
  {
    if ts != [] {
      var t := ts[|ts| - 1];
      RecordsStreams(ts[..|ts| - 1], ms, logos);
      TitlesMembers(ms, t);
      StreamTitlesMembers(ms, t);
    }
  }

  /** A title yields a record exactly when it holds ` v `; the records follow the titles' order. */
  lemma {:induction false} RecordsCount(ts: seq<string>, ms: seq<Resolved>, logos: Catalog)
    ensures |Records(ts, ms, logos)| <= |ts|
    ensures (forall t :: t in ts ==> Contains(t, " v ")) ==> |Records(ts, ms, logos)| == |ts|
    ensures (forall t :: t in ts ==> !Contains(t, " v ")) ==> Records(ts, ms, logos) == []
    decreases |ts|
  {
    if ts != [] {
      RecordsCount(ts[..|ts| - 1], ms, logos);
    }
  }

  /** The records of the output have streams, all with the referer suffix. */
  lemma OutputStreams(ms: seq<Resolved>, logos: Catalog)
    ensures forall r :: r in MatchesToJson(ms, logos) ==>
              r.streamUrls != [] && forall u :: u in r.streamUrls ==> EndsWith(u, Referer)
  {
    RecordsStreams(Titles(ms), ms, logos);
  }

  /** The groups built so far hold exactly the titles seen, each with its group. */
  predicate GroupsInv(groups: Dict<string, Group>, ms: seq<Resolved>) {
    && DistinctKeys(groups)
    && Keys(groups) == Titles(ms)
    && forall t :: t in Keys(groups) ==> Get(groups, t) == Some(GroupOf(ms, t))
  }

  /**
   * One iteration of the grouping loop: an entry with a stream creates its
   * title's group if needed and appends its stream URL.
   */
  function Absorb(groups: Dict<string, Group>, m: Resolved): (r: Dict<string, Group>)
    requires DistinctKeys(groups)
    ensures DistinctKeys(r)
  {
    if !Streamable(m) then groups
    else
      var created :=
        if Find(groups, m.title).None? then Put(groups, m.title, Group(ImageOf(m), [], m.date, m.league))
        else groups;
      var g := Get(created, m.title).value;
      Put(created, m.title, g.(streamUrls := g.streamUrls + [StreamUrl(m)]))
  }

  lemma AbsorbKeys(groups: Dict<string, Group>, ms: seq<Resolved>, i: nat)
    requires i < |ms| && GroupsInv(groups, ms[..i])
    ensures Keys(Absorb(groups, ms[i])) == Titles(ms[..i + 1])
  {
    var m := ms[i];
    GroupStep(ms, i);
    if Streamable(m) {
      FindIffKey(groups, m.title);
      FirstSeenSnoc(StreamTitles(ms[..i]), m.title);
      assert Titles(ms[..i + 1]) == FirstSeen(StreamTitles(ms[..i]) + [m.title]);
    } else {
      assert StreamTitles(ms[..i + 1]) == StreamTitles(ms[..i]);
    }
  }

  lemma AbsorbValues(groups: Dict<string, Group>, ms: seq<Resolved>, i: nat, t: string)
    requires i < |ms| && GroupsInv(groups, ms[..i])
    requires t in Keys(Absorb(groups, ms[i]))
    ensures Get(Absorb(groups, ms[i]), t) == Some(GroupOf(ms[..i + 1], t))
  {
    var m := ms[i];
    GroupStep(ms, i);
    if !Streamable(m) {
      AbsorbKeys(groups, ms, i);
    } else if t == m.title {
      AbsorbOwnTitle(groups, ms, i);
    } else {
      AbsorbOtherTitle(groups, ms, i, t);
    }
  }

  lemma AbsorbOwnTitle(groups: Dict<string, Group>, ms: seq<Resolved>, i: nat)
    requires i < |ms| && GroupsInv(groups, ms[..i]) && Streamable(ms[i])
    ensures Get(Absorb(groups, ms[i]), ms[i].title) == Some(GroupOf(ms[..i + 1], ms[i].title))
  {
    var m := ms[i];
    var pre := ms[..i];
    GroupStep(ms, i);
    FindIffKey(groups, m.title);
    StreamTitlesMembers(pre, m.title);
    FirstSeenSpec(StreamTitles(pre));
    var u := StreamUrl(m);
    if Find(groups, m.title).None? {
      assert FirstWith(pre, m.title).None?;
      var created := Put(groups, m.title, Group(ImageOf(m), [], m.date, m.league));
      assert Get(created, m.title).value.streamUrls + [u] == [u];
      assert Absorb(groups, m) == Put(created, m.title, Group(ImageOf(m), [u], m.date, m.league));
    } else {
      assert FirstWith(pre, m.title).Some?;
      var g := GroupOf(pre, m.title);
      assert Get(groups, m.title) == Some(g);
      assert Absorb(groups, m) == Put(groups, m.title, g.(streamUrls := g.streamUrls + [u]));
    }
  }

  lemma AbsorbOtherTitle(groups: Dict<string, Group>, ms: seq<Resolved>, i: nat, t: string)
    requires i < |ms| && GroupsInv(groups, ms[..i]) && Streamable(ms[i])
    requires t != ms[i].title && t in Keys(Absorb(groups, ms[i]))
    ensures Get(Absorb(groups, ms[i]), t) == Some(GroupOf(ms[..i + 1], t))
  {
    var m := ms[i];
    GroupStep(ms, i);
    var created :=
      if Find(groups, m.title).None? then Put(groups, m.title, Group(ImageOf(m), [], m.date, m.league))
      else groups;
    assert Get(Absorb(groups, m), t) == Get(created, t) == Get(groups, t);
    assert t in Keys(created);
    assert t in Keys(groups);
  }

  lemma AbsorbStep(groups: Dict<string, Group>, ms: seq<Resolved>, i: nat)
    requires i < |ms| && GroupsInv(groups, ms[..i])
    ensures GroupsInv(Absorb(groups, ms[i]), ms[..i + 1])
  {
    AbsorbKeys(groups, ms, i);
    forall t | t in Keys(Absorb(groups, ms[i]))
      ensures Get(Absorb(groups, ms[i]), t) == Some(GroupOf(ms[..i + 1], t))
    {
      AbsorbValues(groups, ms, i, t);
    }
  }

  /** Emitting the group at index `j` of the finished groups: its record, for a ` v ` title. */
  lemma RecordsStep(groups: Dict<string, Group>, ms: seq<Resolved>, logos: Catalog, j: nat)
    requires GroupsInv(groups, ms) && j < |groups|
    ensures var t := groups[j].0; var g := groups[j].1;
            Records(Keys(groups)[..j + 1], ms, logos) == Records(Keys(groups)[..j], ms, logos) +
              (if Contains(t, " v ") then [MatchRecord(Sides(t, logos, ScraperPy).0, Sides(t, logos, ScraperPy).1,
                                                       g.streamUrls, g.date, g.league)]
               else [])
  {
    var t := groups[j].0;
    var g := groups[j].1;
    assert Keys(groups)[..j + 1][..j] == Keys(groups)[..j];
    assert Keys(groups)[..j + 1][j] == t;
    FindUnique(groups, t, j);
    assert t in Keys(groups);
    assert GroupOf(ms, t) == g;
  }

  /**
   * The first loop of `process_matches_to_json`: fills `match_groups` in
   * input order, so that it holds each title with a stream once, in
   * first-seen order, with that title's group.
   */
  method BuildGroups(ms: seq<Resolved>) returns (groups: Dict<string, Group>)
    ensures GroupsInv(groups, ms)
  {
    groups := [];
    var i := 0;
    while i < |ms|
      invariant 0 <= i <= |ms|
      invariant GroupsInv(groups, ms[..i])
    {
      var m := ms[i];
      ghost var before := groups;
      if Streamable(m) {
        var url := m.m3u8.value + Referer;
        if Find(groups, m.title).None? {
          groups := Put(groups, m.title, Group(ImageOf(m), [], m.date, m.league));
        }
        var g := Get(groups, m.title).value;
        groups := Put(groups, m.title, g.(streamUrls := g.streamUrls + [url]));
      }
      assert groups == Absorb(before, m);
      AbsorbStep(before, ms, i);
      i := i + 1;
    }
    assert ms[..i] == ms;
  }

  /**
   * `process_matches_to_json`: groups the entries, then emits a record for
   * every group whose title holds ` v `, in group order.
   */
  method ProcessMatchesToJson(ms: seq<Resolved>, logos: Catalog) returns (result: seq<MatchRecord>)
    ensures result == MatchesToJson(ms, logos)
  {
    var groups := BuildGroups(ms);
    result := [];
    var j := 0;
    while j < |groups|
      invariant 0 <= j <= |groups|
      invariant result == Records(Keys(groups)[..j], ms, logos)
    {
      var t := groups[j].0;
      var g := groups[j].1;
      RecordsStep(groups, ms, logos, j);
      if Contains(t, " v ") {
        var sides := Sides(t, logos, ScraperPy);
        result := result + [MatchRecord(sides.0, sides.1, g.streamUrls, g.date, g.league)];
      }
      j := j + 1;
    }
    assert Keys(groups)[..j] == Keys(groups);
  }
}
