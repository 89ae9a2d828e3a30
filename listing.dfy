/**
 * `fetchMatches` (match-bot.js): picks the listing page for a day and turns the
 * page's `.AY_Match` elements, in document order, into match records.
 *
 * The site is an input: for a listing URL it gives `None` when fetching or
 * loading that page through the relay failed (the function then returns the
 * empty list), otherwise the text and attributes that cheerio reads from each
 * `.AY_Match` element of the page.
 */
module Listing {
  import opened Wrappers
  import opened Text

  const Origin := "https://www.kooraliive.com"
  const YesterdayUrl := "https://www.kooraliive.com/matches-yesterday/"
  const TodayUrl := "https://www.kooraliive.com/matches-today/"
  const TomorrowUrl := "https://www.kooraliive.com/matches-tomorrow/"

  /** The `src` of a lazy-loaded logo whose real address sits in `data-src`. */
  const LazyPlaceholder := "data:image/gif;base64"

  /** What cheerio reads from one `.AY_Match` element; texts are untrimmed, attributes may be absent. */
  datatype RawMatch = RawMatch(
    homeName: string,            // `.TM1 .TM_Name` text
    awayName: string,            // `.TM2 .TM_Name` text
    homeSrc: Option<string>,     // `.TM1 .TM_Logo img` src
    homeDataSrc: Option<string>, // `.TM1 .TM_Logo img` data-src
    awaySrc: Option<string>,     // `.TM2 .TM_Logo img` src
    awayDataSrc: Option<string>, // `.TM2 .TM_Logo img` data-src
    time: string,                // `.MT_Time` text
    league: string,              // `.MT_Info li:last-child span` text
    broadcaster: string,         // `.MT_Info li:first-child span` text
    href: Option<string>)        // first `a` href

  /** The site as read through the relay: the `.AY_Match` elements of the page at a URL, or `None` when reading it failed. */
  type Site = string -> Option<seq<RawMatch>>

  datatype MatchRecord = MatchRecord(
    id: string,
    homeTeam: string,
    awayTeam: string,
    homeTeamLogo: string,
    awayTeamLogo: string,
    time: string,
    league: string,
    broadcaster: string,
    date: string,
    matchLink: Option<string>)

  /** The listing page for `day`: yesterday's and today's have their own, anything else reads tomorrow's. */
  function SourceUrl(day: string): (url: string)
    ensures url == YesterdayUrl <==> day == "yesterday"
    ensures url == TodayUrl <==> day == "today"
    ensures url == TomorrowUrl <==> day != "yesterday" && day != "today"
  {
    if day == "yesterday" then YesterdayUrl
    else if day == "today" then TodayUrl
    else TomorrowUrl
  }

  /**
   * A logo's address: a placeholder `src` is replaced by `data-src`; any other
   * `src`, absent or empty ones included, is kept.
   */
  function LazyLogo(src: Option<string>, dataSrc: Option<string>): (logo: Option<string>)
    ensures logo == src || logo == dataSrc
    ensures Present(src) && Contains(src.value, LazyPlaceholder) ==> logo == dataSrc
    ensures logo != src ==> Present(src) && Contains(src.value, LazyPlaceholder)
  {
    if Present(src) && Contains(src.value, LazyPlaceholder) then dataSrc else src
  }

  /** An element is kept when both trimmed team names are non-empty. */
  predicate Keep(e: RawMatch) {
    Trim(e.homeName) != "" && Trim(e.awayName) != ""
  }

  /** `${day}-${index}` */
  function MatchId(day: string, index: nat): string {
    day + "-" + Decimal(index)
  }

  /** Within one day, different element positions give different ids. */
  lemma MatchIdInjective(day: string, i: nat, j: nat)
    requires MatchId(day, i) == MatchId(day, j)
    ensures i == j
  {
    assert Decimal(i) == MatchId(day, i)[|day| + 1..];
    assert Decimal(j) == MatchId(day, j)[|day| + 1..];
    DecimalInjective(i, j);
  }

  /**
   * The detail link: the site origin put in front of any non-empty `href`,
   * absolute or not; no link without one.
   */
  function DetailLink(href: Option<string>): (link: Option<string>)
    ensures link.Some? <==> Present(href)
    ensures link.Some? ==> StartsWith(link.value, Origin) && link.value[|Origin|..] == href.value
  {
    if Present(href) then Some(Origin + href.value) else None
  }

  /** The record built for the element `e` at position `index` of the page. */
  function BuildRecord(day: string, index: nat, e: RawMatch): MatchRecord {
    MatchRecord(
      id := MatchId(day, index),
      homeTeam := Trim(e.homeName),
      awayTeam := Trim(e.awayName),
      homeTeamLogo := AttrOr(LazyLogo(e.homeSrc, e.homeDataSrc), ""),
      awayTeamLogo := AttrOr(LazyLogo(e.awaySrc, e.awayDataSrc), ""),
      time := TextOr(Trim(e.time), "TBD"),
      league := TextOr(Trim(e.league), "Football Match"),
      broadcaster := TextOr(Trim(e.broadcaster), "TBD"),
      date := day,
      matchLink := DetailLink(e.href))
  }

  /**
   * A kept element's record has both team names; time, league and broadcaster
   * are the trimmed texts, or their defaults when the text is blank, so never
   * empty; a logo is the `data-src` of a placeholder image and the `src`
   * otherwise, empty only when no usable address was found; the link is the
   * origin followed by the `href`.
   */
  lemma BuildRecordFields(day: string, index: nat, e: RawMatch)
    ensures var m := BuildRecord(day, index, e);
      && m.id == MatchId(day, index) && m.date == day
      && m.homeTeam == Trim(e.homeName) && m.awayTeam == Trim(e.awayName)
      && (Keep(e) ==> m.homeTeam != "" && m.awayTeam != "")
      && (AllWhitespace(e.time) ==> m.time == "TBD")
      && (!AllWhitespace(e.time) ==> m.time == Trim(e.time))
      && (AllWhitespace(e.league) ==> m.league == "Football Match")
      && (!AllWhitespace(e.league) ==> m.league == Trim(e.league))
      && (AllWhitespace(e.broadcaster) ==> m.broadcaster == "TBD")
      && (!AllWhitespace(e.broadcaster) ==> m.broadcaster == Trim(e.broadcaster))
      && m.time != "" && m.league != "" && m.broadcaster != ""
      && (m.homeTeamLogo != "" <==> Present(LazyLogo(e.homeSrc, e.homeDataSrc)))
      && (m.awayTeamLogo != "" <==> Present(LazyLogo(e.awaySrc, e.awayDataSrc)))
      && (Present(e.homeSrc) && Contains(e.homeSrc.value, LazyPlaceholder) ==> m.homeTeamLogo == AttrOr(e.homeDataSrc, ""))
      && (!(Present(e.homeSrc) && Contains(e.homeSrc.value, LazyPlaceholder)) ==> m.homeTeamLogo == AttrOr(e.homeSrc, ""))
      && (Present(e.awaySrc) && Contains(e.awaySrc.value, LazyPlaceholder) ==> m.awayTeamLogo == AttrOr(e.awayDataSrc, ""))
      && (!(Present(e.awaySrc) && Contains(e.awaySrc.value, LazyPlaceholder)) ==> m.awayTeamLogo == AttrOr(e.awaySrc, ""))
      && (m.matchLink.Some? <==> Present(e.href))
      && (m.matchLink.Some? ==> m.matchLink.value == Origin + e.href.value)
  {
    TrimSpec(e.time);
    TrimSpec(e.league);
    TrimSpec(e.broadcaster);
  }

  /** What the `.each` walk collects from the elements `es`, element by element. */
  function Normalize(day: string, es: seq<RawMatch>): seq<MatchRecord> {
    if es == [] then []
    else
      var last := |es| - 1;
      Normalize(day, es[..last]) + (if Keep(es[last]) then [BuildRecord(day, last, es[last])] else [])
  }

  /** The positions of the kept elements, scanning from the first. */
  function KeptIndices(es: seq<RawMatch>): seq<nat> {
    if es == [] then []
    else
      var last := |es| - 1;
      KeptIndices(es[..last]) + (if Keep(es[last]) then [last] else [])
  }

  /** The kept positions are exactly the positions of kept elements, in increasing order. */
  lemma {:induction false} KeptIndicesExact(es: seq<RawMatch>)
    ensures forall j :: 0 <= j < |KeptIndices(es)| ==>
      KeptIndices(es)[j] < |es| && Keep(es[KeptIndices(es)[j]])
    ensures forall j, k :: 0 <= j < k < |KeptIndices(es)| ==> KeptIndices(es)[j] < KeptIndices(es)[k]
    ensures forall i :: 0 <= i < |es| && Keep(es[i]) ==> i in KeptIndices(es)
  {
    if es != [] {
      var last := |es| - 1;
      var init := es[..last];
      KeptIndicesExact(init);
      var prev := KeptIndices(init);
      var ks := KeptIndices(es);
      assert ks == prev + (if Keep(es[last]) then [last] else []);
      forall j | 0 <= j < |ks| ensures ks[j] < |es| && Keep(es[ks[j]]) {
        if j < |prev| {
          assert ks[j] == prev[j];
          assert init[prev[j]] == es[prev[j]];
        }
      }
      forall i | 0 <= i < |es| && Keep(es[i]) ensures i in ks {
        if i < last {
          assert init[i] == es[i];
          assert i in prev;
        }
      }
    }
  }

  /**
   * The collected records are, in order, the records built from the kept
   * elements, each with its position among all elements.
   */
  lemma {:induction false} NormalizeIsKeptRecords(day: string, es: seq<RawMatch>)
    ensures |Normalize(day, es)| == |KeptIndices(es)|
    ensures forall j :: 0 <= j < |KeptIndices(es)| ==>
      KeptIndices(es)[j] < |es| &&
      Normalize(day, es)[j] == BuildRecord(day, KeptIndices(es)[j], es[KeptIndices(es)[j]])
  {
    KeptIndicesExact(es);
    if es != [] {
      var last := |es| - 1;
      var init := es[..last];
      NormalizeIsKeptRecords(day, init);
      var prev := KeptIndices(init);
      var ks := KeptIndices(es);
      var rs := Normalize(day, es);
      var prevRs := Normalize(day, init);
      assert rs == prevRs + (if Keep(es[last]) then [BuildRecord(day, last, es[last])] else []);
      assert ks == prev + (if Keep(es[last]) then [last] else []);
      forall j | 0 <= j < |ks| ensures rs[j] == BuildRecord(day, ks[j], es[ks[j]]) {
        if j < |prev| {
          assert rs[j] == prevRs[j];
          assert ks[j] == prev[j];
          assert init[prev[j]] == es[prev[j]];
        }
      }
    }
  }

  /** Every collected record has both team names and a distinct id. */
  lemma NormalizeRecordsWellFormed(day: string, es: seq<RawMatch>)
    ensures forall j :: 0 <= j < |Normalize(day, es)| ==>
      var m := Normalize(day, es)[j];
      m.homeTeam != "" && m.awayTeam != "" && m.date == day
    ensures forall j, k :: 0 <= j < k < |Normalize(day, es)| ==>
      Normalize(day, es)[j].id != Normalize(day, es)[k].id
  {
    NormalizeIsKeptRecords(day, es);
    var ks := KeptIndices(es);
    KeptIndicesExact(es);
    forall j | 0 <= j < |ks| ensures Normalize(day, es)[j].homeTeam != "" && Normalize(day, es)[j].awayTeam != "" {
      BuildRecordFields(day, ks[j], es[ks[j]]);
    }
    forall j, k | 0 <= j < k < |ks| ensures Normalize(day, es)[j].id != Normalize(day, es)[k].id {
      if MatchId(day, ks[j]) == MatchId(day, ks[k]) {
        MatchIdInjective(day, ks[j], ks[k]);
      }
    }
  }

  /** The result of `fetchMatches(day)`: the records of the listing page the day selects. */
  function FetchResult(day: string, site: Site): seq<MatchRecord> {
    match site(SourceUrl(day))
    case None => []
    case Some(es) => Normalize(day, es)
  }

  /** `fetchMatches`: the `.each` walk pushing one record per kept element. */
  method FetchMatches(day: string, site: Site) returns (matches: seq<MatchRecord>)
    ensures matches == FetchResult(day, site)
  {
    var url := SourceUrl(day);
    var page := site(url);
    if page.None? {
      return [];
    }
    var es := page.value;
    matches := [];
    for index := 0 to |es|
      invariant matches == Normalize(day, es[..index])
    {
      assert es[..index + 1][..index] == es[..index];
      var element := es[index];
      var homeTeam := Trim(element.homeName);
      var awayTeam := Trim(element.awayName);
      if homeTeam == "" || awayTeam == "" {
        continue;
      }
      matches := matches + [BuildRecord(day, index, element)];
    }
    assert es[..|es|] == es;
  }
}
