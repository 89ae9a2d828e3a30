/**
 * `createPost` and `createMatchPosts` (match-bot.js): title a match, skip it
 * when the blog's search for that title returns any post at all, otherwise
 * look for the player, build the post body and insert it; then count the
 * posts created for tomorrow's matches.
 *
 * The blog is an input: for the match at position `i` of the run, `world(i)`
 * says whether the title search returned any post (a failed search reads as
 * none), what the detail page looks like and what the insert request
 * returned (`None` when it failed).
 */
module Publisher {
  import opened Wrappers
  import opened Text
  import opened Listing
  import opened Iframes

  /** Which of the three fixed day captions the post shows. */
  datatype DayLabel = TodayLabel | TomorrowLabel | YesterdayLabel

  /** The player section: the embed, or the "stream coming soon" notice with the match link if there is one. */
  datatype Player = Embed(iframe: Iframe) | ComingSoon(link: Option<string>)

  /** The structure of the post's HTML body; a logo image appears only when `Some`. */
  datatype PostBody = PostBody(
    league: string,
    homeLogo: Option<string>,
    homeTeam: string,
    time: string,
    dayLabel: DayLabel,
    awayLogo: Option<string>,
    awayTeam: string,
    broadcaster: string,
    player: Player)

  /** The post sent in the insert request. */
  datatype Draft = Draft(title: string, body: PostBody)

  /** The post the blog returns after an insert. */
  datatype Post = Post(id: string, url: string)

  /**
   * What the remote services answer while one match is processed: whether the
   * blog's search for the title returned any post (a similar title is enough),
   * the detail page, and the insert's answer.
   */
  datatype Remote = Remote(searchHit: bool, detailPage: Option<Page>, inserted: Option<Post>)

  /** The result of `createPost` and the insert request it sent, if any. */
  datatype Outcome = Outcome(post: Option<Post>, insert: Option<Draft>)

  /** `${homeTeam} vs ${awayTeam} - ${league}` */
  function Title(m: MatchRecord): string {
    m.homeTeam + " vs " + m.awayTeam + " - " + m.league
  }

  /** The day caption: "today" and "tomorrow" have their own; any other date shows yesterday's. */
  function DateLabel(date: string): (caption: DayLabel)
    ensures caption == TodayLabel <==> date == "today"
    ensures caption == TomorrowLabel <==> date == "tomorrow"
    ensures caption == YesterdayLabel <==> date != "today" && date != "tomorrow"
  {
    if date == "today" then TodayLabel
    else if date == "tomorrow" then TomorrowLabel
    else YesterdayLabel
  }

  /** A logo image is emitted only for a non-empty logo address. */
  function LogoImage(logo: string): (img: Option<string>)
    ensures img.Some? <==> logo != ""
    ensures img.Some? ==> img.value == logo
  {
    if logo != "" then Some(logo) else None
  }

  /** The player section: the embed when one was found, otherwise the notice. */
  function PlayerSection(m: MatchRecord, iframe: Option<Iframe>): (p: Player)
    ensures p.Embed? <==> iframe.Some?
    ensures p.Embed? ==> p.iframe == iframe.value
    ensures p.ComingSoon? ==> p.link == m.matchLink
  {
    match iframe
    case Some(f) => Embed(f)
    case None => ComingSoon(m.matchLink)
  }

  /** The post body for `m` with the embed `iframe`, if found. */
  function Content(m: MatchRecord, iframe: Option<Iframe>): PostBody {
    PostBody(
      league := m.league,
      homeLogo := LogoImage(m.homeTeamLogo),
      homeTeam := m.homeTeam,
      time := m.time,
      dayLabel := DateLabel(m.date),
      awayLogo := LogoImage(m.awayTeamLogo),
      awayTeam := m.awayTeam,
      broadcaster := m.broadcaster,
      player := PlayerSection(m, iframe))
  }

  /**
   * `createPost`: nothing is inserted, no player is looked up and null is
   * returned when the title search returns any post; otherwise the player is
   * looked up, the titled post is inserted and the result is what the insert
   * returned.
   */
  function CreatePost(m: MatchRecord, remote: Remote): (r: Outcome)
    ensures remote.searchHit ==> r.post.None? && r.insert.None?
    ensures !remote.searchHit ==> r.insert.Some? && r.insert.value.title == Title(m) && r.post == remote.inserted
    ensures r.post.Some? ==> r.insert.Some?
  {
    var title := Title(m);
    if remote.searchHit then Outcome(None, None)
    else
      var iframe := ResolveIframe(m.matchLink, remote.detailPage);
      Outcome(remote.inserted, Some(Draft(title, Content(m, iframe))))
  }

  /**
   * An inserted post embeds a player exactly when the detail page yields an
   * acceptable iframe, and otherwise shows the notice with the match link;
   * it carries a logo image exactly for a non-empty logo.
   */
  lemma CreatePostBody(m: MatchRecord, remote: Remote)
    requires !remote.searchHit
    ensures var body := CreatePost(m, remote).insert.value.body;
      var found := ResolveIframe(m.matchLink, remote.detailPage);
      && (body.player.Embed? <==> found.Some?)
      && (body.player.Embed? ==> body.player.iframe == found.value)
      && (body.player.ComingSoon? ==> body.player.link == m.matchLink)
      && (body.homeLogo.Some? <==> m.homeTeamLogo != "")
      && (body.awayLogo.Some? <==> m.awayTeamLogo != "")
      && body.dayLabel == DateLabel(m.date)
  {
  }

  /** For each match of the run, whether `createPost` returned a post for it. */
  function PostedFlags(ms: seq<MatchRecord>, world: nat -> Remote): seq<bool>
  {
    seq(|ms|, i requires 0 <= i < |ms| => CreatePost(ms[i], world(i)).post.Some?)
  }

  /** The number of `true` flags, counted front to back as the loop counts. */
  function CountTrue(flags: seq<bool>): nat {
    if flags == [] then 0
    else CountTrue(flags[..|flags| - 1]) + (if flags[|flags| - 1] then 1 else 0)
  }

  /** The count of `true` flags is the number of positions holding `true`. */
  lemma {:induction false} CountTrueIsCardinality(flags: seq<bool>)
    ensures CountTrue(flags) == |set i: nat | i < |flags| && flags[i]|
  {
    if flags != [] {
      var last := |flags| - 1;
      var init := flags[..last];
      CountTrueIsCardinality(init);
      var before := set i: nat | i < |init| && init[i];
      var now := set i: nat | i < |flags| && flags[i];
      if flags[last] {
        assert now == before + {last};
      } else {
        assert now == before;
      }
    }
  }

  /** The positions of the matches for which `createPost` returned a post. */
  ghost function CreatedPositions(ms: seq<MatchRecord>, world: nat -> Remote): set<nat> {
    set i: nat | i < |ms| && CreatePost(ms[i], world(i)).post.Some?
  }

  /** `createdCount` is the number of matches for which `createPost` returned a post. */
  lemma CreatedCountIsCreatedMatches(ms: seq<MatchRecord>, world: nat -> Remote)
    ensures CountTrue(PostedFlags(ms, world)) == |CreatedPositions(ms, world)|
  {
    var flags := PostedFlags(ms, world);
    CountTrueIsCardinality(flags);
    assert (set i: nat | i < |flags| && flags[i]) == CreatedPositions(ms, world);
  }

  /** A match whose title search returned a post never counts. */
  lemma CreatedCountSkipsExisting(ms: seq<MatchRecord>, world: nat -> Remote)
    ensures CountTrue(PostedFlags(ms, world)) <= |set i: nat | i < |ms| && !world(i).searchHit|
  {
    CreatedCountIsCreatedMatches(ms, world);
    var created := CreatedPositions(ms, world);
    var unposted := set i: nat | i < |ms| && !world(i).searchHit;
    assert created <= unposted;
    SubsetCardinality(created, unposted);
  }

  lemma {:induction false} SubsetCardinality(a: set<nat>, b: set<nat>)
    requires a <= b
    ensures |a| <= |b|
  {
    if a != {} {
      var x :| x in a;
      SubsetCardinality(a - {x}, b - {x});
    }
  }

  /**
   * `createMatchPosts`: process tomorrow's matches one by one and count the
   * posts created. The script only logs this count and returns nothing; the
   * method returns it so that its contract can state it.
   */
  method CreateMatchPosts(site: Site, world: nat -> Remote) returns (createdCount: nat)
    ensures createdCount == CountTrue(PostedFlags(FetchResult("tomorrow", site), world))
  {
    var matches := FetchMatches("tomorrow", site);
    if |matches| == 0 {
      return 0;
    }
    ghost var flags := PostedFlags(matches, world);
    createdCount := 0;
    for i := 0 to |matches|
      invariant createdCount == CountTrue(flags[..i])
    {
      assert flags[..i + 1][..i] == flags[..i];
      var post := CreatePost(matches[i], world(i)).post;
      if post.Some? {
        createdCount := createdCount + 1;
      }
    }
    assert flags[..|matches|] == flags;
  }

  /** Every post the run inserts is captioned for tomorrow. */
  lemma RunPostsSayTomorrow(site: Site, world: nat -> Remote, i: nat)
    requires i < |FetchResult("tomorrow", site)|
    requires !world(i).searchHit
    ensures CreatePost(FetchResult("tomorrow", site)[i], world(i)).insert.value.body.dayLabel == TomorrowLabel
  {
    if site(TomorrowUrl).Some? {
      NormalizeRecordsWellFormed("tomorrow", site(TomorrowUrl).value);
    }
  }
}
