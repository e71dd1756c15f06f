/** The site materializer (`_get_tweet_list`). It walks the index once: for every
    month file it records the month's count in `dates`, writes one status page per
    tweet whose effective author is the configured user, then the month page;
    afterwards it writes one page per year and the all-time page. The output is
    the sequence of file writes, each a path and the record of what the template
    is filled with; the HTML text itself is not modelled. */
module Site {
  import opened Text
  import opened Format
  import opened Records
  import opened ArchiveReader
  import opened Calendar

  const NoText: string := "<i>(no text)</i>"
  const NoMedia: string := "(no media)"
  const NoUrls: string := "(no urls)"
  const StatusUrlBase: string := "https://twitter.com/i/status/"

  /** One `<li>` of a status page: a link, or the placeholder of an empty list. */
  datatype ListItem = Anchor(href: string, caption: string) | Placeholder(caption: string)

  /** One entry of a month page: the link to a status page and its text. */
  datatype MonthItem = MonthItem(idStr: string, text: string)

  datatype Page =
    | StatusPage(idStr: string, year: int, month: int, body: string, statusUrl: string,
                 attachments: seq<ListItem>, urls: seq<ListItem>, payload: Status)
    | MonthPage(year: int, month: int, items: seq<MonthItem>)
    | YearPage(year: int, months: seq<MonthRow>)
    | AllTimePage(years: seq<YearRow>)

  datatype Write = Write(path: string, page: Page)

  function StatusPath(outputRoot: string, idStr: string): string {
    outputRoot + "/i/status/" + idStr + "/index.html"
  }

  function MonthPath(outputRoot: string, year: int, month: int): string {
    outputRoot + "/i/list/" + DateText(year, month) + "/index.html"
  }

  function YearPath(outputRoot: string, year: int): string {
    outputRoot + "/i/list/" + YearText(year) + "/index.html"
  }

  function AllTimePath(outputRoot: string): string {
    outputRoot + "/i/index.html"
  }

  lemma ListPathCancel(outputRoot: string, a: string, b: string)
    requires outputRoot + "/i/list/" + a + "/index.html" == outputRoot + "/i/list/" + b + "/index.html"
    ensures a == b
  {
    var p := outputRoot + "/i/list/";
    var x := p + a + "/index.html";
    var y := p + b + "/index.html";
    assert |a| == |b|;
    assert x[|p|..|p| + |a|] == a;
    assert y[|p|..|p| + |b|] == b;
  }

  /** For years and months that fit their padded widths, list pages never share
      a path: month pages of different months and year pages of different years
      are different files, and no year page is a month page. */
  lemma ListPagesDistinct(outputRoot: string, y1: int, m1: int, y2: int, m2: int)
    requires 0 <= y1 < 10000 && 0 <= y2 < 10000 && 0 <= m1 < 100 && 0 <= m2 < 100
    ensures MonthPath(outputRoot, y1, m1) == MonthPath(outputRoot, y2, m2) ==> y1 == y2 && m1 == m2
    ensures YearPath(outputRoot, y1) == YearPath(outputRoot, y2) ==> y1 == y2
    ensures YearPath(outputRoot, y1) != MonthPath(outputRoot, y2, m2)
  {
    if MonthPath(outputRoot, y1, m1) == MonthPath(outputRoot, y2, m2) {
      ListPathCancel(outputRoot, DateText(y1, m1), DateText(y2, m2));
      DateTextInjective(y1, m1, y2, m2);
    }
    if YearPath(outputRoot, y1) == YearPath(outputRoot, y2) {
      ListPathCancel(outputRoot, YearText(y1), YearText(y2));
      YearTextInjective(y1, y2);
    }
    PadIntRoundTrip(y1, 4);
    PadIntRoundTrip(y2, 4);
    PadIntRoundTrip(m2, 2);
    assert |YearText(y1)| == 4 && |DateText(y2, m2)| == 7;
    if YearPath(outputRoot, y1) == MonthPath(outputRoot, y2, m2) {
      ListPathCancel(outputRoot, YearText(y1), DateText(y2, m2));
    }
  }

  // ---------------------------------------------------------------------------
  // Grouping the media list into page links (`_media`).

  /** `url[:-6]` when `url` ends in ":large". */
  function StripLarge(url: string): string {
    if EndsWith(url, ":large") then url[..|url| - 6] else url
  }

  /** Exactly one trailing ":large" goes; a link without one is kept as it is. */
  lemma StripLargeRemovesOneSuffix(s: string)
    ensures StripLarge(s + ":large") == s
    ensures StripLarge(s + ":large:large") == s + ":large"
    ensures !EndsWith(s, ":large") ==> StripLarge(s) == s
  {
    var t := s + ":large";
    assert t[|t| - 6..] == ":large" && t[..|t| - 6] == s;
    var u := t + ":large";
    assert u[|u| - 6..] == ":large" && u[..|u| - 6] == t;
  }

  /** The page link of a media ref: its URL's path under "/i/images", ":large" dropped. */
  function MediaLink(sourceUrl: string, pathOf: string -> string): string {
    StripLarge("/i/images" + pathOf(sourceUrl))
  }

  /** `_media[id]`: the links of the refs owned by `id`, in list order. */
  function LinksFor(media: seq<MediaRef>, id: string, pathOf: string -> string): seq<string> {
    if media == [] then []
    else
      var r := media[|media| - 1];
      LinksFor(media[..|media| - 1], id, pathOf) + (if r.owner == id then [MediaLink(r.sourceUrl, pathOf)] else [])
  }

  function Owners(media: seq<MediaRef>): set<string> {
    set r | r in media :: r.owner
  }

  /** The whole `_media` dictionary. */
  function MediaMap(media: seq<MediaRef>, pathOf: string -> string): map<string, seq<string>> {
    map id | id in Owners(media) :: LinksFor(media, id, pathOf)
  }

  /** `_media.get(id, [])` */
  function Lookup(g: map<string, seq<string>>, id: string): seq<string> {
    if id in g then g[id] else []
  }

  lemma {:induction false} LinksForAbsent(media: seq<MediaRef>, id: string, pathOf: string -> string)
    ensures id !in Owners(media) ==> LinksFor(media, id, pathOf) == []
  {
    if media != [] {
      var init := media[..|media| - 1];
      assert Owners(init) <= Owners(media) by {
        forall x | x in Owners(init) ensures x in Owners(media) {
          var r :| r in init && r.owner == x;
          assert r in media;
        }
      }
      LinksForAbsent(init, id, pathOf);
    }
  }

  lemma MediaMapAppend(media: seq<MediaRef>, r: MediaRef, pathOf: string -> string)
    ensures var g := MediaMap(media, pathOf);
      MediaMap(media + [r], pathOf) == g[r.owner := Lookup(g, r.owner) + [MediaLink(r.sourceUrl, pathOf)]]
  {
    var m := media + [r];
    assert m[..|m| - 1] == media;
    assert Owners(m) == Owners(media) + {r.owner} by {
      forall x | x in Owners(m) ensures x in Owners(media) + {r.owner} {
        var q :| q in m && q.owner == x;
        if q != r {
          assert q in media;
        }
      }
    }
    LinksForAbsent(media, r.owner, pathOf);
    var g := MediaMap(media, pathOf);
    var g' := g[r.owner := Lookup(g, r.owner) + [MediaLink(r.sourceUrl, pathOf)]];
    forall id | id in g'
      ensures MediaMap(m, pathOf)[id] == g'[id]
    {
      if id != r.owner {
        assert LinksFor(m, id, pathOf) == LinksFor(media, id, pathOf) + [];
      }
    }
  }

  /** One pass of the grouping loop extends the dictionary of a prefix of the
      list to that of one more ref. */
  lemma GroupStep(media: seq<MediaRef>, i: nat, g: map<string, seq<string>>, pathOf: string -> string)
    requires i < |media| && g == MediaMap(media[..i], pathOf)
    ensures var x := media[i];
      MediaMap(media[..i + 1], pathOf) == g[x.owner := Lookup(g, x.owner) + [MediaLink(x.sourceUrl, pathOf)]]
  {
    MediaMapAppend(media[..i], media[i], pathOf);
    assert media[..i + 1] == media[..i] + [media[i]];
  }

  /** The grouping loop at the top of `_get_tweet_list`. */
  method GroupMedia(media: seq<MediaRef>, pathOf: string -> string) returns (g: map<string, seq<string>>)
    ensures g == MediaMap(media, pathOf)
  {
    g := map[];
    for i := 0 to |media|
      invariant g == MediaMap(media[..i], pathOf)
    {
      var x := media[i];
      var url := "/i/images" + pathOf(x.sourceUrl);
      if EndsWith(url, ":large") {
        url := url[..|url| - 6];
      }
      assert url == MediaLink(x.sourceUrl, pathOf);
      var links := (if x.owner in g then g[x.owner] else []) + [url];
      assert links == Lookup(g, x.owner) + [MediaLink(x.sourceUrl, pathOf)];
      GroupStep(media, i, g, pathOf);
      g := g[x.owner := links];
    }
    assert media[..|media|] == media;
  }

  /** The links of a longer ref list are those of its first part followed by
      those of the rest: grouping keeps the order of the list. */
  lemma {:induction false} LinksForAppend(a: seq<MediaRef>, b: seq<MediaRef>, id: string, pathOf: string -> string)
    ensures LinksFor(a + b, id, pathOf) == LinksFor(a, id, pathOf) + LinksFor(b, id, pathOf)
    decreases |b|
  {
    if b == [] {
      assert a + b == a;
    } else {
      var init := b[..|b| - 1];
      assert (a + b)[..|a + b| - 1] == a + init;
      LinksForAppend(a, init, id, pathOf);
    }
  }

  /** A tweet's page links are exactly the links of the refs it owns (its
      third field), and a tweet owning no ref gets none. */
  lemma {:induction false} LinksForMembers(media: seq<MediaRef>, id: string, pathOf: string -> string, link: string)
    ensures link in LinksFor(media, id, pathOf) <==>
      exists r :: r in media && r.owner == id && link == MediaLink(r.sourceUrl, pathOf)
    ensures LinksFor(media, id, pathOf) == [] <==> id !in Owners(media)
  {
    if media != [] {
      var init := media[..|media| - 1];
      var last := media[|media| - 1];
      LinksForMembers(init, id, pathOf, link);
      assert media == init + [last];
      if exists r :: r in media && r.owner == id && link == MediaLink(r.sourceUrl, pathOf) {
        var r :| r in media && r.owner == id && link == MediaLink(r.sourceUrl, pathOf);
        if r != last {
          assert r in init;
        }
      }
      if id in Owners(media) {
        var r :| r in media && r.owner == id;
        if r != last {
          assert r in init;
          assert id in Owners(init);
        }
      }
      if id in Owners(init) {
        var r :| r in init && r.owner == id;
        assert r in media;
      }
    }
  }

  // ---------------------------------------------------------------------------
  // One status page.

  /** A tweet gets a page when its effective author is the configured user. */
  predicate HasPage(p: Post, userId: int) {
    Effective(p).userId == userId
  }

  /** `text.strip() or "<i>(no text)</i>"` */
  function Body(text: string): string {
    var s := Strip(text);
    if s == [] then NoText else s
  }

  function UrlItems(urls: seq<UrlEntity>): seq<ListItem> {
    seq(|urls|, k requires 0 <= k < |urls| => Anchor(urls[k].expandedUrl, urls[k].displayUrl))
  }

  function LinkItems(links: seq<string>): seq<ListItem> {
    seq(|links|, k requires 0 <= k < |links| => Anchor(links[k], links[k]))
  }

  /** `items or [placeholder]` */
  function OrPlaceholder(items: seq<ListItem>, caption: string): seq<ListItem> {
    if items == [] then [Placeholder(caption)] else items
  }

  /** The status page of a tweet, in the month of index entry `e`: everything is
      taken from the effective tweet. */
  function StatusWrite(p: Post, e: IndexEntry, g: map<string, seq<string>>, outputRoot: string): Write {
    var t := Effective(p);
    Write(StatusPath(outputRoot, t.idStr),
          StatusPage(t.idStr, e.year, e.month, NewlinesToBreaks(Body(t.text)), StatusUrlBase + t.idStr,
                     OrPlaceholder(LinkItems(Lookup(g, t.idStr)), NoMedia),
                     OrPlaceholder(UrlItems(t.urls), NoUrls),
                     t))
  }

  /** The body of one pass of the post loop that renders a page. */
  method RenderStatus(p: Post, e: IndexEntry, g: map<string, seq<string>>, outputRoot: string) returns (w: Write)
    ensures w == StatusWrite(p, e, g, outputRoot)
  {
    var t := Effective(p);
    var text := Strip(t.text);
    if text == [] {
      text := NoText;
    }
    var urls: seq<ListItem> := [];
    for k := 0 to |t.urls|
      invariant urls == UrlItems(t.urls[..k])
    {
      urls := urls + [Anchor(t.urls[k].expandedUrl, t.urls[k].displayUrl)];
    }
    assert t.urls[..|t.urls|] == t.urls;
    var links := Lookup(g, t.idStr);
    var attachments: seq<ListItem> := [];
    for k := 0 to |links|
      invariant attachments == LinkItems(links[..k])
    {
      attachments := attachments + [Anchor(links[k], links[k])];
    }
    assert links[..|links|] == links;
    if attachments == [] {
      attachments := [Placeholder(NoMedia)];
    }
    if urls == [] {
      urls := [Placeholder(NoUrls)];
    }
    w := Write(StatusPath(outputRoot, t.idStr),
               StatusPage(t.idStr, e.year, e.month, NewlinesToBreaks(text), StatusUrlBase + t.idStr,
                          attachments, urls, t));
  }

  /** The body shown for a tweet's text is never empty and has no raw newline;
      it is the "(no text)" placeholder when the text is all white space, and
      otherwise the stripped text with its newlines turned into breaks. */
  lemma BodyShape(text: string)
    ensures var body := NewlinesToBreaks(Body(text));
      && body != [] && '\n' !in body
      && (AllSpace(text) ==> body == NoText)
      && (!AllSpace(text) ==> body == NewlinesToBreaks(Strip(text)))
  {
    StripSpec(text);
    assert '\n' !in NoText by {
      forall k | 0 <= k < |NoText| ensures NoText[k] != '\n' {
      }
    }
  }

  /** A status page is the page of the effective tweet: its id, path, payload and
      the month of the index entry it was found in. */
  lemma StatusPageIsEffectiveTweet(p: Post, e: IndexEntry, g: map<string, seq<string>>, outputRoot: string)
    ensures var w := StatusWrite(p, e, g, outputRoot);
      var t := Effective(p);
      && w.page.StatusPage?
      && w.path == StatusPath(outputRoot, t.idStr)
      && w.page.idStr == t.idStr && w.page.payload == t
      && w.page.statusUrl == StatusUrlBase + t.idStr
      && w.page.year == e.year && w.page.month == e.month
  {
  }

  /** The attachment and URL lists of a status page are never empty: they hold
      one link per media link of the tweet and one per URL entity, in order, or
      a single placeholder exactly when there are none. */
  lemma StatusPageLists(p: Post, e: IndexEntry, g: map<string, seq<string>>, outputRoot: string)
    ensures var w := StatusWrite(p, e, g, outputRoot);
      var t := Effective(p);
      var links := Lookup(g, t.idStr);
      && w.page.StatusPage?
      && w.page.attachments != [] && w.page.urls != []
      && (w.page.attachments == [Placeholder(NoMedia)] <==> links == [])
      && (w.page.urls == [Placeholder(NoUrls)] <==> t.urls == [])
      && (links != [] ==> |w.page.attachments| == |links|)
      && (links != [] ==> forall k :: 0 <= k < |links| ==> w.page.attachments[k] == Anchor(links[k], links[k]))
      && (t.urls != [] ==> |w.page.urls| == |t.urls|)
      && (t.urls != [] ==> forall k :: 0 <= k < |t.urls| ==>
            w.page.urls[k] == Anchor(t.urls[k].expandedUrl, t.urls[k].displayUrl))
  {
    var t := Effective(p);
    var links := Lookup(g, t.idStr);
    assert links != [] ==> LinkItems(links)[0].Anchor?;
    assert t.urls != [] ==> UrlItems(t.urls)[0].Anchor?;
  }

  // ---------------------------------------------------------------------------
  // One month file.

  /** `len([t for t in tweets if t.get("user").get("id") == user_id])`: the count
      recorded in `dates`, taken on the OUTER tweets. */
  function OuterCount(posts: seq<Post>, userId: int): nat {
    if posts == [] then 0
    else OuterCount(posts[..|posts| - 1], userId) + (if posts[|posts| - 1].status.userId == userId then 1 else 0)
  }

  function StatusWrites(posts: seq<Post>, e: IndexEntry, userId: int, g: map<string, seq<string>>, outputRoot: string): seq<Write> {
    if posts == [] then []
    else
      var p := posts[|posts| - 1];
      StatusWrites(posts[..|posts| - 1], e, userId, g, outputRoot)
        + (if HasPage(p, userId) then [StatusWrite(p, e, g, outputRoot)] else [])
  }

  function MonthItems(posts: seq<Post>, userId: int): seq<MonthItem> {
    if posts == [] then []
    else
      var p := posts[|posts| - 1];
      MonthItems(posts[..|posts| - 1], userId)
        + (if HasPage(p, userId) then [MonthItem(Effective(p).idStr, Body(Effective(p).text))] else [])
  }

  /** Everything written for one index entry: its status pages, then its month page. */
  function EntryWrites(f: MonthFile, userId: int, g: map<string, seq<string>>, outputRoot: string): seq<Write> {
    StatusWrites(f.posts, f.entry, userId, g, outputRoot)
      + [Write(MonthPath(outputRoot, f.entry.year, f.entry.month),
               MonthPage(f.entry.year, f.entry.month, MonthItems(f.posts, userId)))]
  }

  /** One more post adds its page and its month item, or neither. */
  lemma MonthStep(posts: seq<Post>, j: nat, e: IndexEntry, userId: int, g: map<string, seq<string>>, outputRoot: string)
    requires j < |posts|
    ensures var p := posts[j];
      && StatusWrites(posts[..j + 1], e, userId, g, outputRoot)
         == StatusWrites(posts[..j], e, userId, g, outputRoot) + (if HasPage(p, userId) then [StatusWrite(p, e, g, outputRoot)] else [])
      && MonthItems(posts[..j + 1], userId)
         == MonthItems(posts[..j], userId) + (if HasPage(p, userId) then [MonthItem(Effective(p).idStr, Body(Effective(p).text))] else [])
  {
    assert posts[..j + 1][..j] == posts[..j];
  }

  /** The post loop of one index entry and the month page after it. */
  method RenderMonth(f: MonthFile, userId: int, g: map<string, seq<string>>, outputRoot: string) returns (writes: seq<Write>)
    ensures writes == EntryWrites(f, userId, g, outputRoot)
  {
    var posts := f.posts;
    var items: seq<MonthItem> := [];
    writes := [];
    for j := 0 to |posts|
      invariant writes == StatusWrites(posts[..j], f.entry, userId, g, outputRoot)
      invariant items == MonthItems(posts[..j], userId)
    {
      MonthStep(posts, j, f.entry, userId, g, outputRoot);
      var t := Effective(posts[j]);
      if t.userId == userId {
        var w := RenderStatus(posts[j], f.entry, g, outputRoot);
        writes := writes + [w];
        var text := Strip(t.text);
        if text == [] {
          text := NoText;
        }
        items := items + [MonthItem(t.idStr, text)];
      }
    }
    assert posts[..|posts|] == posts;
    writes := writes + [Write(MonthPath(outputRoot, f.entry.year, f.entry.month),
                              MonthPage(f.entry.year, f.entry.month, items))];
  }

  /** A tweet gets a status page exactly when its effective author is the
      configured user, and every page written is the page of such a tweet. */
  lemma {:induction false} PagesExactlyForEffectiveUser(posts: seq<Post>, e: IndexEntry, userId: int,
                                                        g: map<string, seq<string>>, outputRoot: string, p: Post)
    ensures p in posts && HasPage(p, userId) ==> StatusWrite(p, e, g, outputRoot) in StatusWrites(posts, e, userId, g, outputRoot)
    ensures forall w :: w in StatusWrites(posts, e, userId, g, outputRoot) ==>
      exists q :: q in posts && HasPage(q, userId) && w == StatusWrite(q, e, g, outputRoot)
  {
    if posts != [] {
      var init := posts[..|posts| - 1];
      PagesExactlyForEffectiveUser(init, e, userId, g, outputRoot, p);
      assert posts == init + [posts[|posts| - 1]];
      forall w | w in StatusWrites(init, e, userId, g, outputRoot)
        ensures exists q :: q in posts && HasPage(q, userId) && w == StatusWrite(q, e, g, outputRoot)
      {
        var q :| q in init && HasPage(q, userId) && w == StatusWrite(q, e, g, outputRoot);
        assert q in posts;
      }
    }
  }

  /** The month page lists the written status pages one for one, in post order. */
  lemma {:induction false} MonthItemsMatchPages(posts: seq<Post>, e: IndexEntry, userId: int,
                                                g: map<string, seq<string>>, outputRoot: string)
    ensures |MonthItems(posts, userId)| == |StatusWrites(posts, e, userId, g, outputRoot)|
    ensures forall k :: 0 <= k < |MonthItems(posts, userId)| ==>
      StatusWrites(posts, e, userId, g, outputRoot)[k].page.StatusPage?
      && MonthItems(posts, userId)[k].idStr == StatusWrites(posts, e, userId, g, outputRoot)[k].page.idStr
      && StatusWrites(posts, e, userId, g, outputRoot)[k].path
         == StatusPath(outputRoot, MonthItems(posts, userId)[k].idStr)
  {
    if posts != [] {
      MonthItemsMatchPages(posts[..|posts| - 1], e, userId, g, outputRoot);
    }
  }

  /** Without retweets the outer and the effective author coincide, so the
      recorded count is the number of status pages of the month. */
  lemma {:induction false} CountMatchesPagesWithoutRetweets(posts: seq<Post>, userId: int)
    requires forall k :: 0 <= k < |posts| ==> posts[k].retweeted.None?
    ensures OuterCount(posts, userId) == |MonthItems(posts, userId)|
  {
    if posts != [] {
      CountMatchesPagesWithoutRetweets(posts[..|posts| - 1], userId);
    }
  }

  /** With retweets they can differ both ways: the user's retweet of someone
      else is counted without a page, and someone else's retweet of the user
      gets a page without being counted. */
  lemma RetweetsSplitCountFromPages()
    ensures var mine := Status("1", 10, "a", [], []);
      var theirs := Status("2", 20, "b", [], []);
      var p := Post(mine, Some(theirs));
      var q := Post(theirs, Some(mine));
      && OuterCount([p], 10) == 1 && MonthItems([p], 10) == []
      && OuterCount([q], 10) == 0 && |MonthItems([q], 10)| == 1
  {
  }

  /** The effective author decides: a retweet by user 1 of user 2's tweet is
      shown for user 2 and not for user 1. */
  lemma EffectiveAuthorDecides()
    ensures var p := Post(Status("10", 1, "rt", [], []), Some(Status("11", 2, "x", [], [])));
      var e := IndexEntry(2021, 5, "f");
      && HasPage(p, 2) && !HasPage(p, 1)
      && StatusWrites([p], e, 2, map[], "o") == [StatusWrite(p, e, map[], "o")]
      && StatusWrite(p, e, map[], "o").page.idStr == "11"
      && StatusWrites([p], e, 1, map[], "o") == []
  {
    var p := Post(Status("10", 1, "rt", [], []), Some(Status("11", 2, "x", [], [])));
    assert [p][..0] == [];
  }

  /** Two copies of a tweet are both rendered: nothing is deduplicated. */
  lemma DuplicatesBothRendered(p: Post, e: IndexEntry, userId: int, g: map<string, seq<string>>, outputRoot: string)
    requires HasPage(p, userId)
    ensures StatusWrites([p, p], e, userId, g, outputRoot) == [StatusWrite(p, e, g, outputRoot), StatusWrite(p, e, g, outputRoot)]
  {
    assert [p, p][..1] == [p];
    assert [p][..0] == [];
    assert StatusWrites([p], e, userId, g, outputRoot) == [StatusWrite(p, e, g, outputRoot)];
  }

  // ---------------------------------------------------------------------------
  // Year pages and the all-time page.

  function YearWrites(years: seq<int>, dates: map<int, seq<MonthRow>>, outputRoot: string): seq<Write>
    requires forall k :: 0 <= k < |years| ==> years[k] in dates
  {
    seq(|years|, k requires 0 <= k < |years| => Write(YearPath(outputRoot, years[k]), YearPage(years[k], dates[years[k]])))
  }

  /** `for y, v in dates.items()`: one page per year, in the dictionary's order. */
  method RenderYearPages(years: seq<int>, dates: map<int, seq<MonthRow>>, outputRoot: string) returns (writes: seq<Write>)
    requires forall k :: 0 <= k < |years| ==> years[k] in dates
    ensures writes == YearWrites(years, dates, outputRoot)
  {
    writes := [];
    for k := 0 to |years|
      invariant writes == YearWrites(years[..k], dates, outputRoot)
    {
      writes := writes + [Write(YearPath(outputRoot, years[k]), YearPage(years[k], dates[years[k]]))];
    }
    assert years[..|years|] == years;
  }

  /** The loop over `sorted(dates.keys(), reverse=True)` and the all-time page. */
  method RenderAllTime(years: seq<int>, dates: map<int, seq<MonthRow>>, outputRoot: string) returns (w: Write)
    requires forall k :: 0 <= k < |years| ==> years[k] in dates
    ensures w == Write(AllTimePath(outputRoot), AllTimePage(AllTimeRows(years, dates)))
  {
    var sorted := SortDescending(years);
    SortDescendingKeepsKeys(years, dates);
    var rows: seq<YearRow> := [];
    for k := 0 to |sorted|
      invariant rows == AllTimeRows(years, dates)[..k]
    {
      rows := rows + [YearRow(sorted[k], Total(dates[sorted[k]]))];
    }
    assert rows == AllTimeRows(years, dates);
    w := Write(AllTimePath(outputRoot), AllTimePage(rows));
  }

  // ---------------------------------------------------------------------------
  // The whole materializer.

  function TallyOf(f: MonthFile, userId: int): Tally {
    Tally(f.entry.year, f.entry.month, OuterCount(f.posts, userId))
  }

  function Tallies(files: seq<MonthFile>, userId: int): seq<Tally> {
    if files == [] then [] else Tallies(files[..|files| - 1], userId) + [TallyOf(files[|files| - 1], userId)]
  }

  function FilesWrites(files: seq<MonthFile>, userId: int, g: map<string, seq<string>>, outputRoot: string): seq<Write> {
    if files == [] then []
    else FilesWrites(files[..|files| - 1], userId, g, outputRoot) + EntryWrites(files[|files| - 1], userId, g, outputRoot)
  }

  /** Every write of a run over the loaded month files, in order. */
  function SiteWrites(files: seq<MonthFile>, userId: int, g: map<string, seq<string>>, outputRoot: string): seq<Write> {
    var ts := Tallies(files, userId);
    FilesWrites(files, userId, g, outputRoot)
      + YearWrites(YearsOf(ts), Dates(ts), outputRoot)
      + [Write(AllTimePath(outputRoot), AllTimePage(AllTimeRows(YearsOf(ts), Dates(ts))))]
  }

  /** `_get_tweet_list`, or the error that stops it. */
  function MaterializeSite(archive: Archive, parseObject: string -> Option<set<string>>,
                           parseIndex: string -> Option<seq<IndexEntry>>, parse: string -> Option<seq<Post>>,
                           userId: int, media: seq<MediaRef>, outputRoot: string, pathOf: string -> string): Result<seq<Write>>
  {
    match Preamble(archive, parseObject, parseIndex)
    case Failure(e) => Failure(e)
    case Success(index) =>
      match LoadAll(index, archive, parse)
      case Failure(e) => Failure(e)
      case Success(files) => Success(SiteWrites(files, userId, MediaMap(media, pathOf), outputRoot))
  }

  /** One more month file appends its writes and its tally. */
  lemma SiteStep(files: seq<MonthFile>, f: MonthFile, userId: int, g: map<string, seq<string>>, outputRoot: string)
    ensures FilesWrites(files + [f], userId, g, outputRoot)
      == FilesWrites(files, userId, g, outputRoot) + EntryWrites(f, userId, g, outputRoot)
    ensures Tallies(files + [f], userId) == Tallies(files, userId) + [TallyOf(f, userId)]
  {
    var fs := files + [f];
    assert fs[..|fs| - 1] == files;
  }

  /** What the index loop leaves behind: the writes of every entry, and the
      keys and lists of `dates`. */
  function EntriesOutcome(index: seq<IndexEntry>, archive: Archive, parse: string -> Option<seq<Post>>,
                          userId: int, g: map<string, seq<string>>, outputRoot: string)
    : Result<(seq<Write>, seq<int>, map<int, seq<MonthRow>>)>
  {
    match LoadAll(index, archive, parse)
    case Failure(e) => Failure(e)
    case Success(files) =>
      var ts := Tallies(files, userId);
      Success((FilesWrites(files, userId, g, outputRoot), YearsOf(ts), Dates(ts)))
  }

  /** The index loop of `_get_tweet_list`. */
  method RenderEntries(index: seq<IndexEntry>, archive: Archive, parse: string -> Option<seq<Post>>,
                       userId: int, g: map<string, seq<string>>, outputRoot: string)
    returns (r: Result<(seq<Write>, seq<int>, map<int, seq<MonthRow>>)>)
    ensures r == EntriesOutcome(index, archive, parse, userId, g, outputRoot)
  {
    var dates: map<int, seq<MonthRow>> := map[];
    var years: seq<int> := [];
    var writes: seq<Write> := [];
    ghost var files: seq<MonthFile> := [];
    for i := 0 to |index|
      invariant LoadAll(index[..i], archive, parse) == Success(files)
      invariant years == YearsOf(Tallies(files, userId))
      invariant dates == Dates(Tallies(files, userId))
      invariant writes == FilesWrites(files, userId, g, outputRoot)
    {
      LoadAllExtend(index, i, archive, parse);
      var read := ReadPrefixedJson(archive, index[i].fileName, parse);
      if read.Failure? {
        LoadAllFailureStops(index, i + 1, archive, parse);
        return Failure(read.error);
      }
      var x := index[i];
      var posts := read.value.1;
      var count := OuterCount(posts, userId);
      SiteStep(files, MonthFile(x, posts), userId, g, outputRoot);
      DatesAppend(Tallies(files, userId), Tally(x.year, x.month, count));
      if x.year !in dates {
        years := years + [x.year];
      }
      dates := dates[x.year := (if x.year in dates then dates[x.year] else []) + [MonthRow(x.month, count)]];
      var entryWrites := RenderMonth(MonthFile(x, posts), userId, g, outputRoot);
      writes := writes + entryWrites;
      files := files + [MonthFile(x, posts)];
    }
    assert index[..|index|] == index;
    return Success((writes, years, dates));
  }

  method RenderSite(archive: Archive, parseObject: string -> Option<set<string>>,
                    parseIndex: string -> Option<seq<IndexEntry>>, parse: string -> Option<seq<Post>>,
                    userId: int, media: seq<MediaRef>, outputRoot: string, pathOf: string -> string)
    returns (r: Result<seq<Write>>)
    ensures r == MaterializeSite(archive, parseObject, parseIndex, parse, userId, media, outputRoot, pathOf)
  {
    var start := Preamble(archive, parseObject, parseIndex);
    if start.Failure? {
      return Failure(start.error);
    }
    var g := GroupMedia(media, pathOf);
    var entries := RenderEntries(start.value, archive, parse, userId, g, outputRoot);
    if entries.Failure? {
      return Failure(entries.error);
    }
    var (writes, years, dates) := entries.value;
    var yearWrites := RenderYearPages(years, dates, outputRoot);
    var allTime := RenderAllTime(years, dates, outputRoot);
    return Success(writes + yearWrites + [allTime]);
  }

  /** The count recorded for an index entry is the number of its tweets whose
      OUTER author is the configured user. */
  lemma {:induction false} TalliesRecordOuterCounts(files: seq<MonthFile>, userId: int)
    ensures |Tallies(files, userId)| == |files|
    ensures forall k :: 0 <= k < |files| ==>
      Tallies(files, userId)[k] == Tally(files[k].entry.year, files[k].entry.month, OuterCount(files[k].posts, userId))
  {
    if files != [] {
      TalliesRecordOuterCounts(files[..|files| - 1], userId);
    }
  }
}
