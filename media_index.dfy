/** The media index builder (`_get_media_list`): the downloads the site needs,
    in discovery order. First the image of every media entity of the tweets that
    pass the filter; then, for the tweets whose image URL mentions "video", the
    highest-bitrate variant reported by a status lookup. The lookup call itself is
    the parameter `lookup`, fed the comma-joined ids; None stands for an API error. */
module MediaIndex {
  import opened Text
  import opened Records
  import opened ArchiveReader

  /** The account hard-wired into the filter (not the configured user id). */
  const MediaUserId: int := 2415471974

  /** The filter of `_get_media_list`: media are read from the effective tweet,
      but the account and the `@` test look at the outer one. */
  predicate Qualifies(p: Post) {
    Effective(p).media != [] && p.status.userId == MediaUserId && '@' !in p.status.text
  }

  /** `image_basepath.format(urlparse(url.replace(r"\/", "/"))[2])`, where
      `pathOf` stands for the replace-then-`urlparse` path component. */
  function ImagePath(outputRoot: string, pathOf: string -> string, url: string): string {
    outputRoot + "/i/images" + pathOf(url)
  }

  /** The download of one media entity's largest rendition, credited to `owner`. */
  function ImageRef(m: MediaEntity, owner: string, outputRoot: string, pathOf: string -> string): MediaRef {
    MediaRef(m.mediaUrlHttps + ":large", ImagePath(outputRoot, pathOf, m.mediaUrlHttps), owner)
  }

  predicate IsVideo(m: MediaEntity) {
    Contains(m.mediaUrlHttps, "video")
  }

  function EntityRefs(ms: seq<MediaEntity>, owner: string, outputRoot: string, pathOf: string -> string): seq<MediaRef> {
    seq(|ms|, k requires 0 <= k < |ms| => ImageRef(ms[k], owner, outputRoot, pathOf))
  }

  function EntityVideos(ms: seq<MediaEntity>, owner: string): seq<string> {
    if ms == [] then []
    else EntityVideos(ms[..|ms| - 1], owner) + (if IsVideo(ms[|ms| - 1]) then [owner] else [])
  }

  /** What one tweet adds to the media list: one ref per media entity of the
      effective tweet, under the OUTER tweet's id, when the tweet qualifies. */
  function PostRefs(p: Post, outputRoot: string, pathOf: string -> string): seq<MediaRef> {
    if Qualifies(p) then EntityRefs(Effective(p).media, p.status.idStr, outputRoot, pathOf) else []
  }

  /** What one tweet adds to `videos`: its outer id once per media URL mentioning "video". */
  function PostVideos(p: Post): seq<string> {
    if Qualifies(p) then EntityVideos(Effective(p).media, p.status.idStr) else []
  }

  function PostsRefs(ps: seq<Post>, outputRoot: string, pathOf: string -> string): seq<MediaRef> {
    if ps == [] then [] else PostsRefs(ps[..|ps| - 1], outputRoot, pathOf) + PostRefs(ps[|ps| - 1], outputRoot, pathOf)
  }

  function PostsVideos(ps: seq<Post>): seq<string> {
    if ps == [] then [] else PostsVideos(ps[..|ps| - 1]) + PostVideos(ps[|ps| - 1])
  }

  function FilesRefs(files: seq<MonthFile>, outputRoot: string, pathOf: string -> string): seq<MediaRef> {
    if files == [] then []
    else FilesRefs(files[..|files| - 1], outputRoot, pathOf) + PostsRefs(files[|files| - 1].posts, outputRoot, pathOf)
  }

  function FilesVideos(files: seq<MonthFile>): seq<string> {
    if files == [] then [] else FilesVideos(files[..|files| - 1]) + PostsVideos(files[|files| - 1].posts)
  }

  /** The image pass over the whole index, or the error that stops it. */
  function ImageScan(index: seq<IndexEntry>, archive: Archive, parse: string -> Option<seq<Post>>,
                     outputRoot: string, pathOf: string -> string): Result<(seq<MediaRef>, seq<string>)>
  {
    match LoadAll(index, archive, parse)
    case Failure(e) => Failure(e)
    case Success(files) => Success((FilesRefs(files, outputRoot, pathOf), FilesVideos(files)))
  }

  // ---------------------------------------------------------------------------
  // The image pass, as the source runs it: nested loops appending to two lists.

  /** The innermost loop: the media entities of one qualifying tweet. */
  method ScanPost(p: Post, outputRoot: string, pathOf: string -> string) returns (refs: seq<MediaRef>, videos: seq<string>)
    ensures refs == PostRefs(p, outputRoot, pathOf)
    ensures videos == PostVideos(p)
  {
    refs, videos := [], [];
    if !Qualifies(p) {
      return;
    }
    var ms := Effective(p).media;
    var owner := p.status.idStr;
    for k := 0 to |ms|
      invariant refs == EntityRefs(ms[..k], owner, outputRoot, pathOf)
      invariant videos == EntityVideos(ms[..k], owner)
    {
      assert ms[..k + 1][..k] == ms[..k];
      if Contains(ms[k].mediaUrlHttps, "video") {
        videos := videos + [owner];
      }
      refs := refs + [ImageRef(ms[k], owner, outputRoot, pathOf)];
    }
    assert ms[..|ms|] == ms;
  }

  /** The middle loop: the tweets of one month file, through the filter. */
  method ScanPosts(posts: seq<Post>, outputRoot: string, pathOf: string -> string) returns (refs: seq<MediaRef>, videos: seq<string>)
    ensures refs == PostsRefs(posts, outputRoot, pathOf)
    ensures videos == PostsVideos(posts)
  {
    refs, videos := [], [];
    for j := 0 to |posts|
      invariant refs == PostsRefs(posts[..j], outputRoot, pathOf)
      invariant videos == PostsVideos(posts[..j])
    {
      assert posts[..j + 1][..j] == posts[..j];
      var r, v := ScanPost(posts[j], outputRoot, pathOf);
      refs := refs + r;
      videos := videos + v;
    }
    assert posts[..|posts|] == posts;
  }

  /** The outer loop: the month files in index order. */
  method ScanImages(index: seq<IndexEntry>, archive: Archive, parse: string -> Option<seq<Post>>,
                    outputRoot: string, pathOf: string -> string)
    returns (r: Result<(seq<MediaRef>, seq<string>)>)
    ensures r == ImageScan(index, archive, parse, outputRoot, pathOf)
  {
    var media: seq<MediaRef> := [];
    var videos: seq<string> := [];
    ghost var files: seq<MonthFile> := [];
    for i := 0 to |index|
      invariant LoadAll(index[..i], archive, parse) == Success(files)
      invariant media == FilesRefs(files, outputRoot, pathOf)
      invariant videos == FilesVideos(files)
    {
      LoadAllExtend(index, i, archive, parse);
      var read := ReadPrefixedJson(archive, index[i].fileName, parse);
      if read.Failure? {
        LoadAllFailureStops(index, i + 1, archive, parse);
        return Failure(read.error);
      }
      var posts := read.value.1;
      var refs, vids := ScanPosts(posts, outputRoot, pathOf);
      media := media + refs;
      videos := videos + vids;
      files := files + [MonthFile(index[i], posts)];
      assert files[..|files| - 1] == files[..i];
    }
    assert index[..|index|] == index;
    return Success((media, videos));
  }

  // ---------------------------------------------------------------------------
  // Properties of the image pass.

  lemma {:induction false} PostsRefsAppend(a: seq<Post>, b: seq<Post>, outputRoot: string, pathOf: string -> string)
    ensures PostsRefs(a + b, outputRoot, pathOf) == PostsRefs(a, outputRoot, pathOf) + PostsRefs(b, outputRoot, pathOf)
    ensures PostsVideos(a + b) == PostsVideos(a) + PostsVideos(b)
    decreases |b|
  {
    if b != [] {
      var init := b[..|b| - 1];
      assert (a + b)[..|a + b| - 1] == a + init;
      assert (a + b)[|a + b| - 1] == b[|b| - 1];
      PostsRefsAppend(a, init, outputRoot, pathOf);
    } else {
      assert a + b == a;
    }
  }

  /** Discovery order across month files: the list for a longer index is the
      list for its first part followed by the list for the rest. */
  lemma {:induction false} FilesRefsAppend(a: seq<MonthFile>, b: seq<MonthFile>, outputRoot: string, pathOf: string -> string)
    ensures FilesRefs(a + b, outputRoot, pathOf) == FilesRefs(a, outputRoot, pathOf) + FilesRefs(b, outputRoot, pathOf)
    ensures FilesVideos(a + b) == FilesVideos(a) + FilesVideos(b)
    decreases |b|
  {
    if b != [] {
      var init := b[..|b| - 1];
      assert (a + b)[..|a + b| - 1] == a + init;
      assert (a + b)[|a + b| - 1] == b[|b| - 1];
      FilesRefsAppend(a, init, outputRoot, pathOf);
      assert FilesRefs(b, outputRoot, pathOf) == FilesRefs(init, outputRoot, pathOf) + PostsRefs(b[|b| - 1].posts, outputRoot, pathOf);
      assert FilesVideos(b) == FilesVideos(init) + PostsVideos(b[|b| - 1].posts);
    } else {
      assert a + b == a;
    }
  }

  /** A ref is in a month file's list exactly when it is the `:large` image of a
      media entity of a qualifying tweet, credited to that tweet's outer id; so
      every source URL ends in ":large". */
  lemma {:induction false} PostsRefsMembers(ps: seq<Post>, outputRoot: string, pathOf: string -> string, r: MediaRef)
    ensures r in PostsRefs(ps, outputRoot, pathOf) <==>
      exists j, k :: 0 <= j < |ps| && Qualifies(ps[j]) && 0 <= k < |Effective(ps[j]).media|
        && r == ImageRef(Effective(ps[j]).media[k], ps[j].status.idStr, outputRoot, pathOf)
  {
    if ps != [] {
      var init := ps[..|ps| - 1];
      var last := ps[|ps| - 1];
      PostsRefsMembers(init, outputRoot, pathOf, r);
      if r in PostRefs(last, outputRoot, pathOf) {
        var k :| 0 <= k < |Effective(last).media| && r == ImageRef(Effective(last).media[k], last.status.idStr, outputRoot, pathOf);
        assert ps[|ps| - 1] == last;
      }
      if exists j, k ::
           0 <= j < |ps| && Qualifies(ps[j]) && 0 <= k < |Effective(ps[j]).media|
           && r == ImageRef(Effective(ps[j]).media[k], ps[j].status.idStr, outputRoot, pathOf)
      {
        var j, k :| 0 <= j < |ps| && Qualifies(ps[j]) && 0 <= k < |Effective(ps[j]).media|
          && r == ImageRef(Effective(ps[j]).media[k], ps[j].status.idStr, outputRoot, pathOf);
        if j < |ps| - 1 {
          assert init[j] == ps[j];
        } else {
          assert PostRefs(last, outputRoot, pathOf)[k] == r;
        }
      }
    }
  }

  /** Every image ref asks for the ":large" rendition. */
  lemma PostsRefsLarge(ps: seq<Post>, outputRoot: string, pathOf: string -> string, r: MediaRef)
    requires r in PostsRefs(ps, outputRoot, pathOf)
    ensures EndsWith(r.sourceUrl, ":large")
  {
    PostsRefsMembers(ps, outputRoot, pathOf, r);
    var j, k :| 0 <= j < |ps| && Qualifies(ps[j]) && 0 <= k < |Effective(ps[j]).media|
      && r == ImageRef(Effective(ps[j]).media[k], ps[j].status.idStr, outputRoot, pathOf);
    var m := Effective(ps[j]).media[k].mediaUrlHttps;
    assert r.sourceUrl == m + ":large";
  }

  function QualifyingMediaCount(ps: seq<Post>): nat {
    if ps == [] then 0
    else QualifyingMediaCount(ps[..|ps| - 1]) + (if Qualifies(ps[|ps| - 1]) then |Effective(ps[|ps| - 1]).media| else 0)
  }

  /** No deduplication: one ref per media entity of every qualifying tweet. */
  lemma {:induction false} PostsRefsCount(ps: seq<Post>, outputRoot: string, pathOf: string -> string)
    ensures |PostsRefs(ps, outputRoot, pathOf)| == QualifyingMediaCount(ps)
  {
    if ps != [] {
      PostsRefsCount(ps[..|ps| - 1], outputRoot, pathOf);
    }
  }

  /** How many media URLs of a tweet mention "video", counted from the front. */
  function VideoCount(ms: seq<MediaEntity>): nat {
    if ms == [] then 0 else (if IsVideo(ms[0]) then 1 else 0) + VideoCount(ms[1..])
  }

  lemma {:induction false} VideoCountLast(ms: seq<MediaEntity>)
    requires ms != []
    ensures VideoCount(ms) == VideoCount(ms[..|ms| - 1]) + (if IsVideo(ms[|ms| - 1]) then 1 else 0)
  {
    if |ms| > 1 {
      VideoCountLast(ms[1..]);
      assert ms[1..][..|ms| - 2] == ms[..|ms| - 1][1..];
    }
  }

  /** A tweet's id is flagged once for every media URL that mentions "video",
      and nothing else is flagged for it. */
  lemma {:induction false} EntityVideosMembers(ms: seq<MediaEntity>, owner: string)
    ensures forall x :: x in EntityVideos(ms, owner) ==> x == owner
    ensures |EntityVideos(ms, owner)| == VideoCount(ms)
    ensures owner in EntityVideos(ms, owner) <==> exists k :: 0 <= k < |ms| && IsVideo(ms[k])
  {
    if ms != [] {
      var init := ms[..|ms| - 1];
      EntityVideosMembers(init, owner);
      VideoCountLast(ms);
      if exists k :: 0 <= k < |ms| && IsVideo(ms[k]) {
        var k :| 0 <= k < |ms| && IsVideo(ms[k]);
        if k < |ms| - 1 {
          assert init[k] == ms[k];
        }
      }
    }
  }

  /** An id is flagged for video resolution exactly when it is the outer id of a
      qualifying tweet with a media URL mentioning "video"; that media entity's
      image ref is in the list as well. */
  lemma {:induction false} PostsVideosMembers(ps: seq<Post>, outputRoot: string, pathOf: string -> string, id: string)
    ensures id in PostsVideos(ps) <==>
      exists j, k :: 0 <= j < |ps| && Qualifies(ps[j]) && ps[j].status.idStr == id
        && 0 <= k < |Effective(ps[j]).media| && IsVideo(Effective(ps[j]).media[k])
    ensures id in PostsVideos(ps) ==>
      exists r :: r in PostsRefs(ps, outputRoot, pathOf) && r.owner == id
  {
    if ps != [] {
      var init := ps[..|ps| - 1];
      var last := ps[|ps| - 1];
      PostsVideosMembers(init, outputRoot, pathOf, id);
      if Qualifies(last) {
        EntityVideosMembers(Effective(last).media, last.status.idStr);
      }
      if exists j, k ::
           0 <= j < |ps| && Qualifies(ps[j]) && ps[j].status.idStr == id
           && 0 <= k < |Effective(ps[j]).media| && IsVideo(Effective(ps[j]).media[k])
      {
        var j, k :| 0 <= j < |ps| && Qualifies(ps[j]) && ps[j].status.idStr == id
          && 0 <= k < |Effective(ps[j]).media| && IsVideo(Effective(ps[j]).media[k]);
        if j < |ps| - 1 {
          assert init[j] == ps[j];
        }
      }
      if id in PostsVideos(ps) {
        var j, k :| 0 <= j < |ps| && Qualifies(ps[j]) && ps[j].status.idStr == id
          && 0 <= k < |Effective(ps[j]).media| && IsVideo(Effective(ps[j]).media[k]);
        var r := ImageRef(Effective(ps[j]).media[k], id, outputRoot, pathOf);
        PostsRefsMembers(ps, outputRoot, pathOf, r);
      }
    }
  }

  /** A tweet with two video URLs is flagged twice: `videos` keeps duplicates. */
  lemma VideoIdRepeated(outputRoot: string, pathOf: string -> string)
    ensures var m := MediaEntity("/video/1.jpg");
      var p := Post(Status("7", MediaUserId, "clip", [], [m, m]), None);
      PostsVideos([p]) == ["7", "7"] && |PostsRefs([p], outputRoot, pathOf)| == 2
  {
    var m := MediaEntity("/video/1.jpg");
    assert IsVideo(m) by {
      var u := m.mediaUrlHttps;
      assert u[1..6] == "video";
      ContainsAt(u, "video", 1);
    }
    var p := Post(Status("7", MediaUserId, "clip", [], [m, m]), None);
    assert Qualifies(p) && Effective(p).media == [m, m];
    assert [m, m][..1] == [m];
    assert [m, m][..1][..0] == [];
    assert EntityVideos([m], "7") == ["7"];
    assert PostVideos(p) == ["7", "7"];
    assert |PostRefs(p, outputRoot, pathOf)| == 2;
    assert [p][..0] == [];
  }

  // ---------------------------------------------------------------------------
  // The video pass.

  /** `x.get("bitrate", -1)` */
  function Key(v: Variant): int {
    match v.bitrate
    case Some(b) => b
    case None => -1
  }

  /** The variant `sorted(variants, key=Key, reverse=True)[0]` picks: Python's sort
      is stable, also in reverse, so it is the first variant of greatest key;
      an empty list has no `[0]`. */
  function BestVariant(vs: seq<Variant>): (r: Option<nat>)
    ensures r.None? <==> vs == []
    ensures r.Some? ==> r.value < |vs|
    ensures r.Some? ==> forall j :: 0 <= j < |vs| ==> Key(vs[j]) <= Key(vs[r.value])
    ensures r.Some? ==> forall j :: 0 <= j < r.value ==> Key(vs[j]) < Key(vs[r.value])
  {
    if vs == [] then None
    else
      match BestVariant(vs[1..])
      case None => Some(0)
      case Some(k) => if Key(vs[k + 1]) > Key(vs[0]) then Some(k + 1) else Some(0)
  }

  /** The download of one looked-up media entity: its best variant's URL,
      credited to the media entity's own id. */
  function VideoRef(m: ExtendedMedia, outputRoot: string, pathOf: string -> string): Result<MediaRef> {
    match m.videoInfo
    case None => Failure(MissingVideoInfo(m.idStr))
    case Some(vs) =>
      match BestVariant(vs)
      case None => Failure(NoVariants(m.idStr))
      case Some(k) => Success(MediaRef(vs[k].url, ImagePath(outputRoot, pathOf, vs[k].url), m.idStr))
  }

  /** `Success(acc + rest)`, or the failure that ended `rest`. */
  function Prepend(acc: seq<MediaRef>, rest: Result<seq<MediaRef>>): Result<seq<MediaRef>> {
    match rest
    case Failure(e) => Failure(e)
    case Success(xs) => Success(acc + xs)
  }

  lemma PrependNothing(rest: Result<seq<MediaRef>>)
    ensures Prepend([], rest) == rest
  {
    if rest.Success? {
      assert [] + rest.value == rest.value;
    }
  }

  lemma PrependTwice(a: seq<MediaRef>, b: seq<MediaRef>, rest: Result<seq<MediaRef>>)
    ensures Prepend(a, Prepend(b, rest)) == Prepend(a + b, rest)
  {
    if rest.Success? {
      assert a + (b + rest.value) == (a + b) + rest.value;
    }
  }

  function MediaVideoRefs(ms: seq<ExtendedMedia>, outputRoot: string, pathOf: string -> string): Result<seq<MediaRef>> {
    if ms == [] then Success([])
    else
      match VideoRef(ms[0], outputRoot, pathOf)
      case Failure(e) => Failure(e)
      case Success(x) => Prepend([x], MediaVideoRefs(ms[1..], outputRoot, pathOf))
  }

  function StatusVideoRefs(p: ApiPost, outputRoot: string, pathOf: string -> string): Result<seq<MediaRef>> {
    match EffectiveApi(p).extendedMedia
    case None => Failure(MissingExtendedMedia)
    case Some(ms) => MediaVideoRefs(ms, outputRoot, pathOf)
  }

  function VideoRefs(ps: seq<ApiPost>, outputRoot: string, pathOf: string -> string): Result<seq<MediaRef>> {
    if ps == [] then Success([])
    else
      match StatusVideoRefs(ps[0], outputRoot, pathOf)
      case Failure(e) => Failure(e)
      case Success(xs) => Prepend(xs, VideoRefs(ps[1..], outputRoot, pathOf))
  }

  /** When the video pass succeeds, it yields one ref per looked-up media entity,
      each the best variant of that entity and owned by the entity's id. */
  lemma {:induction false} MediaVideoRefsShape(ms: seq<ExtendedMedia>, outputRoot: string, pathOf: string -> string)
    requires MediaVideoRefs(ms, outputRoot, pathOf).Success?
    ensures var xs := MediaVideoRefs(ms, outputRoot, pathOf).value;
      && |xs| == |ms|
      && forall k :: 0 <= k < |ms| ==>
        && ms[k].videoInfo.Some?
        && BestVariant(ms[k].videoInfo.value).Some?
        && xs[k] == MediaRef(ms[k].videoInfo.value[BestVariant(ms[k].videoInfo.value).value].url,
                             ImagePath(outputRoot, pathOf, ms[k].videoInfo.value[BestVariant(ms[k].videoInfo.value).value].url),
                             ms[k].idStr)
  {
    if ms != [] {
      MediaVideoRefsShape(ms[1..], outputRoot, pathOf);
      var xs := MediaVideoRefs(ms, outputRoot, pathOf).value;
      assert forall k :: 1 <= k < |ms| ==> ms[1..][k - 1] == ms[k];
    }
  }

  /** The video pass over one status's media succeeds exactly when every media
      entity has `video_info` with at least one variant. */
  lemma {:induction false} MediaVideoRefsSucceedsIff(ms: seq<ExtendedMedia>, outputRoot: string, pathOf: string -> string)
    ensures MediaVideoRefs(ms, outputRoot, pathOf).Success? <==>
      forall k :: 0 <= k < |ms| ==> ms[k].videoInfo.Some? && ms[k].videoInfo.value != []
  {
    if ms != [] {
      MediaVideoRefsSucceedsIff(ms[1..], outputRoot, pathOf);
      assert forall k :: 1 <= k < |ms| ==> ms[1..][k - 1] == ms[k];
    }
  }

  /** The pass over the looked-up statuses succeeds exactly when every status's
      own pass does: the first failing status stops it. */
  lemma {:induction false} VideoRefsSucceedsIff(ps: seq<ApiPost>, outputRoot: string, pathOf: string -> string)
    ensures VideoRefs(ps, outputRoot, pathOf).Success? <==>
      forall i :: 0 <= i < |ps| ==> StatusVideoRefs(ps[i], outputRoot, pathOf).Success?
  {
    if ps != [] {
      VideoRefsSucceedsIff(ps[1..], outputRoot, pathOf);
      assert forall i :: 1 <= i < |ps| ==> ps[1..][i - 1] == ps[i];
    }
  }

  /** The inner loop of the video pass: the media entities of one looked-up
      status's effective `extended_entities`. */
  method ResolveStatus(p: ApiPost, outputRoot: string, pathOf: string -> string) returns (r: Result<seq<MediaRef>>)
    ensures r == StatusVideoRefs(p, outputRoot, pathOf)
  {
    var t := EffectiveApi(p);
    if t.extendedMedia.None? {
      return Failure(MissingExtendedMedia);
    }
    var ms := t.extendedMedia.value;
    var media: seq<MediaRef> := [];
    assert ms[0..] == ms;
    PrependNothing(MediaVideoRefs(ms, outputRoot, pathOf));
    for k := 0 to |ms|
      invariant MediaVideoRefs(ms, outputRoot, pathOf) == Prepend(media, MediaVideoRefs(ms[k..], outputRoot, pathOf))
    {
      assert ms[k..][1..] == ms[k + 1..];
      assert ms[k..][0] == ms[k];
      var m := ms[k];
      if m.videoInfo.None? {
        return Failure(MissingVideoInfo(m.idStr));
      }
      var best := BestVariant(m.videoInfo.value);
      if best.None? {
        return Failure(NoVariants(m.idStr));
      }
      var url := m.videoInfo.value[best.value].url;
      var x := MediaRef(url, ImagePath(outputRoot, pathOf, url), m.idStr);
      PrependTwice(media, [x], MediaVideoRefs(ms[k + 1..], outputRoot, pathOf));
      media := media + [x];
    }
    assert ms[|ms|..] == [];
    assert media + [] == media;
    return Success(media);
  }

  /** The video pass as the source runs it: for every looked-up status, for every
      media entity of its effective `extended_entities`, append the best variant. */
  method ResolveVideos(statuses: seq<ApiPost>, outputRoot: string, pathOf: string -> string)
    returns (r: Result<seq<MediaRef>>)
    ensures r == VideoRefs(statuses, outputRoot, pathOf)
  {
    var media: seq<MediaRef> := [];
    assert statuses[0..] == statuses;
    PrependNothing(VideoRefs(statuses, outputRoot, pathOf));
    for i := 0 to |statuses|
      invariant VideoRefs(statuses, outputRoot, pathOf) == Prepend(media, VideoRefs(statuses[i..], outputRoot, pathOf))
    {
      assert statuses[i..][1..] == statuses[i + 1..];
      assert statuses[i..][0] == statuses[i];
      var refs := ResolveStatus(statuses[i], outputRoot, pathOf);
      if refs.Failure? {
        return Failure(refs.error);
      }
      PrependTwice(media, refs.value, VideoRefs(statuses[i + 1..], outputRoot, pathOf));
      media := media + refs.value;
    }
    assert statuses[|statuses|..] == [];
    assert media + [] == media;
    return Success(media);
  }

  // ---------------------------------------------------------------------------
  // The whole builder.

  /** What `_get_media_list` computes once it has the index: the image refs, then,
      when videos are extracted, the refs of the looked-up videos. */
  function CollectMedia(index: seq<IndexEntry>, archive: Archive, parse: string -> Option<seq<Post>>,
                        outputRoot: string, pathOf: string -> string,
                        withExtractVideo: bool, lookup: string -> Option<seq<ApiPost>>): Result<seq<MediaRef>>
  {
    match ImageScan(index, archive, parse, outputRoot, pathOf)
    case Failure(e) => Failure(e)
    case Success(scan) =>
      if !withExtractVideo then Success(scan.0)
      else
        match lookup(Join(scan.1, ","))
        case None => Failure(ApiError)
        case Some(statuses) => Prepend(scan.0, VideoRefs(statuses, outputRoot, pathOf))
  }

  /** `_get_media_list`, or the error that stops it. */
  function MediaList(archive: Archive, parseObject: string -> Option<set<string>>,
                     parseIndex: string -> Option<seq<IndexEntry>>, parse: string -> Option<seq<Post>>,
                     outputRoot: string, pathOf: string -> string,
                     withExtractVideo: bool, lookup: string -> Option<seq<ApiPost>>): Result<seq<MediaRef>>
  {
    match Preamble(archive, parseObject, parseIndex)
    case Failure(e) => Failure(e)
    case Success(index) => CollectMedia(index, archive, parse, outputRoot, pathOf, withExtractVideo, lookup)
  }

  method BuildMediaList(archive: Archive, parseObject: string -> Option<set<string>>,
                        parseIndex: string -> Option<seq<IndexEntry>>, parse: string -> Option<seq<Post>>,
                        outputRoot: string, pathOf: string -> string,
                        withExtractVideo: bool, lookup: string -> Option<seq<ApiPost>>)
    returns (r: Result<seq<MediaRef>>)
    ensures r == MediaList(archive, parseObject, parseIndex, parse, outputRoot, pathOf, withExtractVideo, lookup)
  {
    var start := Preamble(archive, parseObject, parseIndex);
    if start.Failure? {
      return Failure(start.error);
    }
    var index := start.value;
    var scan := ScanImages(index, archive, parse, outputRoot, pathOf);
    if scan.Failure? {
      return Failure(scan.error);
    }
    var (media, videos) := scan.value;
    if !withExtractVideo {
      return Success(media);
    }
    var statuses := lookup(Join(videos, ","));
    if statuses.None? {
      return Failure(ApiError);
    }
    var extra := ResolveVideos(statuses.value, outputRoot, pathOf);
    if extra.Failure? {
      return Failure(extra.error);
    }
    return Success(media + extra.value);
  }

  /** The images come first and keep their discovery order: a successful media
      list starts with every image ref of the index, month file by month file. */
  lemma ImagesComeFirst(index: seq<IndexEntry>, archive: Archive, parse: string -> Option<seq<Post>>,
                        outputRoot: string, pathOf: string -> string,
                        withExtractVideo: bool, lookup: string -> Option<seq<ApiPost>>)
    requires CollectMedia(index, archive, parse, outputRoot, pathOf, withExtractVideo, lookup).Success?
    ensures LoadAll(index, archive, parse).Success?
    ensures var refs := FilesRefs(LoadAll(index, archive, parse).value, outputRoot, pathOf);
      var r := CollectMedia(index, archive, parse, outputRoot, pathOf, withExtractVideo, lookup).value;
      |refs| <= |r| && r[..|refs|] == refs
  {
  }
}
