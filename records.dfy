/** The records the converter reads out of a Twitter archive and hands between
    its stages, with the JSON objects' optional keys made explicit. */
module Records {

  datatype Option<+T> = None | Some(value: T)

  datatype Result<+T> = Success(value: T) | Failure(error: Error)

  /** Why a run aborts. */
  datatype Error =
    | MissingEntry(name: string)       // no such entry in the zip archive
    | MalformedEntry(name: string)     // the entry's text after its prefix is not the expected JSON
    | ApiError                         // the status lookup call failed
    | MissingExtendedMedia             // a looked-up status has no `extended_entities.media`
    | MissingVideoInfo(mediaId: string) // a looked-up media entity has no `video_info`
    | NoVariants(mediaId: string)      // `video_info.variants` is empty, so `[0]` fails
    | MissingKey(key: string)          // a details object lacks a field its log line formats

  datatype UrlEntity = UrlEntity(expandedUrl: string, displayUrl: string)

  datatype MediaEntity = MediaEntity(mediaUrlHttps: string)

  /** The fields of one tweet object that the converter reads. An absent
      `entities.media` key is the empty sequence. */
  datatype Status = Status(
    idStr: string,
    userId: int,
    text: string,
    urls: seq<UrlEntity>,
    media: seq<MediaEntity>)

  /** A tweet as it appears in a month file: the outer object, and the object
      under `retweeted_status` when it has one. */
  datatype Post = Post(status: Status, retweeted: Option<Status>)

  /** `t.get("retweeted_status", t)`: the object whose id, text and entities a
      retweet's page shows. */
  function Effective(p: Post): Status {
    match p.retweeted
    case Some(inner) => inner
    case None => p.status
  }

  /** One element of `data/js/tweet_index.js`. */
  datatype IndexEntry = IndexEntry(year: int, month: int, fileName: string)

  /** A month file of the index once read and parsed. */
  datatype MonthFile = MonthFile(entry: IndexEntry, posts: seq<Post>)

  /** A download: the URL to fetch, where to store it, and the id of the tweet
      whose page links to it. */
  datatype MediaRef = MediaRef(sourceUrl: string, localPath: string, owner: string)

  /** One element of `video_info.variants`; `bitrate` is absent for playlists. */
  datatype Variant = Variant(bitrate: Option<int>, url: string)

  /** One element of `extended_entities.media` in a looked-up status;
      `videoInfo` is absent for photos. */
  datatype ExtendedMedia = ExtendedMedia(idStr: string, videoInfo: Option<seq<Variant>>)

  /** The part of a looked-up status the video pass reads. */
  datatype ApiStatus = ApiStatus(extendedMedia: Option<seq<ExtendedMedia>>)

  datatype ApiPost = ApiPost(status: ApiStatus, retweeted: Option<ApiStatus>)

  function EffectiveApi(p: ApiPost): ApiStatus {
    match p.retweeted
    case Some(inner) => inner
    case None => p.status
  }
}
