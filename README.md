# extract-twitter, modelled in Dafny

extract-twitter turns a Twitter archive (the zip file Twitter used to hand out,
with its `data/js/*.js` entries) into a static site. Every tweet whose effective
author (the retweeted tweet's author, for a retweet) is the archive's user gets
a status page, every month of the tweet index gets a list page, every year gets a page
listing its months, and one all-time page lists the years. It also builds a
list of media downloads: the large image of every media entity of selected
tweets, plus the best video variant when a status lookup is possible.

This project models that core in Dafny:

- `text.dfy` (module `Text`): the pieces of Python's `str` the program relies
  on: `find`, `in`, `endswith`, `strip` (Python's white-space set),
  `replace("\n", "<br>")` and `",".join`.
- `format.dfy` (module `Format`): the `"{:04d}"` and `"{:02d}"` fields, with
  Python's sign-aware zero padding, and the date strings built from them.
- `records.dfy` (module `Records`): the fields of the archive's JSON objects
  that the program reads (tweets, retweets, URL and media entities, index
  entries, looked-up statuses and their video variants), and the errors that
  abort a run.
- `archive_reader.dfy` (module `ArchiveReader`): `_load_json`, which cuts the
  JavaScript prefix off an entry and parses the rest. It also covers the start
  that both passes share (payload details, user details, tweet index, and the
  debug lines that read their fields) and reading every month file of the index.
- `media_index.dfy` (module `MediaIndex`): `_get_media_list`, i.e. the image
  pass over the index, the video ids it flags, and the video pass over the
  looked-up statuses.
- `calendar.dfy` (module `Calendar`): the `dates` dictionary of
  `_get_tweet_list`, its key order, year totals and the descending year order
  of the all-time page.
- `site.dfy` (module `Site`): `_get_tweet_list` itself. It groups the media
  list into page links, writes the status and month pages, then the year
  pages and the all-time page.

The site and the media list are modelled as data. A run's output is the
sequence of file writes, each a path and the record of what the page template
is filled with, or the error that stops the run. The loops of the program are
methods with loop invariants. Each is proved equal to a specification
function: a recursive function for most loops, and a sequence comprehension
for the year-page and all-time loops (`Site.YearWrites`,
`Calendar.AllTimeRows`). The lemmas state what those functions guarantee.

Abstractions that stand for library calls:

- The zip archive is a map from entry name to the entry's decoded text.
- `json.loads` is a parameter: `parse` for month files, `parseIndex` for the
  tweet index, and `parseObject` for the details objects. A details object is
  modelled by its key set. Each parameter answers `None` when the text is not
  the expected JSON.
- `urlparse(url.replace("\/", "/"))[2]` is the parameter `pathOf`.
- `twitter.Twitter(...).statuses.lookup` is the parameter `lookup`. It is given
  the comma-joined id string; `None` stands for a failed API call.

## Model

| member | source | states |
|---|---|---|
| Text.FindSpec | main.py:147 | `find` answers -1 exactly when the character does not occur; otherwise the character is at the answer and not before it |
| Text.ContainsAt | main.py:287 | `sub in s` holds whenever `sub` occurs at some position of `s` |
| Text.ContainsIff | main.py:287 | `sub in s` holds exactly when `sub` occurs at some position of `s`, so `not in` means it occurs nowhere |
| Text.StripSpec | main.py:197 | `strip` removes all leading and trailing white space: the result is the text with a white-space prefix and a white-space suffix cut off, is no longer than the text, does not begin or end with white space, and is empty exactly when the text is all white space |
| Text.NewlinesToBreaks | main.py:216 | `replace("\n", "<br>")` leaves no newline, changes nothing in a text without one, and never shortens the text |
| Text.NewlinesToBreaksMeaning | main.py:216 | the replacement works character by character: a newline becomes `<br>`, every other character is kept, and concatenations are replaced piecewise |
| Format.PadIntRoundTrip | main.py:212 | a zero-padded field is all digits, at least as wide as asked, exactly as wide when the number fits, and reads back as the number |
| Format.DateTextInjective | main.py:212 | for years below 10000 and months below 100, distinct (year, month) pairs give distinct `YYYY/MM` strings |
| Format.YearTextInjective | main.py:230 | for years below 10000, distinct years give distinct `YYYY` strings |
| ArchiveReader.MinPositive | main.py:147 | `min(filter(x > 0), default=0)` is 0 exactly when no element is positive, and otherwise the least positive element |
| ArchiveReader.SplitIndex | main.py:147 | the cut lies within the text, and a positive cut lies on a character of it |
| ArchiveReader.Split | main.py:148 | the discarded prefix followed by the parsed part is the whole entry, and the prefix ends at the cut |
| ArchiveReader.SplitIndexCharacterised | main.py:147 | a positive cut is on a `[`, `{` or `"` that differs from the entry's first character; every such character before the cut repeats the first character; the cut is 0 exactly when every such character after position 0 repeats the first |
| ArchiveReader.SplitAtFirstJsonStart | main.py:147-148 | when the entry starts with a real prefix, the cut is at the first `[`, `{` or `"`, and is 0 exactly when there is none |
| ArchiveReader.LeadingJsonStartIgnored | main.py:147 | an entry that starts with `[` is not kept whole: `["a"]` is cut after the `[` |
| ArchiveReader.ReadPrefixedJson | main.py:145-148 | a missing entry and an unparsable remainder are distinct errors; an entry that is present and whose remainder parses is read successfully, as the prefix and the parsed value; on success the prefix plus the parsed text is the entry |
| ArchiveReader.Preamble | main.py:169-173 | the shared start succeeds exactly when the three entries read and the user details have `screen_name` and `id` and the payload details have `tweets` and `created_at`; it then yields the parsed index; a missing payload details entry is the first error |
| ArchiveReader.LoadAll | main.py:187-189 | one month file per index entry, in index order, each tagged with its entry |
| ArchiveReader.LoadAllSucceedsIff | main.py:187-189 | loading succeeds exactly when every entry's file reads, and each month file holds the parse of its entry |
| ArchiveReader.LoadAllFailureStops | main.py:188-189 | once a prefix of the index fails to load, the whole run fails with that error |
| ArchiveReader.LoadAllExtend | main.py:188-189 | loading one more entry appends its month file or fails with its read error |
| MediaIndex.ScanPost | main.py:285-293 | the media loop of one tweet yields exactly that tweet's image refs and video flags |
| MediaIndex.ScanPosts | main.py:280-293 | the filtered tweet loop of one month file yields exactly that file's refs and flags |
| MediaIndex.ScanImages | main.py:278-293 | the image pass yields the refs and flags of every month file in index order, or the first read error |
| MediaIndex.PostsRefsAppend | main.py:280-293 | within a month file, refs and video flags follow tweet order |
| MediaIndex.FilesRefsAppend | main.py:278-293 | across month files, refs and video flags follow index order |
| MediaIndex.PostsRefsMembers | main.py:280-293 | a ref is listed exactly when it is the `:large` image of a media entity of a tweet that passes the filter, credited to that tweet's outer id |
| MediaIndex.PostsRefsLarge | main.py:291 | every image ref asks for the `:large` rendition |
| MediaIndex.PostsRefsCount | main.py:285-293 | one ref per media entity of every tweet that passes the filter, nothing deduplicated |
| MediaIndex.EntityVideosMembers | main.py:287-289 | a tweet's id is flagged once for every media URL containing "video", so it is flagged exactly when one does, and nothing else is flagged for it |
| MediaIndex.PostsVideosMembers | main.py:280-289 | an id is flagged exactly when it is the outer id of a tweet that passes the filter and has a media URL containing "video"; a flagged id also owns an image ref |
| MediaIndex.VideoIdRepeated | main.py:287-289 | a tweet with two video URLs is flagged twice |
| MediaIndex.BestVariant | main.py:298-300 | the chosen variant exists exactly when the list is non-empty, has the greatest bitrate (a missing bitrate counts as -1), and is the first of those |
| MediaIndex.MediaVideoRefsShape | main.py:297-303 | a successful video pass gives one ref per looked-up media entity: its best variant's URL, owned by the media entity's id |
| MediaIndex.MediaVideoRefsSucceedsIff | main.py:297-303 | the media loop of one looked-up status succeeds exactly when every media entity has `video_info` with a non-empty variant list |
| MediaIndex.VideoRefsSucceedsIff | main.py:296-303 | the video pass succeeds exactly when the media loop of every looked-up status succeeds |
| MediaIndex.ResolveStatus | main.py:297-303 | the media loop of one looked-up status yields its video refs, or the error for missing `extended_entities`, missing `video_info` or empty variants |
| MediaIndex.ResolveVideos | main.py:296-303 | the video pass yields the refs of every looked-up status in order, or the first error |
| MediaIndex.BuildMediaList | main.py:268-304 | `_get_media_list`: the shared start, the image pass, then, when video extraction is on, the lookup of the flagged ids (a failed call aborts) and the video refs |
| MediaIndex.ImagesComeFirst | main.py:276-304 | a successful media list starts with every image ref, in discovery order |
| Calendar.YearsOfMembers | main.py:187-191 | the keys of `dates` are distinct and are exactly the years of the index entries |
| Calendar.DatesAppend | main.py:190-191 | one `dates[year].append((month, count))` adds the year as a new last key only when it is new, and keeps `dates` equal to the dictionary of all entries so far |
| Calendar.RowsAbsent | main.py:187-191 | a year without entries has no rows |
| Calendar.RowsAppend | main.py:190-191 | a year's rows keep one pair per entry of that year, in index order, repeated months not merged |
| Calendar.TotalAppend | main.py:261 | a year's total adds up the counts of all its rows |
| Calendar.YearTotalOfTallies | main.py:190-191 | one more entry adds its count to its own year's total and to no other |
| Calendar.InsertKeepsOrder | main.py:255 | inserting a new year into a strictly descending list keeps it strictly descending, one longer, with that year added |
| Calendar.SortDescendingSorts | main.py:255 | `sorted(keys, reverse=True)` of distinct years is strictly descending and has the same years, as many of them |
| Calendar.AllTimeRowsListsYears | main.py:254-261 | the all-time page lists every year exactly once, strictly descending, each with the sum of its counts |
| Site.ListPagesDistinct | main.py:176 | for years below 10000 and months below 100, month pages of different months and year pages of different years are different files, and no year page is a month page |
| Site.StripLargeRemovesOneSuffix | main.py:183-184 | exactly one trailing `:large` is dropped, and a link without it is unchanged |
| Site.MediaMapAppend | main.py:181-185 | one more media ref appends its link to its owner's list and changes no other |
| Site.GroupMedia | main.py:180-185 | the grouping loop builds the owner-to-links dictionary of the whole media list |
| Site.LinksForAppend | main.py:181-185 | each owner's links keep the media list's order |
| Site.LinksForMembers | main.py:180-185 | a link is listed for an id exactly when a ref owned by that id has it as its page link; an id with no ref has no links |
| Site.RenderStatus | main.py:194-222 | one pass of the post loop writes the status page of the effective tweet |
| Site.BodyShape | main.py:197-198 | the page body is never empty and has no raw newline; an all-white-space text shows the "(no text)" placeholder, any other the stripped text with breaks |
| Site.StatusPageIsEffectiveTweet | main.py:194-218 | a status page carries the effective tweet's id, path, status URL and payload, and the month of its index entry |
| Site.StatusPageLists | main.py:201-211 | the attachment and URL lists hold one link per media link and per URL entity, in order, or one placeholder exactly when there are none |
| Site.RenderMonth | main.py:192-237 | the post loop of one index entry writes its status pages in post order, then the month page |
| Site.PagesExactlyForEffectiveUser | main.py:193-195 | a tweet gets a status page exactly when its effective author is the configured user |
| Site.MonthItemsMatchPages | main.py:224-229 | the month page lists the written status pages one for one, in order |
| Site.CountMatchesPagesWithoutRetweets | main.py:190-195 | without retweets, the count recorded for a month equals its number of status pages |
| Site.RetweetsSplitCountFromPages | main.py:190-195 | with retweets the two differ both ways: a retweet by the user is counted without a page, and a retweet of the user gets a page without being counted |
| Site.EffectiveAuthorDecides | main.py:194-195 | a retweet is shown for the author of the retweeted tweet, under that tweet's id, and not for the retweeter |
| Site.DuplicatesBothRendered | main.py:193-229 | two copies of a tweet are both rendered: nothing is deduplicated |
| Site.RenderEntries | main.py:187-238 | the index loop writes every entry's pages in index order and leaves `dates` with one key per year, in first-appearance order, holding that year's (month, count) pairs; or the first read error |
| Site.RenderYearPages | main.py:239-252 | one year page per key of `dates`, in insertion order, each with that year's rows |
| Site.RenderAllTime | main.py:254-264 | the all-time page lists the years in descending order with their totals |
| Site.RenderSite | main.py:168-264 | `_get_tweet_list`: the shared start, every index entry's pages, then the year pages and the all-time page, or the first error |
| Site.TalliesRecordOuterCounts | main.py:190-191 | the count recorded for an index entry is the number of its tweets whose outer author is the configured user |

## Left out

- File system, HTML and logging: the pages are records of their template
  fields, not HTML text. `os.makedirs`, `open`, the templates, `html.escape`,
  `json.dumps` of the payload, `canonical_root`, the CSS hash and every log
  line are not modelled. The one exception is the debug lines' effect on
  aborting: a missing key fails the run.
- Files already written before an error aborts a run are not modelled. The
  model answers only the error.
- ArchiveReader.Preamble: a details entry that parses but is not a JSON object
  is reported as a malformed entry. The program would instead fail in
  `str.format(**…)` with a type error.
- ArchiveReader.Preamble: the parsers deliver index entries with integer year
  and month and a file name. An index entry lacking one of those keys is not
  modelled.
- Tweets are assumed to carry `user`, `text`, `id_str`, `entities.urls` and
  `media_url_https`; the parsers deliver them as mandatory fields. The program
  reads them without checks (main.py:191, 195, 197, 201, 281-283, 286-287, 289)
  and crashes part-way through a loop when one is missing. Those crashes are
  not modelled: a tweet lacking one of them makes the parse of its whole month
  file fail, in both passes alike, although in the program one pass can crash
  where the other does not (a tweet by the user without `entities.urls` stops
  `_get_tweet_list` at line 201 but not `_get_media_list`).
- Reading the zip file and decoding entries as UTF-8 are not modelled; the
  archive is given as decoded text per entry.
- `urlparse` is the parameter `pathOf`, and the Twitter API call is the
  parameter `lookup`. OAuth credentials and the client are not modelled.
- `_save` and `_download_media_list`: the concurrent downloads (asyncio,
  aiohttp, a semaphore of 32) are I/O and are not modelled.
- `main` and the command line: argument parsing, the CSS copy, and writing or
  reading the media-list file are not modelled. When the media list is read
  from a file, `main` builds two-field tuples. `_get_tweet_list` then fails on
  `x[2]`. The model's media refs always carry an owner, so that path is
  outside it.
- Site.BodyShape: only the forward direction holds. A tweet whose text is
  literally `<i>(no text)</i>` renders the same body as an empty tweet.
- Format.DateTextInjective: years from 10000 up and negative values are
  padded as Python does, but injectivity is stated only for four-digit years
  and two-digit months.
- The `_load_json` split follows the code, not the stated intent of cutting
  at the first JSON start character. The two agree whenever the entry starts
  with a real prefix (ArchiveReader.SplitAtFirstJsonStart). They can differ
  only when the entry itself starts with `[`, `{` or `"`, and they do exactly
  when one of the other two characters occurs later
  (ArchiveReader.SplitIndexCharacterised; example
  ArchiveReader.LeadingJsonStartIgnored).
