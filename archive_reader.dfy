/** Reading the archive's JavaScript entries: each is a JSON value behind a
    non-JSON prefix such as `Grailbird.data.tweets_2014_01 =`. The zip archive is
    a map from entry name to the entry's decoded text, and `json.loads` is the
    parameter `parse`, which answers None when the text is not the expected JSON. */
module ArchiveReader {
  import opened Text
  import opened Records

  type Archive = map<string, string>

  predicate IsJsonStart(c: char) {
    c == '[' || c == '{' || c == '"'
  }

  /** `min(filter(lambda x: x > 0, xs), default=0)` */
  function MinPositive(xs: seq<int>): (m: nat)
    ensures m == 0 <==> forall k :: 0 <= k < |xs| ==> xs[k] <= 0
    ensures m > 0 ==> m in xs
    ensures forall k :: 0 <= k < |xs| && xs[k] > 0 ==> m <= xs[k]
  {
    if xs == [] then 0
    else
      var rest := MinPositive(xs[1..]);
      if xs[0] <= 0 then rest
      else if rest == 0 || xs[0] <= rest then xs[0]
      else rest
  }

  /** The positions `data.find` reports for the three characters a JSON value can start with. */
  function StartCandidates(data: string): seq<int> {
    [Find(data, '['), Find(data, '{'), Find(data, '"')]
  }

  /** Where `_load_json` cuts an entry: the least positive position among the
      first occurrences of `[`, `{` and `"`, or 0 when none is positive. */
  function SplitIndex(data: string): (i: nat)
    ensures i <= |data|
    ensures i == 0 || i < |data|
  {
    FindSpec(data, '[');
    FindSpec(data, '{');
    FindSpec(data, '"');
    MinPositive(StartCandidates(data))
  }

  /** `(data[:i], data[i:])`: the discarded prefix and the text handed to `json.loads`. */
  function Split(data: string): (r: (string, string))
    ensures r.0 + r.1 == data
    ensures |r.0| == SplitIndex(data)
  {
    var i := SplitIndex(data);
    assert data[..i] + data[i..] == data;
    (data[..i], data[i..])
  }

  /** What the cut position is, exactly: when it is positive it falls on a JSON
      start character different from the entry's first character, and every
      JSON start character before it repeats the first character (its own first
      occurrence is position 0, which the `> 0` filter drops); it is 0 exactly when
      every JSON start character after position 0 repeats the first one. */
  lemma SplitIndexCharacterised(data: string)
    ensures var i := SplitIndex(data);
      && (i == 0 <==> forall k :: 0 < k < |data| && IsJsonStart(data[k]) ==> data[k] == data[0])
      && (i > 0 ==> IsJsonStart(data[i]) && data[i] != data[0])
      && (forall k :: 0 < k < i && IsJsonStart(data[k]) ==> data[k] == data[0])
  {
    FindSpec(data, '[');
    FindSpec(data, '{');
    FindSpec(data, '"');
    var cs := StartCandidates(data);
    var i := SplitIndex(data);
    forall k | 0 < k < |data| && IsJsonStart(data[k]) && data[k] != data[0]
      ensures 0 < i <= k
    {
      var j := if data[k] == '[' then 0 else if data[k] == '{' then 1 else 2;
      var f := cs[j];
      assert data[k] in data;
      assert f != 0;
    }
    if i > 0 {
      var j :| 0 <= j < 3 && cs[j] == i;
      assert data[..i][0] == data[0];
    }
  }

  /** For an entry that does carry a prefix (its first character cannot start a
      JSON value), the cut falls on the first JSON start character of the text,
      as the export format intends. */
  lemma SplitAtFirstJsonStart(data: string)
    requires data != [] ==> !IsJsonStart(data[0])
    ensures var i := SplitIndex(data);
      && (forall k :: 0 <= k < i ==> !IsJsonStart(data[k]))
      && (i == 0 <==> forall k :: 0 <= k < |data| ==> !IsJsonStart(data[k]))
      && (i > 0 ==> IsJsonStart(data[i]))
  {
    SplitIndexCharacterised(data);
  }

  /** An entry that begins with a JSON start character is not kept whole: the
      first occurrence of `[` is at position 0 and is filtered out, so the text
      is cut at the following `"`. */
  lemma LeadingJsonStartIgnored()
    ensures Split("[\"a\"]") == ("[", "\"a\"]")
  {
    var d := "[\"a\"]";
    FindSpec(d, '{');
    assert Find(d, '[') == 0;
    assert Find(d, '{') == -1 by {
      assert '{' !in d;
    }
    assert Find(d, '"') == 1 by {
      assert d[1] == '"' && d[..1] == "[";
    }
    assert StartCandidates(d) == [0, -1, 1];
    assert SplitIndex(d) == 1;
    assert d[..1] == "[" && d[1..] == "\"a\"]";
  }

  /** `_load_json(archive, name)`: the prefix and the parsed value. */
  function ReadPrefixedJson<J>(archive: Archive, name: string, parse: string -> Option<J>): (r: Result<(string, J)>)
    ensures name !in archive ==> r == Failure(MissingEntry(name))
    ensures name in archive && parse(Split(archive[name]).1).None? ==> r == Failure(MalformedEntry(name))
    ensures name in archive && parse(Split(archive[name]).1).Some? ==>
      r == Success((Split(archive[name]).0, parse(Split(archive[name]).1).value))
    ensures r.Success? ==>
      && name in archive
      && r.value.0 + Split(archive[name]).1 == archive[name]
      && parse(archive[name][|r.value.0|..]) == Some(r.value.1)
  {
    if name !in archive then Failure(MissingEntry(name))
    else
      var (prefix, rest) := Split(archive[name]);
      assert archive[name][|prefix|..] == rest;
      match parse(rest)
      case None => Failure(MalformedEntry(name))
      case Some(v) => Success((prefix, v))
  }

  const PayloadDetailsName: string := "data/js/payload_details.js"
  const UserDetailsName: string := "data/js/user_details.js"
  const TweetIndexName: string := "data/js/tweet_index.js"

  /** The start both passes share: read the payload details, the user details
      and the tweet index, in that order, then format the two debug lines, which
      look up `screen_name` and `id` in the user details and `tweets` and
      `created_at` in the payload details. A details object is modelled by its
      key set (`parseObject`); the index by its entries (`parseIndex`). */
  function Preamble(archive: Archive, parseObject: string -> Option<set<string>>,
                    parseIndex: string -> Option<seq<IndexEntry>>): (r: Result<seq<IndexEntry>>)
    ensures r.Success? <==>
      && ReadPrefixedJson(archive, PayloadDetailsName, parseObject).Success?
      && ReadPrefixedJson(archive, UserDetailsName, parseObject).Success?
      && ReadPrefixedJson(archive, TweetIndexName, parseIndex).Success?
      && {"screen_name", "id"} <= ReadPrefixedJson(archive, UserDetailsName, parseObject).value.1
      && {"tweets", "created_at"} <= ReadPrefixedJson(archive, PayloadDetailsName, parseObject).value.1
    ensures r.Success? ==> r.value == ReadPrefixedJson(archive, TweetIndexName, parseIndex).value.1
    ensures PayloadDetailsName !in archive ==> r == Failure(MissingEntry(PayloadDetailsName))
  {
    match ReadPrefixedJson(archive, PayloadDetailsName, parseObject)
    case Failure(e) => Failure(e)
    case Success(statistic) =>
      match ReadPrefixedJson(archive, UserDetailsName, parseObject)
      case Failure(e) => Failure(e)
      case Success(user) =>
        match ReadPrefixedJson(archive, TweetIndexName, parseIndex)
        case Failure(e) => Failure(e)
        case Success(index) =>
          if "screen_name" !in user.1 then Failure(MissingKey("screen_name"))
          else if "id" !in user.1 then Failure(MissingKey("id"))
          else if "tweets" !in statistic.1 then Failure(MissingKey("tweets"))
          else if "created_at" !in statistic.1 then Failure(MissingKey("created_at"))
          else Success(index.1)
  }

  /** Reading the month file of every index entry in index order; the first
      entry that cannot be read aborts the whole run. */
  function LoadAll(index: seq<IndexEntry>, archive: Archive, parse: string -> Option<seq<Post>>): (r: Result<seq<MonthFile>>)
    ensures r.Success? ==> |r.value| == |index|
    ensures r.Success? ==> forall k :: 0 <= k < |index| ==> r.value[k].entry == index[k]
  {
    if index == [] then Success([])
    else
      match LoadAll(index[..|index| - 1], archive, parse)
      case Failure(e) => Failure(e)
      case Success(files) =>
        var last := index[|index| - 1];
        match ReadPrefixedJson(archive, last.fileName, parse)
        case Failure(e) => Failure(e)
        case Success(read) => Success(files + [MonthFile(last, read.1)])
  }

  /** The run gets past loading exactly when every entry's file reads, and then
      each month file holds what `parse` made of that entry. */
  lemma {:induction false} LoadAllSucceedsIff(index: seq<IndexEntry>, archive: Archive, parse: string -> Option<seq<Post>>)
    ensures LoadAll(index, archive, parse).Success?
      <==> forall k :: 0 <= k < |index| ==> ReadPrefixedJson(archive, index[k].fileName, parse).Success?
    ensures LoadAll(index, archive, parse).Success? ==> forall k :: 0 <= k < |index| ==>
      LoadAll(index, archive, parse).value[k].posts == ReadPrefixedJson(archive, index[k].fileName, parse).value.1
  {
    if index != [] {
      var init := index[..|index| - 1];
      LoadAllSucceedsIff(init, archive, parse);
      assert forall k :: 0 <= k < |init| ==> init[k] == index[k];
    }
  }

  /** Once some prefix of the index fails to load, the whole index fails with the same error. */
  lemma {:induction false} LoadAllFailureStops(index: seq<IndexEntry>, j: nat, archive: Archive, parse: string -> Option<seq<Post>>)
    requires j <= |index|
    requires LoadAll(index[..j], archive, parse).Failure?
    ensures LoadAll(index, archive, parse) == LoadAll(index[..j], archive, parse)
    decreases |index| - j
  {
    if j < |index| {
      var next := index[..j + 1];
      assert next[..j] == index[..j];
      assert LoadAll(next, archive, parse) == LoadAll(index[..j], archive, parse);
      LoadAllFailureStops(index, j + 1, archive, parse);
    } else {
      assert index[..j] == index;
    }
  }

  /** Loading one more entry extends the loaded prefix by that entry's month file. */
  lemma LoadAllExtend(index: seq<IndexEntry>, i: nat, archive: Archive, parse: string -> Option<seq<Post>>)
    requires i < |index|
    requires LoadAll(index[..i], archive, parse).Success?
    ensures ReadPrefixedJson(archive, index[i].fileName, parse).Failure? ==>
      LoadAll(index[..i + 1], archive, parse) == Failure(ReadPrefixedJson(archive, index[i].fileName, parse).error)
    ensures ReadPrefixedJson(archive, index[i].fileName, parse).Success? ==>
      LoadAll(index[..i + 1], archive, parse) == Success(LoadAll(index[..i], archive, parse).value
        + [MonthFile(index[i], ReadPrefixedJson(archive, index[i].fileName, parse).value.1)])
  {
    assert index[..i + 1][..i] == index[..i];
  }
}
