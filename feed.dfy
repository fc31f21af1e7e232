/**
 * `FeedCollector` and `FeedService` (rss_keyword_collector/feed.py): a
 * fetched RSS page becomes a batch of entry records keyed by title, and
 * each channel and entry becomes a database statement.
 *
 * feedparser is outside the model: a parsed feed arrives as its channel
 * dictionary and its list of entry dictionaries, with text values.
 */
module Feed {
  import opened Strings
  import opened Outcomes
  import opened Effects
  import opened Polling

  /** A feedparser dictionary (the channel, or one entry) with text values. */
  type Dict = map<string, string>

  /** One batched entry: field name to text, or to a `datetime` of the run. */
  type Record = map<string, Value>

  /** `d.get(key, default)`. */
  function Get(d: Dict, key: string, default: string): (r: string)
    ensures key in d ==> r == d[key]
    ensures key !in d ==> r == default
  {
    if key in d then d[key] else default
  }

  // ---------------------------------------------------------------------
  // update_feed
  // ---------------------------------------------------------------------

  const ChannelItems: seq<string> := ["title", "description",
                                      "language", "lastBuildDate",
                                      "ttl", "pubDate", "copyright",
                                      "webMaster", "managingEditor"]

  /** `channel_info`: every channel item, "" where the channel lacks it. */
  function ChannelInfo(channel: Dict): map<string, string>
  {
    map item | item in ChannelItems :: Get(channel, item, "")
  }

  const UpdateFeedSql: string := "UPDATE feeds " + "SET title = %s, " + "language = %s, " + "description = %s " + "WHERE url = %s"

  /** The statement `update_feed` issues for a channel fetched from `url`. */
  function UpdateFeed(channel: Dict, url: string): Effect
  {
    var info := ChannelInfo(channel);
    RunOperation(UpdateFeedSql, [Text(info["title"]), Text(info["language"]), Text(info["description"]), Text(url)])
  }

  // ---------------------------------------------------------------------
  // parse_entries
  // ---------------------------------------------------------------------

  const EntryItems: seq<string> := ["title", "link", "description",
                                    "author", "category", "guid", "comments"]

  /** The channel fields copied onto every entry. */
  const ChannelEntryItems: seq<string> := ["language"]

  /** The column widths `parse_entries` enforces. */
  const DescriptionLimit: nat := 1000
  const UrlLimit: nat := 512
  const TitleLimit: nat := 500

  /** An entry's publication date, or the time of the run when it has none. */
  function PubDate(entry: Dict, now: string): Value
  {
    if "pubDate" in entry then Text(entry["pubDate"]) else Time(now)
  }

  /** `rec` with the channel's value (or "") for each of `items`. */
  function WithChannel(rec: Record, channel: Dict, items: seq<string>): (r: Record)
    ensures r.Keys == rec.Keys + set i | 0 <= i < |items| :: items[i]
  {
    if items == [] then rec
    else
      var item := items[|items| - 1];
      var r := WithChannel(rec, channel, items[..|items| - 1])[item := Text(Get(channel, item, ""))];
      assert forall i :: 0 <= i < |items| - 1 ==> items[..|items| - 1][i] == items[i];
      r
  }

  /** The record `parse_entries` leaves for one entry: its stored fields and the channel's language. */
  function EntryRecord(entry: Dict, channel: Dict, feedUrl: string, now: string): Record
  {
    StoredFields(entry, feedUrl, now)["language" := Text(Get(channel, "language", ""))]
  }

  /** The entry's own fields with description, feed url and title cut to their stored widths. */
  function StoredFields(entry: Dict, feedUrl: string, now: string): Record
  {
    Dated(entry, feedUrl, now)
      ["description" := Text(Truncate(Get(entry, "description", ""), DescriptionLimit))]
      ["url" := Text(Truncate(feedUrl, UrlLimit))]
      ["title" := Text(Truncate(Get(entry, "title", ""), TitleLimit))]
  }

  /** The record before truncation: the entry items, the dates, and the whole feed url. */
  function Dated(entry: Dict, feedUrl: string, now: string): Record
  {
    (map item | item in EntryItems :: Text(Get(entry, item, "")))
      ["pubDate" := PubDate(entry, now)]
      ["scraped" := Time(now)]
      ["url" := Text(feedUrl)]
  }


  /**
   * Each entry's value under its title, later entries replacing earlier
   * ones; an entry without a title is a KeyError.
   */
  function KeyByTitle<R>(entries: seq<Dict>, make: Dict -> R): Result<map<string, R>>
  {
    if entries == [] then Ok(map[])
    else
      match KeyByTitle(entries[..|entries| - 1], make)
      case Err(e) => Err(e)
      case Ok(batch) =>
        var entry := entries[|entries| - 1];
        if "title" !in entry then Err(MissingEntryTitle)
        else Ok(batch[entry["title"] := make(entry)])
  }

  /** The dictionary `parse_entries` returns: each entry's record under its title. */
  function BatchEntries(entries: seq<Dict>, channel: Dict, feedUrl: string, now: string): Result<map<string, Record>>
  {
    KeyByTitle(entries, (e: Dict) => EntryRecord(e, channel, feedUrl, now))
  }

  /**
   * The loop body of `parse_entries` for one entry: the record built from
   * the entry items, given its dates and the feed url, its fields
   * reassigned to their stored widths, then given the channel's fields.
   * (The source does this through `entries[entry["title"]]`, an alias of
   * the same dictionary.)
   */
  method BuildRecord(entry: Dict, channel: Dict, feedUrl: string, now: string) returns (rec: Record)
    ensures rec == EntryRecord(entry, channel, feedUrl, now)
  {
    rec := map item | item in EntryItems :: Text(Get(entry, item, ""));
    rec := rec["pubDate" := if "pubDate" in entry then Text(entry["pubDate"]) else Time(now)];
    rec := rec["scraped" := Time(now)];
    rec := rec["url" := Text(feedUrl)];

    rec := rec["description" := Text(Truncate(rec["description"].text, DescriptionLimit))];
    rec := rec["url" := Text(Truncate(rec["url"].text, UrlLimit))];
    rec := rec["title" := Text(Truncate(rec["title"].text, TitleLimit))];
    ghost var stored := rec;
    assert stored == StoredFields(entry, feedUrl, now);

    var j := 0;
    while j < |ChannelEntryItems|
      invariant 0 <= j <= |ChannelEntryItems|
      invariant rec == WithChannel(stored, channel, ChannelEntryItems[..j])
    {
      var item := ChannelEntryItems[j];
      assert ChannelEntryItems[..j + 1][..j] == ChannelEntryItems[..j];
      rec := rec[item := Text(Get(channel, item, ""))];
      j := j + 1;
    }
    assert ChannelEntryItems[..j] == ChannelEntryItems;
  }

  /** `parse_entries`: each entry's record stored under its title, in feed order. */
  method ParseEntries(feedEntries: seq<Dict>, channel: Dict, feedUrl: string, now: string)
    returns (r: Result<map<string, Record>>)
    ensures r == BatchEntries(feedEntries, channel, feedUrl, now)
  {
    var entries: map<string, Record> := map[];
    var i := 0;
    assert feedEntries[..0] == [];
    while i < |feedEntries|
      invariant 0 <= i <= |feedEntries|
      invariant BatchEntries(feedEntries[..i], channel, feedUrl, now) == Ok(entries)
    {
      var entry := feedEntries[i];
      assert feedEntries[..i + 1][..i] == feedEntries[..i] && feedEntries[..i + 1][i] == entry;
      if "title" !in entry {
        KeyByTitleStops(feedEntries, (e: Dict) => EntryRecord(e, channel, feedUrl, now), i);
        return Err(MissingEntryTitle);
      }
      var rec := BuildRecord(entry, channel, feedUrl, now);
      entries := entries[entry["title"] := rec];
      i := i + 1;
    }
    assert feedEntries[..i] == feedEntries;
    return Ok(entries);
  }

  // ---------------------------------------------------------------------
  // update_entries
  // ---------------------------------------------------------------------

  const InsertEntrySql: string :=
    "INSERT INTO entries " + "(url, language, description, " + "title, published, scraped, feed) " +
    "VALUES " + "(%s, %s, %s, %s, %s, 'false', %s) " + "ON CONFLICT (url) DO NOTHING "

  /** `entry.get(key, default)` on a record. */
  function Field(rec: Record, key: string, default: Value): Value
  {
    if key in rec then rec[key] else default
  }

  /** The statement `update_entries` issues for one record. */
  function UpdateEntries(rec: Record, now: string): Effect
  {
    RunOperation(InsertEntrySql,
      [Field(rec, "link", Text("")), Field(rec, "language", Text("")), Field(rec, "description", Text("")),
       Field(rec, "title", Text("")), Field(rec, "pubDate", Time(now)), Field(rec, "url", Text(""))])
  }

  // ---------------------------------------------------------------------
  // The service
  // ---------------------------------------------------------------------

  /** `FeedService`: the polling period of the feed collector. */
  class FeedService {
    var interval: int

    constructor(interval: int := 30)
      ensures this.interval == PollingInterval(interval)
    {
      this.interval := interval / 60;
      new;
      if this.interval <= 60 {
        this.interval := 60;
      }
    }
  }

  // ---------------------------------------------------------------------
  // Properties
  // ---------------------------------------------------------------------

  /** Once an entry lacks a title, the batch fails whatever follows. */
  lemma {:induction false} KeyByTitleStops<R>(entries: seq<Dict>, make: Dict -> R, i: nat)
    requires i < |entries| && "title" !in entries[i]
    requires KeyByTitle(entries[..i], make).Ok?
    ensures KeyByTitle(entries, make) == Err(MissingEntryTitle)
    decreases |entries|
  {
    var pre := entries[..|entries| - 1];
    if i == |entries| - 1 {
      assert pre == entries[..i];
    } else {
      assert pre[..i] == entries[..i] && pre[i] == entries[i];
      KeyByTitleStops(pre, make, i);
    }
  }


  /**
   * `channel_info` has exactly the nine channel items, each the channel's
   * value or ""; `update_feed` binds its title, language and description,
   * then the feed's url.
   */
  lemma UpdateFeedSpec(channel: Dict, url: string)
    ensures ChannelInfo(channel).Keys == {"title", "description", "language", "lastBuildDate",
                                         "ttl", "pubDate", "copyright", "webMaster", "managingEditor"}
    ensures forall item :: item in ChannelInfo(channel) ==>
      (item in channel ==> ChannelInfo(channel)[item] == channel[item]) &&
      (item !in channel ==> ChannelInfo(channel)[item] == "")
    ensures UpdateFeed(channel, url).params ==
      [Text(Get(channel, "title", "")), Text(Get(channel, "language", "")),
       Text(Get(channel, "description", "")), Text(url)]
  {
  }

  /** The record of one entry: its eleven fields, and the three that are cut to their stored widths. */
  lemma EntryRecordSpec(entry: Dict, channel: Dict, feedUrl: string, now: string)
    ensures var r := EntryRecord(entry, channel, feedUrl, now);
      r.Keys == {"title", "link", "description", "author", "category", "guid", "comments",
                 "pubDate", "scraped", "url", "language"}
    ensures var r, d := EntryRecord(entry, channel, feedUrl, now), Get(entry, "description", "");
      r["description"].Text? && r["description"].text <= d &&
      |r["description"].text| == if |d| <= DescriptionLimit then |d| else DescriptionLimit
    ensures var r, t := EntryRecord(entry, channel, feedUrl, now), Get(entry, "title", "");
      r["title"].Text? && r["title"].text <= t &&
      |r["title"].text| == if |t| <= TitleLimit then |t| else TitleLimit
    ensures var r := EntryRecord(entry, channel, feedUrl, now);
      r["url"].Text? && r["url"].text <= feedUrl &&
      |r["url"].text| == if |feedUrl| <= UrlLimit then |feedUrl| else UrlLimit
  {
  }

  /** The other fields of the record: the channel's language, the scrape time, the dates and the entry's own items or "". */
  lemma EntryRecordDefaults(entry: Dict, channel: Dict, feedUrl: string, now: string)
    ensures var r := EntryRecord(entry, channel, feedUrl, now);
      r["language"] == Text(if "language" in channel then channel["language"] else "") &&
      r["scraped"] == Time(now) &&
      r["pubDate"] == (if "pubDate" in entry then Text(entry["pubDate"]) else Time(now))
    ensures var r := EntryRecord(entry, channel, feedUrl, now);
      forall item :: item in {"link", "author", "category", "guid", "comments"} ==>
        r[item] == Text(if item in entry then entry[item] else "")
  {
    var r := EntryRecord(entry, channel, feedUrl, now);
    forall item | item in {"link", "author", "category", "guid", "comments"}
      ensures r[item] == Text(if item in entry then entry[item] else "")
    {
      assert item in EntryItems;
      assert item !in {"language", "url", "title", "description", "scraped", "pubDate"};
    }
  }

  /** The titles of the entries that have one, each once. */
  function Titles(entries: seq<Dict>): set<string>
  {
    set i | 0 <= i < |entries| && "title" in entries[i] :: entries[i]["title"]
  }

  /** No later entry has the same title as entry `j`. */
  predicate LastOfItsTitle(entries: seq<Dict>, j: int)
    requires 0 <= j < |entries| && "title" in entries[j]
  {
    forall k :: j < k < |entries| && "title" in entries[k] ==> entries[k]["title"] != entries[j]["title"]
  }

  /** Keying fails exactly when some entry has no title. */
  lemma {:induction false} KeyByTitleFails<R>(entries: seq<Dict>, make: Dict -> R)
    ensures KeyByTitle(entries, make).Err? <==> exists i :: 0 <= i < |entries| && "title" !in entries[i]
    decreases |entries|
  {
    if entries != [] {
      var n := |entries| - 1;
      var pre := entries[..n];
      KeyByTitleFails(pre, make);
      if exists i :: 0 <= i < n && "title" !in pre[i] {
        var i :| 0 <= i < n && "title" !in pre[i];
        assert entries[i] == pre[i];
      }
      if exists i :: 0 <= i < |entries| && "title" !in entries[i] {
        var i :| 0 <= i < |entries| && "title" !in entries[i];
        if i < n { assert pre[i] == entries[i]; }
      }
    }
  }

  /** Keying that succeeds is keyed by the distinct titles. */
  lemma {:induction false} KeyByTitleKeys<R>(entries: seq<Dict>, make: Dict -> R)
    requires KeyByTitle(entries, make).Ok?
    ensures KeyByTitle(entries, make).value.Keys == Titles(entries)
    decreases |entries|
  {
    if entries != [] {
      var n := |entries| - 1;
      KeyByTitleKeys(entries[..n], make);
      TitlesAppend(entries);
    }
  }

  /** Keying that succeeds holds, under each title, the value of the last entry with that title. */
  lemma {:induction false} KeyByTitleLast<R>(entries: seq<Dict>, make: Dict -> R, j: nat)
    requires KeyByTitle(entries, make).Ok?
    requires j < |entries| && "title" in entries[j] && LastOfItsTitle(entries, j)
    ensures entries[j]["title"] in KeyByTitle(entries, make).value
    ensures KeyByTitle(entries, make).value[entries[j]["title"]] == make(entries[j])
    decreases |entries|
  {
    var n := |entries| - 1;
    if j < n {
      var pre := entries[..n];
      var t := entries[j]["title"];
      assert forall k :: 0 <= k < n ==> pre[k] == entries[k];
      assert entries[n]["title"] != t;
      assert LastOfItsTitle(pre, j);
      KeyByTitleLast(pre, make, j);
    }
  }

  /**
   * `parse_entries` fails exactly when some entry has no title. Otherwise
   * its result is keyed by the distinct titles, so it has one record per
   * distinct title, and under each title holds the record of the last
   * entry with that title.
   */
  lemma BatchEntriesSpec(entries: seq<Dict>, channel: Dict, feedUrl: string, now: string)
    ensures BatchEntries(entries, channel, feedUrl, now).Err? <==>
      exists i :: 0 <= i < |entries| && "title" !in entries[i]
    ensures BatchEntries(entries, channel, feedUrl, now).Ok? ==>
      var batch := BatchEntries(entries, channel, feedUrl, now).value;
      batch.Keys == Titles(entries) && |batch| == |Titles(entries)| &&
      forall j :: 0 <= j < |entries| && "title" in entries[j] && LastOfItsTitle(entries, j) ==>
        batch[entries[j]["title"]] == EntryRecord(entries[j], channel, feedUrl, now)
  {
    var make := (e: Dict) => EntryRecord(e, channel, feedUrl, now);
    KeyByTitleFails(entries, make);
    if KeyByTitle(entries, make).Ok? {
      KeyByTitleKeys(entries, make);
      forall j | 0 <= j < |entries| && "title" in entries[j] && LastOfItsTitle(entries, j)
        ensures KeyByTitle(entries, make).value[entries[j]["title"]] == make(entries[j])
      {
        KeyByTitleLast(entries, make, j);
      }
    }
  }

  /** The titles of a list are those before its last entry, plus its last entry's. */
  lemma TitlesAppend(entries: seq<Dict>)
    requires entries != [] && "title" in entries[|entries| - 1]
    ensures Titles(entries) == Titles(entries[..|entries| - 1]) + {entries[|entries| - 1]["title"]}
  {
    var n := |entries| - 1;
    var pre := entries[..n];
    forall t ensures t in Titles(entries) <==> t in Titles(pre) + {entries[n]["title"]} {
      if t in Titles(entries) {
        var i :| 0 <= i < |entries| && "title" in entries[i] && entries[i]["title"] == t;
        if i < n { assert pre[i] == entries[i]; }
      }
      if t in Titles(pre) {
        var i :| 0 <= i < n && "title" in pre[i] && pre[i]["title"] == t;
        assert entries[i] == pre[i];
      }
    }
  }

  /**
   * The statement `update_entries` issues for a batched record binds the
   * entry's link as the url and the feed's url as the feed, with the
   * stored description and title and the record's own publication date.
   */
  lemma UpdateBatchedEntry(entry: Dict, channel: Dict, feedUrl: string, now: string, later: string)
    ensures var r := EntryRecord(entry, channel, feedUrl, now);
      UpdateEntries(r, later).params ==
        [Text(Get(entry, "link", "")), Text(Get(channel, "language", "")), r["description"], r["title"],
         PubDate(entry, now), Text(Truncate(feedUrl, UrlLimit))]
  {
    EntryRecordSpec(entry, channel, feedUrl, now);
  }
}
