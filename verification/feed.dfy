/** Reading the BBC News RSS feed (news/utils.py, `fetch_bbc_news_rss`).

    The HTTP request and the feed parser are outside the model: their outcome
    is the input `Response`. What is modelled is what the function does with
    it: the status check, the per-entry field mapping with its content
    fallback and optional publication date, and the rule that any failure
    yields the empty list. */
module Feed {
  import opened Models

  const NoContent := "No content available."
  const SourceLabel := "BBC News"

  /** A `time.struct_time` as the feed parser delivers it (nine fields). */
  datatype StructTime = StructTime(
    year: int, month: int, day: int, hour: int, minute: int, second: int,
    weekday: int, yearDay: int, isDst: int)

  /** One parsed feed entry. A `None` field is a key the entry does not have. */
  datatype Entry = Entry(
    title: Option<string>,
    link: Option<string>,
    summary: Option<string>,
    description: Option<string>,
    publishedParsed: Option<StructTime>)

  /** What the feed parser made of the response body. */
  datatype ParsedFeed = ParserException | Parsed(entries: seq<Entry>)

  /** The outcome of the HTTP GET: an exception from the request library
      (connection error, timeout, ...), or a response with its status code and
      the parse of its body. */
  datatype Response = RequestException | HttpResponse(statusCode: int, feed: ParsedFeed)

  /** One element of the returned list: the dict with keys title, link,
      content, publication_date and source. */
  datatype ArticleData = ArticleData(
    title: string,
    link: string,
    content: string,
    publicationDate: Option<DateTime>,
    source: string)

  /** `raise_for_status` raises for the client and server error classes. */
  predicate RaisesForStatus(statusCode: int) {
    400 <= statusCode < 600
  }

  predicate IsLeapYear(year: int) {
    year % 4 == 0 && (year % 100 != 0 || year % 400 == 0)
  }

  function DaysInMonth(year: int, month: int): int
    requires 1 <= month <= 12
  {
    if month == 2 then (if IsLeapYear(year) then 29 else 28)
    else if month == 4 || month == 6 || month == 9 || month == 11 then 30
    else 31
  }

  /** The first six fields are a date and time that `datetime(...)` accepts;
      otherwise it raises ValueError (a leap second 60 included). */
  predicate ValidStructTime(t: StructTime) {
    && 1 <= t.year <= 9999
    && 1 <= t.month <= 12
    && 1 <= t.day <= DaysInMonth(t.year, t.month)
    && 0 <= t.hour < 24
    && 0 <= t.minute < 60
    && 0 <= t.second < 60
  }

  /** `datetime(*t[:6], tzinfo=timezone.utc)`. */
  function UtcDateTime(t: StructTime): DateTime
    requires ValidStructTime(t)
  {
    DateTime(t.year, t.month, t.day, t.hour, t.minute, t.second)
  }

  /** `entry.get('summary', entry.get('description', 'No content available.'))`:
      the summary when the key exists (even when it is empty), else the
      description when that key exists, else the sentinel. */
  function ContentOf(e: Entry): (content: string)
    ensures e.summary.Some? ==> content == e.summary.value
    ensures e.summary.None? && e.description.Some? ==> content == e.description.value
    ensures e.summary.None? && e.description.None? ==> content == NoContent
  {
    e.summary.GetOr(e.description.GetOr(NoContent))
  }

  /** The record built for one entry, or `None` when building it raises:
      `entry.title` or `entry.link` is missing (AttributeError) or the
      parsed date is out of range (ValueError). */
  function NormalizeEntry(e: Entry): (r: Option<ArticleData>)
    ensures r.Some? <==>
      e.title.Some? && e.link.Some? && (e.publishedParsed.Some? ==> ValidStructTime(e.publishedParsed.value))
    ensures r.Some? ==>
      && r.value.title == e.title.value
      && r.value.link == e.link.value
      && r.value.content == ContentOf(e)
      && r.value.source == SourceLabel
    ensures r.Some? ==> (r.value.publicationDate.None? <==> e.publishedParsed.None?)
    ensures r.Some? && e.publishedParsed.Some? ==>
      var t := e.publishedParsed.value;
      r.value.publicationDate == Some(DateTime(t.year, t.month, t.day, t.hour, t.minute, t.second))
  {
    if e.title.None? || e.link.None? then None
    else if e.publishedParsed.Some? && !ValidStructTime(e.publishedParsed.value) then None
    else
      var date := if e.publishedParsed.Some? then Some(UtcDateTime(e.publishedParsed.value)) else None;
      Some(ArticleData(e.title.value, e.link.value, ContentOf(e), date, SourceLabel))
  }

  /** The records of all entries, in feed order, or `None` as soon as one entry
      raises: the exception leaves the loop and nothing built so far is kept. */
  function NormalizeAll(entries: seq<Entry>): (r: Option<seq<ArticleData>>)
    ensures r.Some? <==> forall i :: 0 <= i < |entries| ==> NormalizeEntry(entries[i]).Some?
    ensures r.Some? ==> |r.value| == |entries|
    ensures r.Some? ==> forall i :: 0 <= i < |entries| ==> NormalizeEntry(entries[i]) == Some(r.value[i])
  {
    if entries == [] then Some([])
    else
      var n := |entries| - 1;
      var front := NormalizeAll(entries[..n]);
      var last := NormalizeEntry(entries[n]);
      if front.Some? && last.Some? then Some(front.value + [last.value]) else None
  }

  /** What `fetch_bbc_news_rss` returns for a given outcome of the request. */
  function Fetched(response: Response): (articles: seq<ArticleData>)
    ensures response.RequestException? ==> articles == []
    ensures response.HttpResponse? && RaisesForStatus(response.statusCode) ==> articles == []
    ensures response.HttpResponse? && response.feed.ParserException? ==> articles == []
    ensures articles != [] ==>
      && response.HttpResponse? && !RaisesForStatus(response.statusCode) && response.feed.Parsed?
      && |articles| == |response.feed.entries|
      && forall i :: 0 <= i < |articles| ==> NormalizeEntry(response.feed.entries[i]) == Some(articles[i])
  {
    match response
    case RequestException => []
    case HttpResponse(status, feed) =>
      if RaisesForStatus(status) then []
      else match feed
        case ParserException => []
        case Parsed(entries) => NormalizeAll(entries).GetOr([])
  }

  /** A successful fetch keeps every entry, in order; a fetch whose list is
      empty came from an empty feed or from a failure somewhere. */
  lemma FetchedAllOrNothing(response: Response)
    requires response.HttpResponse? && !RaisesForStatus(response.statusCode) && response.feed.Parsed?
    ensures var entries := response.feed.entries;
      Fetched(response) == [] <==>
        entries == [] || exists i :: 0 <= i < |entries| && NormalizeEntry(entries[i]).None?
  {
    var entries := response.feed.entries;
    if Fetched(response) == [] && entries != [] {
      assert NormalizeAll(entries).None?;
    }
  }

  /** `fetch_bbc_news_rss`, given the outcome of the request. The loop builds
      the list entry by entry; any exception returns the empty list. */
  method FetchBbcNewsRss(response: Response) returns (articles: seq<ArticleData>)
    ensures articles == Fetched(response)
  {
    if response.RequestException? {
      return [];
    }
    if RaisesForStatus(response.statusCode) {
      return [];
    }
    if response.feed.ParserException? {
      return [];
    }
    var entries := response.feed.entries;
    articles := [];
    for i := 0 to |entries|
      invariant NormalizeAll(entries[..i]) == Some(articles)
    {
      assert entries[..i + 1][..i] == entries[..i];
      var entry := entries[i];
      if entry.title.None? || entry.link.None? {
        assert NormalizeAll(entries[..i + 1]).None?;
        NormalizeAllNoneExtends(entries, i + 1);
        return [];
      }
      var content := ContentOf(entry);
      var date: Option<DateTime> := None;
      if entry.publishedParsed.Some? {
        if !ValidStructTime(entry.publishedParsed.value) {
          assert NormalizeAll(entries[..i + 1]).None?;
          NormalizeAllNoneExtends(entries, i + 1);
          return [];
        }
        date := Some(UtcDateTime(entry.publishedParsed.value));
      }
      articles := articles + [ArticleData(entry.title.value, entry.link.value, content, date, SourceLabel)];
    }
    assert entries[..|entries|] == entries;
  }

  /** Once a prefix of the entries fails, the whole list fails. */
  lemma NormalizeAllNoneExtends(entries: seq<Entry>, k: nat)
    requires k <= |entries|
    requires NormalizeAll(entries[..k]).None?
    ensures NormalizeAll(entries).None?
  {
    var i :| 0 <= i < k && NormalizeEntry(entries[..k][i]).None?;
    assert entries[i] == entries[..k][i];
  }
}
