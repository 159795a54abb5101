/** The `scrape_news` management command
    (news/management/commands/scrape_news.py, `Command.handle`): fetch the
    feed, then insert every fetched item whose title is not yet stored, under
    the single category "General", counting the inserts. */
module Ingestion {
  import opened Models
  import Feed

  const GeneralName := "General"

  /** An exception that ends the run early. Rows written before it stay
      written (each ORM call commits on its own). */
  datatype Failure =
    | MultipleGeneralCategories  // get_or_create found several "General" rows
    | NullPublishedDate          // the item has no date and the column is NOT NULL

  /** What the command reports. */
  datatype Report = NoArticlesFetched | Finished(added: nat) | Raised(failure: Failure)

  /** The state of a run: the tables, the `articles_added` counter, and the
      exception that stopped it, if any. */
  datatype Run = Run(tables: Tables, added: nat, raised: Option<Failure>)

  /** `row` is the row inserted for `item`: the item's fields copied, every
      other field at its default. */
  predicate StoredFrom(row: Article, item: Feed.ArticleData) {
    && row.title == item.title
    && row.content == item.content
    && row.sourceUrl == item.link
    && item.publicationDate == Some(row.publishedDate)
    && row.summary == None && row.audioFile == None && row.link == None
    && row.source == DefaultSource && !row.approved
  }

  /** One iteration of the loop. It adds at most one row and at most one
      category, and never changes the rows already there. */
  function Step(run: Run, item: Feed.ArticleData): (r: Run)
    ensures r.added == run.added || r.added == run.added + 1
    ensures |r.tables.articles| == |run.tables.articles| + (r.added - run.added)
    ensures run.tables.articles <= r.tables.articles
    ensures run.tables.categories <= r.tables.categories
  {
    if run.raised.Some? || HasTitle(run.tables.articles, item.title) then run
    else match GetOrCreate(run.tables.categories, GeneralName)
      case MultipleObjectsReturned => run.(raised := Some(MultipleGeneralCategories))
      case Got(g, categories) =>
        if item.publicationDate.None? then
          Run(Tables(run.tables.articles, categories), run.added, Some(NullPublishedDate))
        else
          var row := NewArticle(item.title, item.content, item.link, g, item.publicationDate.value);
          Run(Tables(run.tables.articles + [row], categories), run.added + 1, None)
  }

  /** The loop over `items`, started on tables `t` with the counter at 0. */
  function Ingest(t: Tables, items: seq<Feed.ArticleData>): (r: Run)
    ensures |r.tables.articles| == |t.articles| + r.added
    ensures t.articles <= r.tables.articles
    ensures t.categories <= r.tables.categories
  {
    if items == [] then Run(t, 0, None)
    else
      var n := |items| - 1;
      var prev := Ingest(t, items[..n]);
      Step(prev, items[n])
  }

  function ReportOf(run: Run): (r: Report)
    ensures r.Raised? <==> run.raised.Some?
    ensures r.Raised? ==> r.failure == run.raised.value
    ensures !r.NoArticlesFetched?
    ensures r.Finished? ==> r.added == run.added
  {
    if run.raised.Some? then Raised(run.raised.value) else Finished(run.added)
  }

  lemma {:induction false} IngestPrefix(t: Tables, items: seq<Feed.ArticleData>, k: nat)
    requires k < |items|
    ensures Ingest(t, items[..k + 1]) == Step(Ingest(t, items[..k]), items[k])
  {
    assert items[..k + 1][..k] == items[..k];
  }

  /** After an exception nothing more happens: the run over the whole list ends
      in the state the failing prefix left. */
  lemma {:induction false} IngestStopsAfterFailure(t: Tables, items: seq<Feed.ArticleData>, k: nat)
    requires k <= |items|
    requires Ingest(t, items[..k]).raised.Some?
    ensures Ingest(t, items) == Ingest(t, items[..k])
    decreases |items| - k
  {
    if k == |items| {
      assert items[..k] == items;
    } else {
      IngestPrefix(t, items, k);
      IngestStopsAfterFailure(t, items, k + 1);
    }
  }

  /** The body of the loop for one fetched item: skip it when its title is
      stored; otherwise get or create "General" and insert the row. `added`
      is the counter before the item. */
  method InsertIfAbsent(db: Database, item: Feed.ArticleData, ghost added: nat) returns (inserted: bool, raised: Option<Failure>)
    modifies db
    ensures Step(Run(old(db.Snapshot()), added, None), item)
            == Run(db.Snapshot(), if inserted then added + 1 else added, raised)
  {
    var stored := db.TitleExists(item.title);
    if stored {
      return false, None;
    }
    var lookup := db.GetOrCreateCategory(GeneralName);
    if lookup.MultipleObjectsReturned? {
      return false, Some(MultipleGeneralCategories);
    }
    if item.publicationDate.None? {
      return false, Some(NullPublishedDate);
    }
    var row := NewArticle(item.title, item.content, item.link, lookup.id, item.publicationDate.value);
    db.CreateArticle(row);
    return true, None;
  }

  /** `Command.handle`. `response` is the outcome of the feed request. */
  method Handle(db: Database, response: Feed.Response) returns (report: Report)
    modifies db
    ensures var data := Feed.Fetched(response);
      if data == [] then
        report == NoArticlesFetched && db.Snapshot() == old(db.Snapshot())
      else
        var run := Ingest(old(db.Snapshot()), data);
        db.Snapshot() == run.tables && report == ReportOf(run)
  {
    var data := Feed.FetchBbcNewsRss(response);
    if data == [] {
      return NoArticlesFetched;
    }
    ghost var start := db.Snapshot();
    var added := 0;
    for i := 0 to |data|
      invariant Ingest(start, data[..i]) == Run(db.Snapshot(), added, None)
    {
      IngestPrefix(start, data, i);
      var inserted, raised := InsertIfAbsent(db, data[i], added);
      if raised.Some? {
        IngestStopsAfterFailure(start, data, i + 1);
        return Raised(raised.value);
      }
      if inserted {
        added := added + 1;
      }
    }
    assert data[..|data|] == data;
    return Finished(added);
  }

  // ---------------------------------------------------------------------
  // Properties of a run

  /** Row `g` is the one and only category named "General". */
  predicate IsGeneral(t: Tables, g: nat) {
    g < |t.categories| && NamedIndices(t.categories, GeneralName) == [g]
  }

  /** What one iteration does when it inserts a row, and when it adds a
      category. */
  lemma StepFacts(run: Run, item: Feed.ArticleData)
    ensures var r := Step(run, item); var m := |run.tables.articles|;
      |r.tables.articles| > m ==>
        && run.raised.None? && r.raised.None?
        && !HasTitle(run.tables.articles, item.title)
        && r.tables.articles == run.tables.articles + [r.tables.articles[m]]
        && StoredFrom(r.tables.articles[m], item)
        && IsGeneral(r.tables, r.tables.articles[m].category)
    ensures var r := Step(run, item);
      r.tables.categories != run.tables.categories ==>
        && NamedIndices(run.tables.categories, GeneralName) == []
        && r.tables.categories == run.tables.categories + [Category(GeneralName, "")]
  {
    if run.raised.None? && !HasTitle(run.tables.articles, item.title) {
      var lookup := GetOrCreate(run.tables.categories, GeneralName);
      if lookup.Got? && item.publicationDate.Some? {
        var row := NewArticle(item.title, item.content, item.link, lookup.id, item.publicationDate.value);
        assert Step(run, item).tables == Tables(run.tables.articles + [row], lookup.categories);
      }
    }
  }

  /** No row from position `from` on repeats the title of an earlier row. */
  predicate TitlesFreshFrom(rows: seq<Article>, from: nat) {
    forall i, j :: from <= i < |rows| && 0 <= j < i ==> rows[j].title != rows[i].title
  }

  /** Every row from position `from` on was built from one of `items`. */
  predicate RowsFromItems(rows: seq<Article>, from: nat, items: seq<Feed.ArticleData>) {
    forall i :: from <= i < |rows| ==> exists j :: 0 <= j < |items| && StoredFrom(rows[i], items[j])
  }

  /** Every row from position `from` on points at the one "General" category. */
  predicate UnderGeneralFrom(t: Tables, from: nat) {
    forall i :: from <= i < |t.articles| ==> IsGeneral(t, t.articles[i].category)
  }

  /** Rows under the "General" category cannot exist while no category has
      that name. */
  lemma NoInsertedRowsWithoutGeneral(tb: Tables, from: nat)
    requires UnderGeneralFrom(tb, from)
    requires NamedIndices(tb.categories, GeneralName) == []
    ensures |tb.articles| <= from
  {
    assert from < |tb.articles| ==> IsGeneral(tb, tb.articles[from].category);
  }

  /** An iteration that raises nothing keeps every stored title and stores
      the item's. */
  lemma StepStoresTitle(run: Run, item: Feed.ArticleData)
    requires Step(run, item).raised.None?
    ensures run.raised.None?
    ensures forall title :: HasTitle(run.tables.articles, title) ==> HasTitle(Step(run, item).tables.articles, title)
    ensures HasTitle(Step(run, item).tables.articles, item.title)
  {
    var rows := Step(run, item).tables.articles;
    var m := |run.tables.articles|;
    assert rows[..m] == run.tables.articles;
    forall title | HasTitle(run.tables.articles, title)
      ensures HasTitle(rows, title)
    {
      var w :| 0 <= w < m && run.tables.articles[w].title == title;
      assert rows[w] == run.tables.articles[w];
    }
    if !HasTitle(run.tables.articles, item.title) {
      StepFacts(run, item);
      assert rows[m].title == item.title;
    }
  }

  /** After a run that did not stop early, every fetched title is stored. */
  lemma {:induction false} IngestStoresEveryTitle(t: Tables, items: seq<Feed.ArticleData>)
    requires Ingest(t, items).raised.None?
    ensures forall j :: 0 <= j < |items| ==> HasTitle(Ingest(t, items).tables.articles, items[j].title)
  {
    if items != [] {
      var n := |items| - 1;
      var prev := Ingest(t, items[..n]);
      assert Ingest(t, items) == Step(prev, items[n]);
      StepStoresTitle(prev, items[n]);
      IngestStoresEveryTitle(t, items[..n]);
      forall j | 0 <= j < n
        ensures HasTitle(prev.tables.articles, items[j].title)
      {
        assert items[j] == items[..n][j];
      }
    }
  }

  /** A run over items whose titles are all stored already inserts nothing and
      touches no table. */
  lemma {:induction false} IngestOfStoredTitles(t: Tables, items: seq<Feed.ArticleData>)
    requires forall j :: 0 <= j < |items| ==> HasTitle(t.articles, items[j].title)
    ensures Ingest(t, items) == Run(t, 0, None)
  {
    if items != [] {
      var n := |items| - 1;
      forall j | 0 <= j < n
        ensures HasTitle(t.articles, items[..n][j].title)
      {
        assert items[..n][j] == items[j];
      }
      IngestOfStoredTitles(t, items[..n]);
    }
  }

  lemma PrefixOfPrefix<T>(s: seq<T>, n: nat, k: nat)
    requires k < n <= |s|
    ensures s[..n][..k] == s[..k] && s[..n][..k + 1] == s[..k + 1]
  {
  }

  /** A run that raised has a first failing item `k`: the run over the items
      before it finished, and the item itself raised. */
  lemma {:induction false} FirstFailure(t: Tables, items: seq<Feed.ArticleData>) returns (k: nat)
    requires Ingest(t, items).raised.Some?
    ensures k < |items|
    ensures Ingest(t, items[..k]).raised.None? && Ingest(t, items[..k + 1]).raised.Some?
  {
    var n := |items| - 1;
    var front := items[..n];
    if Ingest(t, front).raised.Some? {
      k := FirstFailure(t, front);
      PrefixOfPrefix(items, n, k);
    } else {
      k := n;
      assert items[..n + 1] == items;
    }
  }

  /** Running the command a second time over the same fetched list adds
      nothing and leaves the tables as the first run left them. This holds
      also when the first run raised: the item that raised then raises again,
      with the same exception, before any write. */
  lemma {:induction false} IngestIdempotent(t: Tables, items: seq<Feed.ArticleData>)
    ensures var first := Ingest(t, items);
      Ingest(first.tables, items) == Run(first.tables, 0, first.raised)
  {
    var first := Ingest(t, items);
    if first.raised.None? {
      IngestStoresEveryTitle(t, items);
      IngestOfStoredTitles(first.tables, items);
    } else {
      var k := FirstFailure(t, items);
      var before := Ingest(t, items[..k]);
      IngestPrefix(t, items, k);
      IngestStopsAfterFailure(t, items, k + 1);
      // The failing step wrote no article, and its title was absent.
      assert first == Step(before, items[k]);
      assert !HasTitle(before.tables.articles, items[k].title);
      assert first.tables.articles == before.tables.articles;
      IngestStoresEveryTitle(t, items[..k]);
      IngestOfStoredTitles(first.tables, items[..k]);
      IngestPrefix(first.tables, items, k);
      // On the second pass the lookup of "General" finds what the first left.
      var lookup := GetOrCreate(before.tables.categories, GeneralName);
      if lookup.Got? {
        assert first.tables.categories == lookup.categories;
        assert GetOrCreate(first.tables.categories, GeneralName).Got?;
      }
      assert Step(Run(first.tables, 0, None), items[k]) == Run(first.tables, 0, first.raised);
      IngestStopsAfterFailure(first.tables, items, k + 1);
    }
  }

  /** Dedup by title: a row inserted by the run has a title that no earlier
      row has, whether it was stored before the run or inserted by it. */
  lemma {:induction false} IngestInsertsNoDuplicateTitle(t: Tables, items: seq<Feed.ArticleData>)
    ensures TitlesFreshFrom(Ingest(t, items).tables.articles, |t.articles|)
  {
    if items != [] {
      var n := |items| - 1;
      var prev := Ingest(t, items[..n]);
      var rows := Ingest(t, items).tables.articles;
      assert Ingest(t, items) == Step(prev, items[n]);
      var m := |prev.tables.articles|;
      assert rows[..m] == prev.tables.articles;
      IngestInsertsNoDuplicateTitle(t, items[..n]);
      StepFacts(prev, items[n]);
      forall i, j | |t.articles| <= i < |rows| && 0 <= j < i
        ensures rows[j].title != rows[i].title
      {
        if i < m {
          assert rows[i] == prev.tables.articles[i];
          assert prev.tables.articles[j].title != prev.tables.articles[i].title;
        } else {
          assert rows[j] == prev.tables.articles[j];
          assert rows[i].title == items[n].title;
        }
      }
    }
  }

  /** Each inserted row is built from a fetched item: title and content
      copied, the item's link stored as the source URL, its date as the
      publication date, and every other field at its default. */
  lemma {:induction false} IngestRowsComeFromItems(t: Tables, items: seq<Feed.ArticleData>)
    ensures RowsFromItems(Ingest(t, items).tables.articles, |t.articles|, items)
  {
    if items != [] {
      var n := |items| - 1;
      var prev := Ingest(t, items[..n]);
      var rows := Ingest(t, items).tables.articles;
      assert Ingest(t, items) == Step(prev, items[n]);
      var m := |prev.tables.articles|;
      assert rows[..m] == prev.tables.articles;
      IngestRowsComeFromItems(t, items[..n]);
      StepFacts(prev, items[n]);
      forall i | |t.articles| <= i < |rows|
        ensures exists j :: 0 <= j < |items| && StoredFrom(rows[i], items[j])
      {
        if i < m {
          assert rows[i] == prev.tables.articles[i];
          var j :| 0 <= j < |items[..n]| && StoredFrom(prev.tables.articles[i], items[..n][j]);
          assert items[..n][j] == items[j];
        } else {
          assert StoredFrom(rows[i], items[n]);
        }
      }
    }
  }

  /** All inserted rows share one category: the only one named "General". The
      run adds at most that one category, and only when none existed. */
  lemma {:induction false} IngestUsesOneGeneralCategory(t: Tables, items: seq<Feed.ArticleData>)
    ensures UnderGeneralFrom(Ingest(t, items).tables, |t.articles|)
    ensures var r := Ingest(t, items);
      r.tables.categories != t.categories ==>
        && NamedIndices(t.categories, GeneralName) == []
        && r.tables.categories == t.categories + [Category(GeneralName, "")]
  {
    if items != [] {
      var n := |items| - 1;
      var prev := Ingest(t, items[..n]);
      var r := Ingest(t, items);
      assert r == Step(prev, items[n]);
      var m := |prev.tables.articles|;
      assert r.tables.articles[..m] == prev.tables.articles;
      IngestUsesOneGeneralCategory(t, items[..n]);
      StepFacts(prev, items[n]);
      if r.tables.categories != prev.tables.categories {
        // A category is added only when no "General" row exists, so no row
        // inserted earlier in the run can exist either.
        NoInsertedRowsWithoutGeneral(prev.tables, |t.articles|);
        if prev.tables.categories != t.categories {
          NamedIndicesAppend(t.categories, Category(GeneralName, ""), GeneralName);
          assert false;
        }
      }
      forall i | |t.articles| <= i < |r.tables.articles|
        ensures IsGeneral(r.tables, r.tables.articles[i].category)
      {
        if i < m {
          assert r.tables.articles[i] == prev.tables.articles[i];
        }
      }
    }
  }

  /** A run keeps every article pointing at an existing category. */
  lemma {:induction false} IngestKeepsForeignKeys(t: Tables, items: seq<Feed.ArticleData>)
    requires ForeignKeysValid(t)
    ensures ForeignKeysValid(Ingest(t, items).tables)
  {
    if items != [] {
      var n := |items| - 1;
      var prev := Ingest(t, items[..n]);
      var r := Ingest(t, items);
      assert r == Step(prev, items[n]);
      var m := |prev.tables.articles|;
      assert r.tables.articles[..m] == prev.tables.articles;
      IngestKeepsForeignKeys(t, items[..n]);
      StepFacts(prev, items[n]);
      forall i | 0 <= i < |r.tables.articles|
        ensures r.tables.articles[i].category < |r.tables.categories|
      {
        if i < m {
          assert r.tables.articles[i] == prev.tables.articles[i];
        }
      }
    }
  }
}
