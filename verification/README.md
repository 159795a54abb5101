# ByteNews article ingestion and approval, modelled in Dafny

This project models the parts of the ByteNews Django application that hold
logic of their own, over an abstract article table:

- **Feed reading** (`fetch_bbc_news_rss`, news/utils.py): the outcome of the
  HTTP request and of the feed parser is an input. The model covers the HTTP
  status check, the per-entry record with its content fallback (`summary`,
  then `description`, then `"No content available."`), the optional UTC
  publication date, the fixed source label `"BBC News"`, and the rule that
  every failure yields the empty list, never a partial one.
- **Ingestion** (`Command.handle`, news/management/commands/scrape_news.py):
  an insert-if-absent loop keyed on the **title**. It keeps a running
  `articles_added` counter. Every article it inserts goes under one
  `General` category, found or created with `get_or_create`.
- **Admin approval** (`ArticleAdmin`, news/admin.py): the two bulk actions
  update `approved` in place on the selected rows and report how many rows
  they matched. The change list shows total, approved and pending counts.

The article and category tables are sequences held by the class
`Models.Database`. A row's position stands for its primary key. The database
calls the code makes are its methods:

- `TitleExists` is `filter(title=...).exists()`.
- `GetOrCreateCategory` is `get_or_create`.
- `CreateArticle` is `create`.

Each loop is a method proved against a specification function:

- `Feed.FetchBbcNewsRss` against `Feed.Fetched`.
- `Ingestion.Handle` against `Ingestion.Ingest`.
- `Admin.SetApproved` against `Admin.WithApproval`.
- `Admin.QuerysetStats` against `Admin.StatsOf`.

The properties are stated as lemmas about those functions.

The exceptions the ingestion loop can raise are modelled as a stop of the run.
The rows written before the stop stay written, because each ORM call commits
on its own. There are two such exceptions:

- `get_or_create` finds several `General` rows: MultipleObjectsReturned.
- An item without a publication date reaches the NOT NULL `published_date`
  column: IntegrityError.

What the code does, in the points where it is easy to assume otherwise:

- Duplicates are detected by title (scrape_news.py:20), not by link.
- Only the BBC News feed is read (utils.py:8).
- `Command.handle` and `fetch_bbc_news_rss` call no full-article extraction,
  summarizer, keyword classifier, HTML cleaner or speech renderer.

## Model

| member | source | states |
|---|---|---|
| `Models.NamedIndices` | news/management/commands/scrape_news.py:21 | the positions returned are exactly the categories with the given name, each in range, in increasing order |
| `Models.GetOrCreate` | news/management/commands/scrape_news.py:21 | with no row of that name, one row is created and appended; with exactly one, it is reused and the table is unchanged; with several, the call fails; on success the name is afterwards held by exactly the returned row |
| `Models.Database.TitleExists` | news/management/commands/scrape_news.py:20 | true exactly when some stored article has the given title |
| `Models.Database.GetOrCreateCategory` | news/management/commands/scrape_news.py:21 | the result and the new category table are those of `GetOrCreate` on the old table |
| `Models.Database.CreateArticle` | news/management/commands/scrape_news.py:23-29 | the row is appended and nothing else changes |
| `Feed.ContentOf` | news/utils.py:23 | content is the summary when that key exists (even empty), else the description when that key exists, else "No content available." |
| `Feed.NormalizeEntry` | news/utils.py:20-37 | a record exists exactly when title and link exist and any parsed date is a valid datetime; title and link are copied, content follows the fallback, source is "BBC News", the date is absent exactly when `published_parsed` is, and otherwise holds its first six fields |
| `Feed.NormalizeAll` | news/utils.py:20-39 | succeeds exactly when every entry does, and then gives one record per entry in feed order, each entry's own record |
| `Feed.Fetched` | news/utils.py:11-46 | a request exception, an HTTP status in 400..599 or a parser exception gives []; a non-empty result holds exactly one record per feed entry in order |
| `Feed.FetchedAllOrNothing` | news/utils.py:39-46 | for a fetched, parsed feed, the result is [] exactly when the feed is empty or some entry fails; no partial list |
| `Feed.NormalizeAllNoneExtends` | news/utils.py:44-46 | one failing entry in a prefix makes the whole list fail |
| `Feed.FetchBbcNewsRss` | news/utils.py:7-46 | the loop that appends one record per entry and returns [] on any failure computes `Fetched` |
| `Ingestion.Step` | news/management/commands/scrape_news.py:19-30 | one iteration adds at most one row and bumps the counter by exactly the rows added; existing rows and categories are kept as a prefix |
| `Ingestion.Ingest` | news/management/commands/scrape_news.py:18-30 | the table only grows: old rows are an unchanged prefix, old categories too, and the counter equals the number of rows added |
| `Ingestion.IngestPrefix` | news/management/commands/scrape_news.py:19 | the run over one more item is one more iteration of the loop |
| `Ingestion.IngestStopsAfterFailure` | news/management/commands/scrape_news.py:21-29 | once an exception is raised, later items change nothing |
| `Ingestion.InsertIfAbsent` | news/management/commands/scrape_news.py:20-30 | one pass of the loop body on the database moves the tables and the counter exactly as `Step` does, including a stop on either exception |
| `Ingestion.ReportOf` | news/management/commands/scrape_news.py:32 | a run that raised reports its exception; one that finished reports the number of articles added |
| `Ingestion.Handle` | news/management/commands/scrape_news.py:10-32 | an empty fetch writes nothing, creates no category and reports "no articles"; otherwise the tables and the report are those of `Ingest` over the fetched list |
| `Ingestion.StepFacts` | news/management/commands/scrape_news.py:20-30 | an inserted row's title was absent, the row is built from the item with defaults, and it points at the only "General" category; a category is added only when none was named "General", and that category is "General" |
| `Ingestion.NoInsertedRowsWithoutGeneral` | news/management/commands/scrape_news.py:21-28 | no row can point at "General" while no category has that name |
| `Ingestion.IngestStoresEveryTitle` | news/management/commands/scrape_news.py:19-29 | after a run with no exception, every fetched title is stored |
| `Ingestion.IngestOfStoredTitles` | news/management/commands/scrape_news.py:20 | when every title is stored already, a run adds nothing and changes no table |
| `Ingestion.IngestIdempotent` | news/management/commands/scrape_news.py:19-29 | running again over the same fetched list adds zero articles, leaves both tables as the first run left them and ends as the first run ended; when the first run raised, the item that raised raises again before any write |
| `Ingestion.IngestInsertsNoDuplicateTitle` | news/management/commands/scrape_news.py:19-20 | no inserted row repeats the title of an earlier row, whether stored before the run or inserted earlier in it |
| `Ingestion.IngestRowsComeFromItems` | news/management/commands/scrape_news.py:23-29 | each inserted row copies a fetched item's title and content, stores its link as source URL and its date as published date; link stays None, source "Unknown", approved false, summary and audio empty |
| `Ingestion.IngestUsesOneGeneralCategory` | news/management/commands/scrape_news.py:21-28 | every inserted row points at the single category named "General"; the run adds at most that one category, and only if none existed |
| `Ingestion.IngestKeepsForeignKeys` | news/models.py:25 | every article still points at an existing category after a run |
| `Admin.WithApproval` | news/admin.py:40-48 | selected rows get the new flag, unselected rows keep theirs, and no other field of any row changes |
| `Admin.SetApproved` | news/admin.py:40-48 | the in-place update computes `WithApproval` and returns the number of existing rows selected |
| `Admin.MatchedExisting` | news/admin.py:42 | a selection of existing rows is matched in full |
| `Admin.ApproveArticles` | news/admin.py:40-43 | selected rows become approved, everything else unchanged; the count is the number of selected rows |
| `Admin.MarkAsPending` | news/admin.py:45-48 | selected rows become pending, everything else unchanged; the count is the number of selected rows |
| `Admin.WithApprovalLastWins` | news/admin.py:40-48 | of two updates of one selection the later decides, whatever the earlier set |
| `Admin.WithApprovalIdempotent` | news/admin.py:40-48 | applying either action twice leaves the state of applying it once |
| `Admin.WithApprovalKeepsForeignKeys` | news/admin.py:40-48 | neither action breaks a category reference |
| `Admin.CountStep` | news/admin.py:57-59 | each of the three counted sets grows by the next row exactly when that row is in it |
| `Admin.StatsOf` | news/admin.py:57-59 | total is the number of queryset rows in the table, approved and pending the sizes of its two filtered subsets, and approved + pending = total, because every row is approved or pending |
| `Admin.QuerysetStats` | news/admin.py:57-59 | the counting loop computes `StatsOf` |
| `Admin.AllRows` | news/admin.py:55 | all articles of a table of n rows are the positions 0..n-1, n of them |
| `Admin.StatsOfAllRows` | news/admin.py:55-57 | over all articles, the total is the size of the table |
| `Admin.StatsAfterAction` | news/admin.py:40-59 | right after approving a whole queryset none of it is pending; after marking it pending none is approved |
| `Admin.StatsQueryset` | news/admin.py:52-55 | the counts are taken over the change list's queryset, or over all articles when the response has no context or no change list |
| `Admin.AttachStatsAsWritten` | news/admin.py:61-66 | as written: a redirect raises AttributeError; a template response gets the counts |
| `Admin.AttachStats` | news/admin.py:61-66 | corrected: a redirect passes unchanged; a template response keeps its change list and gets the counts |
| `Admin.RedirectAfterAction` | news/admin.py:50-61 | the redirect that follows a bulk action raises as written, and passes through when corrected |
| `Admin.ChangelistView` | news/admin.py:50-66 | corrected (see ## Findings): a template response gets the counts of its queryset, or of all articles when it has no change list, in which case the total is the table size; a redirect is returned as it is |

## Findings

| source | as written | input that shows it | evidently intended | confidence | as-written member | corrected member |
|---|---|---|---|---|---|---|
| news/admin.py:52-61 | lines 52-55 guard the read of `response.context_data` against AttributeError. Line 61 then writes to `response.context_data` with no guard. | A bulk action POST to the change list. Django runs the action and `super().changelist_view` returns an `HttpResponseRedirect`, which has no `context_data`. Line 61 raises AttributeError after the update has committed. | Attach the counts only to a response that has a context. A redirect passes through unchanged. | not executed | `Admin.AttachStatsAsWritten` | `Admin.AttachStats` |

## Left out

- The HTTP GET (the URL constant, the User-Agent header, the 10-second timeout) and `feedparser.parse` are network I/O and a foreign library. Their outcome is the input `Feed.Response`.
- The feed parser treats `description` as an alias of `summary`. The model reads the two keys as independent, as the code does.
- An entry whose `published_parsed` is present but `None` is not modelled. In Python that case raises TypeError, so it yields [] like any other failure.
- The messages written to stdout, `print` and `message_user` are not modelled. What the command reports is `Ingestion.Report`. What an action reports is its returned count.
- `created_at` (`auto_now_add`, a clock), the `timezone.now` default of `published_date` and the id column are not modelled. `summary` and `audio_file` are modelled only as absent (`None`), the value the ingestion leaves them at.
- Database constraints other than NOT NULL on `published_date` are not modelled. These are the 200-character title limit, the unique `link`, and URL validation. Title comparison is plain string equality; collation rules of the database are not modelled.
- `Meta.ordering` and the `__str__` methods are display only.
- Concurrency between runs, and between a run and the admin, is not modelled.
- Not part of this model: routing, views, serializers, forms, templates, pagination and authentication (news/views.py, news/urls.py, news/serializers.py, news/forms.py, users/views.py, ByteNews/urls.py). Also left out is test_summary.py, which only calls an external summarizer library.
- The admin selection and the change-list queryset are sets of row positions. The filters and searches that produce them are Django's and are not modelled.
- Ingestion.IngestRowsComeFromItems: says only that each inserted row comes from some fetched item. Which item, and in what order, is fixed by `Ingestion.Ingest`, which `Ingestion.Handle` follows exactly.
