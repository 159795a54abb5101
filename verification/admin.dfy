/** The article admin (news/admin.py, `ArticleAdmin`): the two bulk actions
    that set the `approved` flag of the selected rows in place and report how
    many rows they updated, and the approved/pending counts the change list
    shows. A selection or a change-list queryset is a set of row positions;
    positions with no row match nothing. */
module Admin {
  import opened Models

  /** The rows of a table of `n` rows that a queryset over `selection` matches. */
  function Matched(selection: set<nat>, n: nat): set<nat> {
    set i | i in selection && i < n
  }

  /** The table after `queryset.update(approved=value)`: the selected rows
      get the new flag, nothing else changes. */
  function WithApproval(rows: seq<Article>, selection: set<nat>, value: bool): (r: seq<Article>)
    ensures |r| == |rows|
    ensures forall i :: 0 <= i < |rows| ==> r[i].approved == (if i in selection then value else rows[i].approved)
    ensures forall i :: 0 <= i < |rows| ==> r[i].(approved := rows[i].approved) == rows[i]
  {
    seq(|rows|, i requires 0 <= i < |rows| => if i in selection then rows[i].(approved := value) else rows[i])
  }

  /** `queryset.update(approved=value)`: returns the number of rows matched. */
  method SetApproved(db: Database, selection: set<nat>, value: bool) returns (updated: nat)
    modifies db`articles
    ensures db.articles == WithApproval(old(db.articles), selection, value)
    ensures updated == |Matched(selection, |db.articles|)|
  {
    ghost var rows := db.articles;
    var n := |db.articles|;
    updated := 0;
    for i := 0 to n
      invariant |db.articles| == n
      invariant forall j :: 0 <= j < n ==>
        db.articles[j] == if j < i && j in selection then rows[j].(approved := value) else rows[j]
      invariant updated == |Matched(selection, i)|
    {
      if i in selection {
        assert Matched(selection, i + 1) == Matched(selection, i) + {i};
        db.articles := db.articles[i := db.articles[i].(approved := value)];
        updated := updated + 1;
      } else {
        assert Matched(selection, i + 1) == Matched(selection, i);
      }
    }
    assert db.articles == WithApproval(rows, selection, value);
  }

  /** A selection of existing rows is matched in full. */
  lemma MatchedExisting(selection: set<nat>, n: nat)
    requires forall i :: i in selection ==> i < n
    ensures |Matched(selection, n)| == |selection|
  {
    assert Matched(selection, n) == selection;
  }

  /** `ArticleAdmin.approve_articles`. */
  method ApproveArticles(db: Database, selection: set<nat>) returns (updated: nat)
    modifies db`articles
    ensures db.articles == WithApproval(old(db.articles), selection, true)
    ensures updated == |Matched(selection, |db.articles|)|
    ensures (forall i :: i in selection ==> i < |db.articles|) ==> updated == |selection|
  {
    updated := SetApproved(db, selection, true);
    if forall i :: i in selection ==> i < |db.articles| {
      MatchedExisting(selection, |db.articles|);
    }
  }

  /** `ArticleAdmin.mark_as_pending`. */
  method MarkAsPending(db: Database, selection: set<nat>) returns (updated: nat)
    modifies db`articles
    ensures db.articles == WithApproval(old(db.articles), selection, false)
    ensures updated == |Matched(selection, |db.articles|)|
    ensures (forall i :: i in selection ==> i < |db.articles|) ==> updated == |selection|
  {
    updated := SetApproved(db, selection, false);
    if forall i :: i in selection ==> i < |db.articles| {
      MatchedExisting(selection, |db.articles|);
    }
  }

  /** The later of two updates of the same selection decides the flag; in
      particular applying either action twice is the same as applying it once. */
  lemma {:induction false} WithApprovalLastWins(rows: seq<Article>, selection: set<nat>, first: bool, second: bool)
    ensures WithApproval(WithApproval(rows, selection, first), selection, second) == WithApproval(rows, selection, second)
  {
    var once := WithApproval(rows, selection, second);
    var twice := WithApproval(WithApproval(rows, selection, first), selection, second);
    forall i | 0 <= i < |rows|
      ensures twice[i] == once[i]
    {
      assert twice[i].(approved := rows[i].approved) == rows[i];
      assert once[i].(approved := rows[i].approved) == rows[i];
    }
  }

  lemma WithApprovalIdempotent(rows: seq<Article>, selection: set<nat>, value: bool)
    ensures WithApproval(WithApproval(rows, selection, value), selection, value) == WithApproval(rows, selection, value)
  {
    WithApprovalLastWins(rows, selection, value, value);
  }

  /** Neither action breaks a category reference. */
  lemma WithApprovalKeepsForeignKeys(t: Tables, selection: set<nat>, value: bool)
    requires ForeignKeysValid(t)
    ensures ForeignKeysValid(Tables(WithApproval(t.articles, selection, value), t.categories))
  {
    var rows := WithApproval(t.articles, selection, value);
    forall i | 0 <= i < |rows|
      ensures rows[i].category < |t.categories|
    {
      assert rows[i].(approved := t.articles[i].approved) == t.articles[i];
    }
  }

  // ---------------------------------------------------------------------
  // Change-list statistics

  datatype Stats = Stats(total: nat, approved: nat, pending: nat)

  /** The approved rows among the first `k` rows that the queryset matches. */
  function ApprovedBelow(rows: seq<Article>, queryset: set<nat>, k: nat): set<nat>
    requires k <= |rows|
  {
    set i | i in queryset && i < k && rows[i].approved
  }

  /** The pending rows among the first `k` rows that the queryset matches. */
  function PendingBelow(rows: seq<Article>, queryset: set<nat>, k: nat): set<nat>
    requires k <= |rows|
  {
    set i | i in queryset && i < k && !rows[i].approved
  }

  function ApprovedRows(rows: seq<Article>, queryset: set<nat>): set<nat> {
    ApprovedBelow(rows, queryset, |rows|)
  }

  function PendingRows(rows: seq<Article>, queryset: set<nat>): set<nat> {
    PendingBelow(rows, queryset, |rows|)
  }

  /** How the three sets grow when one more row is looked at. */
  lemma CountStep(rows: seq<Article>, queryset: set<nat>, k: nat)
    requires k < |rows|
    ensures Matched(queryset, k + 1) == Matched(queryset, k) + (if k in queryset then {k} else {})
    ensures ApprovedBelow(rows, queryset, k + 1)
            == ApprovedBelow(rows, queryset, k) + (if k in queryset && rows[k].approved then {k} else {})
    ensures PendingBelow(rows, queryset, k + 1)
            == PendingBelow(rows, queryset, k) + (if k in queryset && !rows[k].approved then {k} else {})
  {
  }

  /** `qs.count()`, `qs.filter(approved=True).count()` and
      `qs.filter(approved=False).count()`. As `approved` is a non-null boolean,
      every row is counted once as approved or as pending. */
  function StatsOf(rows: seq<Article>, queryset: set<nat>): (s: Stats)
    ensures s.total == |Matched(queryset, |rows|)|
    ensures s.approved + s.pending == s.total
    ensures s.approved == |ApprovedRows(rows, queryset)| && s.pending == |PendingRows(rows, queryset)|
  {
    var all := Matched(queryset, |rows|);
    var approved := ApprovedRows(rows, queryset);
    var pending := PendingRows(rows, queryset);
    assert all == approved + pending;
    assert approved * pending == {};
    Stats(|all|, |approved|, |pending|)
  }

  /** The three counts over a queryset, taken in one pass over the table. */
  method QuerysetStats(db: Database, queryset: set<nat>) returns (s: Stats)
    ensures s == StatsOf(db.articles, queryset)
  {
    var rows := db.articles;
    var total, approved, pending := 0, 0, 0;
    for i := 0 to |rows|
      invariant total == |Matched(queryset, i)|
      invariant approved == |ApprovedBelow(rows, queryset, i)|
      invariant pending == |PendingBelow(rows, queryset, i)|
    {
      CountStep(rows, queryset, i);
      if i in queryset {
        total := total + 1;
        if rows[i].approved {
          approved := approved + 1;
        } else {
          pending := pending + 1;
        }
      }
    }
    s := Stats(total, approved, pending);
  }

  /** The rows `0 .. n-1`: `Article.objects.all()` over a table of `n` rows. */
  function AllRows(n: nat): (all: set<nat>)
    ensures forall i :: i in all <==> 0 <= i < n
    ensures |all| == n
  {
    if n == 0 then {}
    else
      AllRows(n - 1) + {n - 1}
  }

  /** Over all articles the total is the size of the table. */
  lemma StatsOfAllRows(rows: seq<Article>)
    ensures StatsOf(rows, AllRows(|rows|)).total == |rows|
  {
    assert Matched(AllRows(|rows|), |rows|) == AllRows(|rows|);
  }

  /** Right after `approve_articles` over a whole queryset, nothing in it is
      pending; right after `mark_as_pending`, nothing in it is approved. */
  lemma StatsAfterAction(rows: seq<Article>, queryset: set<nat>, value: bool)
    ensures var s := StatsOf(WithApproval(rows, queryset, value), queryset);
      if value then s.pending == 0 && s.approved == s.total else s.approved == 0 && s.pending == s.total
  {
    var updated := WithApproval(rows, queryset, value);
    if value {
      assert PendingRows(updated, queryset) == {};
    } else {
      assert ApprovedRows(updated, queryset) == {};
    }
  }

  /** What `super().changelist_view` returned: a redirect (after a bulk action
      has run, or after a bad lookup), or a template response whose context
      may hold the change list `cl`, given here by its queryset. */
  datatype ChangelistResponse =
    | Redirect
    | TemplateResponse(cl: Option<set<nat>>, articleStats: Option<Stats>)

  /** The queryset the counts are taken over: the change list's, or every
      article when the response has no context or no `cl`. */
  function StatsQueryset(response: ChangelistResponse, n: nat): (qs: set<nat>)
    ensures response.TemplateResponse? && response.cl.Some? ==> qs == response.cl.value
    ensures !(response.TemplateResponse? && response.cl.Some?) ==> qs == AllRows(n)
  {
    match response
    case TemplateResponse(Some(queryset), _) => queryset
    case _ => AllRows(n)
  }

  datatype ViewOutcome = Returned(response: ChangelistResponse) | RaisedAttributeError

  /** Storing the counts into `response.context_data`, as written: a redirect
      has no `context_data`, so the store raises AttributeError although the
      earlier read of `context_data` was guarded against exactly that. */
  function AttachStatsAsWritten(response: ChangelistResponse, stats: Stats): (r: ViewOutcome)
    ensures response.Redirect? ==> r == RaisedAttributeError
    ensures response.TemplateResponse? ==> r == Returned(response.(articleStats := Some(stats)))
  {
    match response
    case Redirect => RaisedAttributeError
    case TemplateResponse(cl, _) => Returned(TemplateResponse(cl, Some(stats)))
  }

  /** Storing the counts only where there is a context to hold them. */
  function AttachStats(response: ChangelistResponse, stats: Stats): (r: ChangelistResponse)
    ensures response.Redirect? ==> r == Redirect
    ensures response.TemplateResponse? ==> r.TemplateResponse? && r.cl == response.cl && r.articleStats == Some(stats)
  {
    match response
    case Redirect => Redirect
    case TemplateResponse(cl, _) => TemplateResponse(cl, Some(stats))
  }

  /** A redirect, the response after every bulk action, reaches the store of
      the counts with no context: as written that raises, corrected it is
      passed on unchanged. */
  lemma RedirectAfterAction(stats: Stats)
    ensures AttachStatsAsWritten(Redirect, stats).RaisedAttributeError?
    ensures AttachStats(Redirect, stats) == Redirect
  {
  }

  /** `ArticleAdmin.changelist_view` (with the store of the counts corrected):
      a template response gets the approved/pending/total counts of its
      change list, or of every article when it has no change list. */
  method ChangelistView(db: Database, response: ChangelistResponse) returns (r: ChangelistResponse)
    ensures response.Redirect? ==> r == Redirect
    ensures response.TemplateResponse? ==>
      && r.TemplateResponse? && r.cl == response.cl && r.articleStats.Some?
      && r.articleStats.value == StatsOf(db.articles, StatsQueryset(response, |db.articles|))
    ensures response.TemplateResponse? && response.cl.None? ==> r.articleStats.value.total == |db.articles|
  {
    var queryset := StatsQueryset(response, |db.articles|);
    var stats := QuerysetStats(db, queryset);
    if response.TemplateResponse? && response.cl.None? {
      StatsOfAllRows(db.articles);
    }
    r := AttachStats(response, stats);
  }
}
