/** The records of the news application (news/models.py) and the database
    operations the ingestion command performs on them: the title lookup, the
    category get-or-create and the article insert. A table is a sequence of
    rows; the position of a row stands for its primary key (rows are never
    deleted in this model). */
module Models {

  datatype Option<+T> = None | Some(value: T) {
    /** Python's `d.get(key, default)` on a key that may be missing. */
    function GetOr(default: T): T {
      match this
      case Some(v) => v
      case None => default
    }
  }

  /** An aware datetime in UTC, to the second. */
  datatype DateTime = DateTime(year: int, month: int, day: int, hour: int, minute: int, second: int)

  datatype Category = Category(name: string, description: string)

  datatype Article = Article(
    title: string,
    content: string,
    summary: Option<string>,
    sourceUrl: string,
    category: nat,          // position of the referenced row of the category table
    publishedDate: DateTime,
    audioFile: Option<string>,
    link: Option<string>,
    source: string,
    approved: bool)

  const DefaultSource := "Unknown"

  /** The row `Article.objects.create` stores when it is given only title,
      content, source URL, category and publication date: every other field
      takes its declared default. */
  function NewArticle(title: string, content: string, sourceUrl: string, category: nat, publishedDate: DateTime): Article {
    Article(title, content, None, sourceUrl, category, publishedDate, None, None, DefaultSource, false)
  }

  /** The whole database as a value: the article table and the category table. */
  datatype Tables = Tables(articles: seq<Article>, categories: seq<Category>)

  predicate HasTitle(articles: seq<Article>, title: string) {
    exists i :: 0 <= i < |articles| && articles[i].title == title
  }

  /** Every article points at an existing category (the foreign key). */
  predicate ForeignKeysValid(t: Tables) {
    forall i :: 0 <= i < |t.articles| ==> t.articles[i].category < |t.categories|
  }

  /** The positions of the categories called `name`, in table order. */
  function NamedIndices(categories: seq<Category>, name: string): (ids: seq<nat>)
    ensures forall k :: 0 <= k < |ids| ==> ids[k] < |categories| && categories[ids[k]].name == name
    ensures forall i :: 0 <= i < |categories| && categories[i].name == name ==> i in ids
    ensures forall k, l :: 0 <= k < l < |ids| ==> ids[k] < ids[l]
  {
    if categories == [] then []
    else
      var n := |categories| - 1;
      NamedIndices(categories[..n], name) + (if categories[n].name == name then [n] else [])
  }

  lemma {:induction false} NamedIndicesAppend(categories: seq<Category>, c: Category, name: string)
    ensures NamedIndices(categories + [c], name)
            == NamedIndices(categories, name) + (if c.name == name then [|categories|] else [])
  {
    assert (categories + [c])[..|categories|] == categories;
  }

  /** Outcome of `get_or_create(name=...)`: the row found or created, with the
      category table after the call, or the exception `get` raises when the
      name is not unique. */
  datatype Lookup = Got(id: nat, categories: seq<Category>) | MultipleObjectsReturned

  /** `Category.objects.get_or_create(name=name)`: reuse the one row with that
      name, create it (with an empty description) when there is none, and fail
      when there are several. */
  function GetOrCreate(categories: seq<Category>, name: string): (r: Lookup)
    ensures r.Got? <==> |NamedIndices(categories, name)| <= 1
    ensures r.Got? ==> r.id < |r.categories| && r.categories[r.id].name == name
    ensures r.Got? ==> NamedIndices(r.categories, name) == [r.id]
    ensures r.Got? && NamedIndices(categories, name) == [] ==> r.categories == categories + [Category(name, "")]
    ensures r.Got? && NamedIndices(categories, name) != [] ==> r.categories == categories
  {
    var ids := NamedIndices(categories, name);
    if ids == [] then
      NamedIndicesAppend(categories, Category(name, ""), name);
      Got(|categories|, categories + [Category(name, "")])
    else if |ids| == 1 then
      Got(ids[0], categories)
    else
      MultipleObjectsReturned
  }

  /** The database the application writes through the ORM. */
  class Database {
    var articles: seq<Article>
    var categories: seq<Category>

    constructor (articles: seq<Article>, categories: seq<Category>)
      ensures this.articles == articles && this.categories == categories
    {
      this.articles := articles;
      this.categories := categories;
    }

    function Snapshot(): Tables
      reads this
    {
      Tables(articles, categories)
    }

    /** `Article.objects.filter(title=title).exists()`. */
    method TitleExists(title: string) returns (found: bool)
      ensures found <==> HasTitle(articles, title)
    {
      for i := 0 to |articles|
        invariant forall j :: 0 <= j < i ==> articles[j].title != title
      {
        if articles[i].title == title {
          return true;
        }
      }
      return false;
    }

    /** `Category.objects.get_or_create(name=name)`. */
    method GetOrCreateCategory(name: string) returns (r: Lookup)
      modifies this`categories
      ensures r == GetOrCreate(old(categories), name)
      ensures categories == if r.Got? then r.categories else old(categories)
    {
      var ids: seq<nat> := [];
      for i := 0 to |categories|
        invariant ids == NamedIndices(categories[..i], name)
      {
        assert categories[..i + 1][..i] == categories[..i];
        if categories[i].name == name {
          ids := ids + [i];
        }
      }
      assert categories[..|categories|] == categories;
      if ids == [] {
        categories := categories + [Category(name, "")];
        r := Got(|categories| - 1, categories);
      } else if |ids| == 1 {
        r := Got(ids[0], categories);
      } else {
        r := MultipleObjectsReturned;
      }
    }

    /** `Article.objects.create(...)` for a row already built. */
    method CreateArticle(a: Article)
      modifies this`articles
      ensures articles == old(articles) + [a]
    {
      articles := articles + [a];
    }
  }
}
