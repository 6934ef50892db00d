/** The news section of the home page: it fetches `/api/news?published=true`, filters by the
    selected category tab, shows up to three featured articles, and opens one article at a time
    in an overlay. */
module NewsAnnouncements {
  import opened Wrappers
  import opened Schema
  import opened Collections
  import opened Storage
  import opened Routes

  const Categories: seq<string> := ["all", "featured", "academic", "achievement", "event"]
  const FeaturedLimit: nat := 3
  const RecentLimit: nat := 6

  /** `article.featured` as a truthy test: `null` counts as not featured. */
  predicate IsFeatured(a: NewsArticle) {
    a.featured == Some(true)
  }

  /** The predicate `filteredArticles` applies, branch by branch as written. */
  predicate InCategory(a: NewsArticle, category: string) {
    if category == "all" then true
    else if category == "featured" then IsFeatured(a)
    else true
  }

  /** The grid under the tabs: the "featured" tab keeps featured articles; every other tab,
      including the three topic tabs, shows the whole list unchanged. */
  function FilteredArticles(articles: seq<NewsArticle>, category: string): (r: seq<NewsArticle>)
    ensures category != "featured" ==> r == articles
    ensures category == "featured" ==>
              forall a :: a in r <==> a in articles && IsFeatured(a)
    ensures SubsequenceOf(r, articles)
  {
    var keep := a => InCategory(a, category);
    FilterIsSubsequence(articles, keep);
    assert category != "featured" ==> Filter(articles, keep) == articles by {
      if category != "featured" {
        FilterKeepsAll(articles, keep);
      }
    }
    Filter(articles, keep)
  }

  /** The highlighted block: the first three featured articles, in list order. */
  function FeaturedArticles(articles: seq<NewsArticle>): (r: seq<NewsArticle>)
    ensures |r| <= FeaturedLimit
    ensures forall a :: a in r ==> a in articles && IsFeatured(a)
    ensures |r| == Min(FeaturedLimit, |Filter(articles, IsFeatured)|)
    ensures r == Filter(articles, IsFeatured)[..|r|]
    ensures SubsequenceOf(r, articles)
  {
    var featured := Filter(articles, IsFeatured);
    var r := Prefix(featured, FeaturedLimit);
    PrefixIsSubsequence(featured, FeaturedLimit);
    FilterIsSubsequence(articles, IsFeatured);
    SubsequenceTransitive(r, featured, articles);
    SubsequenceMembers(r, featured);
    r
  }

  /** `articles.slice(0, 6)`: computed by the component, though nothing renders it. */
  function RecentArticles(articles: seq<NewsArticle>): (r: seq<NewsArticle>)
    ensures |r| == Min(RecentLimit, |articles|)
    ensures r == articles[..|r|]
  {
    Prefix(articles, RecentLimit)
  }

  /** The three topic tabs filter nothing: each shows the whole list, as "all" does. */
  lemma TopicTabsShowAll(articles: seq<NewsArticle>)
    ensures forall c :: c in Categories[2..] ==> FilteredArticles(articles, c) == articles
  {
    assert Categories[2..] == ["academic", "achievement", "event"];
  }

  /** "Baca selengkapnya": the same article closes, any other opens. */
  function Toggle(expanded: Option<Id>, id: Id): (r: Option<Id>)
    ensures expanded == Some(id) ==> r == None
    ensures expanded != Some(id) ==> r == Some(id)
  {
    if expanded == Some(id) then None else Some(id)
  }

  /** Clicking the same article twice returns to the state before, from a closed overlay or
      from that article's own. */
  lemma ToggleTwice(expanded: Option<Id>, id: Id)
    requires expanded == None || expanded == Some(id)
    ensures Toggle(Toggle(expanded, id), id) == expanded
  {
  }

  /** `articles.find(a => a.id === expandedArticle)`: the first article with that id, if any. */
  function FindArticle(articles: seq<NewsArticle>, id: Id): (r: Option<NewsArticle>)
    ensures r.Some? ==> r.value.id == id
    ensures r.Some? ==>
              exists i :: 0 <= i < |articles| && articles[i] == r.value &&
                forall j :: 0 <= j < i ==> articles[j].id != id
    ensures r.None? <==> forall a :: a in articles ==> a.id != id
  {
    if articles == [] then None
    else if articles[0].id == id then Some(articles[0])
    else
      var r := FindArticle(articles[1..], id);
      assert forall a :: a in articles ==> a == articles[0] || a in articles[1..];
      if r.Some? then
        var i :| 0 <= i < |articles[1..]| && articles[1..][i] == r.value &&
                 forall j :: 0 <= j < i ==> articles[1..][j].id != id;
        assert articles[i + 1] == r.value;
        assert forall j :: 0 <= j < i + 1 ==> articles[j].id != id by {
          forall j | 0 <= j < i + 1 ensures articles[j].id != id {
            if j > 0 {
              assert articles[j] == articles[1..][j - 1];
            }
          }
        }
        r
      else
        r
  }

  /** The article list the section receives from the server. */
  function Fetched(db: DatabaseStorage): (r: seq<NewsArticle>)
    reads db
    requires db.Valid()
    ensures forall a :: a in r <==> a in db.newsArticles.Values && a.published == Some(true)
    ensures Distinct(r)
    ensures forall i, j :: 0 <= i < j < |r| ==> r[i].createdAt >= r[j].createdAt
  {
    ListNews(db, Some("true"), false).reply.data.articles
  }

  /** Whatever tab is selected, the section never shows an unpublished article, and every
      published article appears under the "all" tab. */
  lemma OnlyPublishedShown(db: DatabaseStorage, category: string)
    requires db.Valid()
    ensures forall a :: a in FilteredArticles(Fetched(db), category) ==> a.published == Some(true)
    ensures forall a :: a in FeaturedArticles(Fetched(db)) ==> a.published == Some(true)
    ensures forall a :: a in db.newsArticles.Values && a.published == Some(true) ==>
              a in FilteredArticles(Fetched(db), "all")
  {
  }

  /** The component's state: the selected tab and the article open in the overlay. */
  class NewsSection {
    var selectedCategory: string
    var expandedArticle: Option<Id>

    constructor ()
      ensures selectedCategory == "all" && expandedArticle == None
    {
      selectedCategory := "all";
      expandedArticle := None;
    }

    method SelectCategory(category: string)
      modifies this`selectedCategory
      ensures selectedCategory == category
    {
      selectedCategory := category;
    }

    method ClickRead(id: Id)
      modifies this`expandedArticle
      ensures expandedArticle == Toggle(old(expandedArticle), id)
    {
      expandedArticle := if expandedArticle == Some(id) then None else Some(id);
    }

    /** The backdrop and the close button. */
    method Close()
      modifies this`expandedArticle
      ensures expandedArticle == None
    {
      expandedArticle := None;
    }

    /** The overlay's content: nothing when closed or when the id is not in the list. */
    function Overlay(articles: seq<NewsArticle>): (r: Option<NewsArticle>)
      reads this
      ensures expandedArticle.None? ==> r.None?
      ensures expandedArticle.Some? ==>
                (r.None? <==> forall a :: a in articles ==> a.id != expandedArticle.value)
      ensures r.Some? ==> r.value in articles && Some(r.value.id) == expandedArticle
      ensures r.Some? ==>
                exists i :: 0 <= i < |articles| && articles[i] == r.value &&
                  forall j :: 0 <= j < i ==> articles[j].id != r.value.id
    {
      if expandedArticle.None? then None else FindArticle(articles, expandedArticle.value)
    }
  }
}
