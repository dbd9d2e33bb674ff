/** The dev-blog home page (src/page/dev/DevHome.jsx): five posts per page
    over the store's filtered list, the page number that a change of filter
    resets, the pagination buttons, the category chips' counts and the
    empty-list message. */
module DevHome {
  import opened Common
  import opened DevPosts
  import opened Browse
  import DevStore

  const PostsPerPage: nat := 5

  /** `Math.ceil(filteredPosts.length / 5)` */
  function TotalPages(n: nat): nat
  {
    CeilDiv(n, PostsPerPage)
  }

  /** `filteredPosts.slice((currentPage - 1) * 5, currentPage * 5)` */
  function Paginated(filtered: seq<Post>, page: nat): seq<Post>
    requires page >= 1
  {
    PageOf(filtered, page, PostsPerPage)
  }

  /** A page shows at most five posts; the pages 1 .. totalPages are all
      non-empty and together list the filtered posts once each, in order;
      any later page is empty. Page p is the slice starting at (p - 1) * 5. */
  lemma PaginationFacts(filtered: seq<Post>, page: nat)
    requires page >= 1
    ensures |Paginated(filtered, page)| <= PostsPerPage
    ensures Paginated(filtered, page) != [] <==> page <= TotalPages(|filtered|)
    ensures page <= TotalPages(|filtered|) ==>
      (page - 1) * PostsPerPage < |filtered| &&
      Paginated(filtered, page) == filtered[(page - 1) * PostsPerPage..][..|Paginated(filtered, page)|]
    ensures PagesFrom(filtered, PostsPerPage, 1, TotalPages(|filtered|)) == filtered
  {
    var n, last := |filtered|, TotalPages(|filtered|);
    PagesPartition(filtered, PostsPerPage);
    if page <= last {
      MulMonotone(page - 1, last - 1, PostsPerPage);
    } else {
      MulMonotone(last, page - 1, PostsPerPage);
    }
  }

  // ---------------------------------------------------------------------
  // Category chips

  function HasCategory(category: string): Post -> bool
  {
    (p: Post) => p.category == category
  }

  /** The count on a chip: every post for 'all', otherwise the posts of
      that category. */
  function ChipCount(posts: seq<Post>, category: string): nat
  {
    if category == AllCategories then |posts| else |Filter(posts, HasCategory(category))|
  }

  /** A chip counts the posts the list shows once that chip is selected
      and no search is typed. */
  lemma ChipCountFacts(posts: seq<Post>, category: string)
    ensures ChipCount(posts, category) == |DevStore.FilteredPosts(posts, category, "")|
    ensures category == AllCategories ==> ChipCount(posts, category) == |posts|
    ensures category != AllCategories ==>
      forall p :: p in Filter(posts, HasCategory(category)) <==> p in posts && p.category == category
  {
    DevStore.FilteredPostsFacts(posts, category, "");
    if category != AllCategories {
      FilterSame(posts, HasCategory(category), DevStore.PassesFilters(category, ""));
    }
  }

  // ---------------------------------------------------------------------
  // The empty-list message

  datatype EmptyMessage = NoResults | NoPostsYet

  /** Whether a search or a category other than 'all' narrows the list. */
  predicate FilterActive(selected: string, query: string)
  {
    query != "" || selected != AllCategories
  }

  /** The message shown below the list, if any. */
  function EmptyMessageOf(loading: bool, failed: bool, filtered: seq<Post>, selected: string, query: string): Option<EmptyMessage>
  {
    if !loading && !failed && |filtered| == 0 then
      Some(if FilterActive(selected, query) then NoResults else NoPostsYet)
    else None
  }

  /** The message appears exactly when the settled list is empty; 'no posts
      yet' only when there are no posts at all, and 'no results' only when a
      filter is active. */
  lemma EmptyMessageFacts(loading: bool, failed: bool, posts: seq<Post>, selected: string, query: string)
    ensures var m := EmptyMessageOf(loading, failed, DevStore.FilteredPosts(posts, selected, query), selected, query);
      (m.Some? <==> !loading && !failed && DevStore.FilteredPosts(posts, selected, query) == []) &&
      (m == Some(NoPostsYet) ==> posts == []) &&
      (m == Some(NoResults) ==> FilterActive(selected, query)) &&
      (!loading && !failed && posts == [] ==> m.Some?)
  {
    DevStore.FilteredPostsFacts(posts, selected, query);
  }

  // ---------------------------------------------------------------------
  // Pagination buttons

  datatype Controls = Hidden | Shown(prevDisabled: bool, pages: seq<nat>, nextDisabled: bool)

  function ControlsOf(totalPages: nat, currentPage: nat): Controls
  {
    if totalPages > 1 then
      Shown(currentPage == 1, seq(totalPages, i requires 0 <= i < totalPages => i + 1), currentPage == totalPages)
    else Hidden
  }

  /** The buttons appear only when there is more than one page; they offer
      the pages 1 .. totalPages; prev is disabled exactly on the first page
      and next exactly on the last. */
  lemma ControlsFacts(filtered: seq<Post>, currentPage: nat)
    ensures var c := ControlsOf(TotalPages(|filtered|), currentPage);
      (c.Shown? <==> |filtered| > PostsPerPage) &&
      (c.Shown? ==> (c.prevDisabled <==> currentPage == 1) &&
                    (c.nextDisabled <==> currentPage == TotalPages(|filtered|)) &&
                    |c.pages| == TotalPages(|filtered|) &&
                    forall i :: 0 <= i < |c.pages| ==> c.pages[i] == i + 1)
  {
  }

  // ---------------------------------------------------------------------
  // The page number

  /** The page's own state, with the filters it last saw from the store. */
  class Pager {
    var currentPage: nat
    var selectedCategory: string
    var searchQuery: string

    ghost predicate Valid()
      reads this
    {
      currentPage >= 1
    }

    constructor(selected: string, query: string)
      ensures Valid() && currentPage == 1
      ensures selectedCategory == selected && searchQuery == query
    {
      currentPage := 1;
      selectedCategory := selected;
      searchQuery := query;
    }

    /** A category chip: the effect on [selectedCategory, searchQuery] runs
        only when the category really changes, and then goes back to page 1. */
    method SelectCategory(category: string)
      requires Valid()
      modifies this
      ensures Valid()
      ensures selectedCategory == category && searchQuery == old(searchQuery)
      ensures currentPage == if category != old(selectedCategory) then 1 else old(currentPage)
    {
      if category != selectedCategory {
        currentPage := 1;
      }
      selectedCategory := category;
    }

    /** Typing in the search box, likewise. */
    method Search(query: string)
      requires Valid()
      modifies this
      ensures Valid()
      ensures searchQuery == query && selectedCategory == old(selectedCategory)
      ensures currentPage == if query != old(searchQuery) then 1 else old(currentPage)
    {
      if query != searchQuery {
        currentPage := 1;
      }
      searchQuery := query;
    }

    /** A numbered button: one of the pages 1 .. totalPages. */
    method GoTo(page: nat, totalPages: nat)
      requires Valid() && 1 <= page <= totalPages
      modifies this
      ensures Valid() && currentPage == page
      ensures selectedCategory == old(selectedCategory) && searchQuery == old(searchQuery)
    {
      currentPage := page;
    }

    /** The prev button; disabled, so without effect, on page 1. */
    method Prev()
      requires Valid()
      modifies this
      ensures Valid()
      ensures currentPage == if old(currentPage) == 1 then 1 else old(currentPage) - 1
      ensures selectedCategory == old(selectedCategory) && searchQuery == old(searchQuery)
    {
      if currentPage != 1 {
        currentPage := currentPage - 1;
      }
    }

    /** The next button; disabled, so without effect, on the last page. */
    method Next(totalPages: nat)
      requires Valid()
      modifies this
      ensures Valid()
      ensures currentPage == if old(currentPage) == totalPages then totalPages else old(currentPage) + 1
      ensures old(currentPage) <= totalPages ==> currentPage <= totalPages
      ensures selectedCategory == old(selectedCategory) && searchQuery == old(searchQuery)
    {
      if currentPage != totalPages {
        currentPage := currentPage + 1;
      }
    }
  }

  /** After a new category is chosen the list shows the first five posts of
      the newly filtered list. */
  method ChooseCategoryShowsFirstPage(pager: Pager, posts: seq<Post>, category: string) returns (shown: seq<Post>)
    requires pager.Valid() && category != pager.selectedCategory
    modifies pager
    ensures pager.currentPage == 1
    ensures shown == Take(DevStore.FilteredPosts(posts, category, pager.searchQuery), PostsPerPage)
  {
    pager.SelectCategory(category);
    shown := Paginated(DevStore.FilteredPosts(posts, pager.selectedCategory, pager.searchQuery), pager.currentPage);
  }
}
