/** The dev-post store (src/store/useDevStore.js): the post list, the open
    post and the list's filters. Each load is modelled by the state it leaves
    once its requests have settled; the repository's listings and files are
    parameters, as in DevPosts. */
module DevStore {
  import opened Common
  import opened GitNames
  import opened DevPosts
  import opened Browse

  // ---------------------------------------------------------------------
  // The list's filters

  predicate MatchesSearch(p: Post, query: string)
  {
    query == "" ||
    ContainsIgnoreCase(p.title, query) ||
    ContainsIgnoreCase(p.description, query) ||
    exists i :: 0 <= i < |p.tags| && ContainsIgnoreCase(p.tags[i], query)
  }

  function PassesFilters(selected: string, query: string): Post -> bool
  {
    (p: Post) => InCategory(p.category, selected) && MatchesSearch(p, query)
  }

  /** getFilteredPosts */
  function FilteredPosts(posts: seq<Post>, selected: string, query: string): seq<Post>
  {
    Filter(posts, PassesFilters(selected, query))
  }

  /** The filtered list keeps the list's order and holds exactly the posts in
      the selected category (any, for "all") whose title, description or a
      tag contains the query, ignoring case (any, for ""). */
  lemma FilteredPostsFacts(posts: seq<Post>, selected: string, query: string)
    ensures var r := FilteredPosts(posts, selected, query);
      IsSubsequence(r, posts) &&
      forall p :: p in r <==> p in posts && InCategory(p.category, selected) && MatchesSearch(p, query)
    ensures selected == AllCategories && query == "" ==> FilteredPosts(posts, selected, query) == posts
  {
    FilterIsSubsequence(posts, PassesFilters(selected, query));
    if selected == AllCategories && query == "" {
      FilterAll(posts, PassesFilters(selected, query));
    }
  }

  function CategoryOf(p: Post): string { p.category }

  /** getCategories */
  function Categories(posts: seq<Post>): seq<string>
  {
    CategoryList(Map(posts, CategoryOf))
  }

  /** "all", then every non-empty category of a post once, in increasing order. */
  lemma CategoriesFacts(posts: seq<Post>)
    ensures var r := Categories(posts);
      r[0] == AllCategories &&
      (forall c :: c in r[1..] <==> c != "" && exists i :: 0 <= i < |posts| && posts[i].category == c) &&
      (forall i, j :: 1 <= i < j < |r| ==> StrLe(r[i], r[j]) && r[i] != r[j])
  {
    var cats := Map(posts, CategoryOf);
    CategoryListFacts(cats);
    forall c ensures c in cats <==> exists i :: 0 <= i < |posts| && posts[i].category == c {
      if c in cats {
        var i :| 0 <= i < |cats| && cats[i] == c;
        assert posts[i].category == c;
      }
      if exists i :: 0 <= i < |posts| && posts[i].category == c {
        var i :| 0 <= i < |posts| && posts[i].category == c;
        assert cats[i] == c;
      }
    }
  }

  // ---------------------------------------------------------------------
  // Post navigation

  predicate IsPost(p: Post, category: string, slug: string)
  {
    p.slug == slug && p.category == category
  }

  function Identifies(category: string, slug: string): Post -> bool
  {
    (p: Post) => IsPost(p, category, slug)
  }

  /** getPostNav: neighbours within the filtered list. */
  function PostNav(posts: seq<Post>, selected: string, query: string, category: string, slug: string): Nav<Post>
  {
    NeighboursOf(FilteredPosts(posts, selected, query), Identifies(category, slug))
  }

  /** Neighbours of a post in a list of posts. */
  lemma PostNeighbours(shown: seq<Post>, category: string, slug: string, nav: Nav<Post>)
    requires nav == NeighboursOf(shown, Identifies(category, slug))
    ensures (forall j :: 0 <= j < |shown| ==> !IsPost(shown[j], category, slug)) ==> nav == Nav(None, None)
    ensures forall i :: (0 <= i < |shown| && IsPost(shown[i], category, slug) &&
      (forall j :: 0 <= j < i ==> !IsPost(shown[j], category, slug))) ==>
      Around(shown, i, nav)
  {
    forall i | 0 <= i < |shown| && IsPost(shown[i], category, slug) &&
      (forall j :: 0 <= j < i ==> !IsPost(shown[j], category, slug))
      ensures Around(shown, i, nav)
    {
      assert forall j :: 0 <= j < i ==> !Identifies(category, slug)(shown[j]);
      NeighboursAt(shown, Identifies(category, slug), i);
    }
    if forall j :: 0 <= j < |shown| ==> !IsPost(shown[j], category, slug) {
      assert forall j :: 0 <= j < |shown| ==> !Identifies(category, slug)(shown[j]);
      assert FindIndex(shown, Identifies(category, slug)).None?;
    }
  }

  /** No neighbours for a post the filters hide (or that does not exist);
      otherwise the filtered posts just before and after it, none at either
      end. */
  lemma PostNavFacts(posts: seq<Post>, selected: string, query: string, category: string, slug: string)
    ensures var shown := FilteredPosts(posts, selected, query);
      (forall j :: 0 <= j < |shown| ==> !IsPost(shown[j], category, slug)) ==>
      PostNav(posts, selected, query, category, slug) == Nav(None, None)
    ensures var shown := FilteredPosts(posts, selected, query);
      var nav := PostNav(posts, selected, query, category, slug);
      forall i :: (0 <= i < |shown| && IsPost(shown[i], category, slug) &&
        (forall j :: 0 <= j < i ==> !IsPost(shown[j], category, slug))) ==>
        Around(shown, i, nav)
  {
    PostNeighbours(FilteredPosts(posts, selected, query), category, slug, PostNav(posts, selected, query, category, slug));
  }

  // ---------------------------------------------------------------------
  // The store

  class DevStore {
    var posts: seq<Post>
    var currentPost: Option<FullPost>
    var loading: bool
    var error: Option<string>
    var selectedCategory: string
    var searchQuery: string

    constructor ()
      ensures posts == [] && currentPost.None? && !loading && error.None?
      ensures selectedCategory == AllCategories && searchQuery == ""
    {
      posts := [];
      currentPost := None;
      loading := false;
      error := None;
      selectedCategory := AllCategories;
      searchQuery := "";
    }

    /** loadPosts: nothing when posts are loaded; otherwise the sorted list.
        Listing the posts never fails (it gives an empty list instead), so
        the store's error branch is never taken, and an empty list is fetched
        again on the next load. */
    method LoadPosts(listings: map<string, seq<Entry>>, files: map<string, string>, utf8: seq<Byte> -> string)
      modifies this
      ensures old(posts) != [] ==> posts == old(posts) && loading == old(loading) && error == old(error)
      ensures old(posts) == [] ==>
        posts == SortWith(AllPosts(listings, files, utf8), PostBefore) && !loading && error.None?
      ensures currentPost == old(currentPost)
      ensures selectedCategory == old(selectedCategory) && searchQuery == old(searchQuery)
    {
      if |posts| > 0 {
        return;
      }
      loading, error := true, None;
      var list := FetchDevPostList(listings, files, utf8);
      posts, loading := list, false;
    }

    /** refreshPosts: empties the list, so the load that follows fetches. */
    method RefreshPosts(listings: map<string, seq<Entry>>, files: map<string, string>, utf8: seq<Byte> -> string)
      modifies this
      ensures posts == SortWith(AllPosts(listings, files, utf8), PostBefore) && !loading && error.None?
      ensures currentPost == old(currentPost)
      ensures selectedCategory == old(selectedCategory) && searchQuery == old(searchQuery)
    {
      posts := [];
      LoadPosts(listings, files, utf8);
    }

    /** loadPost: nothing when that post is open; otherwise the fetched post,
        or, when neither of its formats could be read, the error (whose
        message is `failure`) and no open post. */
    method LoadPost(category: string, slug: string, listings: map<string, seq<Entry>>,
                    files: map<string, string>, dates: map<string, (string, string)>,
                    utf8: seq<Byte> -> string, failure: string)
      modifies this
      ensures old(currentPost).Some? && IsPost(old(currentPost).value.post, category, slug) ==>
        currentPost == old(currentPost) && loading == old(loading) && error == old(error)
      ensures !(old(currentPost).Some? && IsPost(old(currentPost).value.post, category, slug)) ==> (!loading &&
        currentPost == DevPostOf(category, slug, listings, files, dates, utf8) &&
        error == (if currentPost.None? then Some(failure) else None))
      ensures posts == old(posts)
      ensures selectedCategory == old(selectedCategory) && searchQuery == old(searchQuery)
    {
      if currentPost.Some? && currentPost.value.post.slug == slug && currentPost.value.post.category == category {
        return;
      }
      loading, error, currentPost := true, None, None;
      var post := FetchDevPost(category, slug, listings, files, dates, utf8);
      if post.None? {
        error, loading := Some(failure), false;
        return;
      }
      currentPost, loading := post, false;
    }

    method SetCategory(category: string)
      modifies this
      ensures selectedCategory == category && searchQuery == old(searchQuery) && posts == old(posts)
      ensures currentPost == old(currentPost) && loading == old(loading) && error == old(error)
    {
      selectedCategory := category;
    }

    method SetSearchQuery(query: string)
      modifies this
      ensures searchQuery == query && selectedCategory == old(selectedCategory) && posts == old(posts)
      ensures currentPost == old(currentPost) && loading == old(loading) && error == old(error)
    {
      searchQuery := query;
    }

    /** clearPost: closes the open post and changes nothing else. */
    method ClearPost()
      modifies this
      ensures currentPost.None? && posts == old(posts)
      ensures selectedCategory == old(selectedCategory) && searchQuery == old(searchQuery)
      ensures loading == old(loading) && error == old(error)
    {
      currentPost := None;
    }
  }
}
