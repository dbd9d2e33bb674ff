/** The book store (src/store/useBookStore.js): the book list, the open book
    and chapter, and the list's filters. Each load is modelled by the state
    it leaves once its requests have settled; the requests' outcomes are
    parameters. */
module BookStore {
  import opened Common
  import opened BookDetail
  import opened Discussions
  import opened Browse

  /** A book of the list; a missing field is "" (or no tags). */
  datatype BookSummary = BookSummary(
    slug: string,
    title: string,
    author: string,
    category: string,
    tags: seq<string>,
    cover: string)

  /** fetchBookDetail's result: the chapter lists and the title from the
      book's info. */
  datatype BookData = BookData(detail: Detail, title: string)

  /** The open book. Its comment counts are attached by loadBook, and are
      absent when loadChapter fetched the book. */
  datatype BookView = BookView(book: BookData, commentCounts: Option<Counts>)

  /** fetchChapter's result. */
  datatype ChapterData = ChapterData(bookSlug: string, path: string, title: string, content: string)

  /** The open chapter, with the title of its book. */
  datatype ChapterView = ChapterView(chapter: ChapterData, bookTitle: string)

  // ---------------------------------------------------------------------
  // The list's filters

  predicate MatchesSearch(b: BookSummary, query: string)
  {
    query == "" ||
    ContainsIgnoreCase(b.title, query) ||
    ContainsIgnoreCase(b.author, query) ||
    exists i :: 0 <= i < |b.tags| && ContainsIgnoreCase(b.tags[i], query)
  }

  function PassesFilters(selected: string, query: string): BookSummary -> bool
  {
    (b: BookSummary) => InCategory(b.category, selected) && MatchesSearch(b, query)
  }

  /** getFilteredBooks */
  function FilteredBooks(books: seq<BookSummary>, selected: string, query: string): seq<BookSummary>
  {
    Filter(books, PassesFilters(selected, query))
  }

  /** The filtered list keeps the list's order and holds exactly the books in
      the selected category (any, for "all") that match the query (any, for
      ""). */
  lemma FilteredBooksFacts(books: seq<BookSummary>, selected: string, query: string)
    ensures var r := FilteredBooks(books, selected, query);
      IsSubsequence(r, books) &&
      forall b :: b in r <==> b in books && InCategory(b.category, selected) && MatchesSearch(b, query)
    ensures selected == AllCategories && query == "" ==> FilteredBooks(books, selected, query) == books
  {
    FilterIsSubsequence(books, PassesFilters(selected, query));
    if selected == AllCategories && query == "" {
      FilterAll(books, PassesFilters(selected, query));
    }
  }

  function CategoryOf(b: BookSummary): string { b.category }

  /** getCategories */
  function Categories(books: seq<BookSummary>): seq<string>
  {
    CategoryList(Map(books, CategoryOf))
  }

  /** "all", then every non-empty category of a book once, in increasing order. */
  lemma CategoriesFacts(books: seq<BookSummary>)
    ensures var r := Categories(books);
      r[0] == AllCategories &&
      (forall c :: c in r[1..] <==> c != "" && exists i :: 0 <= i < |books| && books[i].category == c) &&
      (forall i, j :: 1 <= i < j < |r| ==> StrLe(r[i], r[j]) && r[i] != r[j])
  {
    var cats := Map(books, CategoryOf);
    CategoryListFacts(cats);
    forall c ensures c in cats <==> exists i :: 0 <= i < |books| && books[i].category == c {
      if c in cats {
        var i :| 0 <= i < |cats| && cats[i] == c;
        assert books[i].category == c;
      }
      if exists i :: 0 <= i < |books| && books[i].category == c {
        var i :| 0 <= i < |books| && books[i].category == c;
        assert cats[i] == c;
      }
    }
  }

  // ---------------------------------------------------------------------
  // Chapter navigation

  /** The chapters of every folder group, group after group. */
  function FolderChapters(groups: seq<Group>): seq<Chapter>
  {
    if groups == [] then [] else FolderChapters(groups[..|groups| - 1]) + groups[|groups| - 1].1
  }

  /** Root and folder chapters together, by order. */
  function AllChapters(b: BookView): seq<Chapter>
  {
    SortBy(b.book.detail.rootChapters + FolderChapters(b.book.detail.folderGroups), Order)
  }

  function HasPath(path: string): Chapter -> bool
  {
    (c: Chapter) => c.path == path
  }

  /** getChapterNav */
  function ChapterNav(current: Option<BookView>, path: string): Nav<Chapter>
  {
    if current.None? then Nav(None, None) else NeighboursOf(AllChapters(current.value), HasPath(path))
  }

  /** Neighbours by path in a list of chapters. */
  lemma PathNeighbours(all: seq<Chapter>, path: string, nav: Nav<Chapter>)
    requires nav == NeighboursOf(all, HasPath(path))
    ensures (forall j :: 0 <= j < |all| ==> all[j].path != path) ==> nav == Nav(None, None)
    ensures forall i :: 0 <= i < |all| && all[i].path == path && (forall j :: 0 <= j < i ==> all[j].path != path) ==>
      Around(all, i, nav)
  {
    forall i | 0 <= i < |all| && all[i].path == path && (forall j :: 0 <= j < i ==> all[j].path != path)
      ensures Around(all, i, nav)
    {
      assert forall j :: 0 <= j < i ==> !HasPath(path)(all[j]);
      NeighboursAt(all, HasPath(path), i);
    }
    if forall j :: 0 <= j < |all| ==> all[j].path != path {
      assert forall j :: 0 <= j < |all| ==> !HasPath(path)(all[j]);
      assert FindIndex(all, HasPath(path)).None?;
    }
  }

  /** No neighbours without an open book or for a path it lacks. Otherwise
      the chapters, root and folder ones alike, are in order, and the
      neighbours are the chapters just before and after the first with the
      path, none at either end. */
  lemma ChapterNavFacts(current: Option<BookView>, path: string)
    ensures current.None? ==> ChapterNav(current, path) == Nav(None, None)
    ensures current.Some? ==> SortedBy(AllChapters(current.value), Order)
    ensures current.Some? ==> var d := current.value.book.detail;
      multiset(AllChapters(current.value)) == multiset(d.rootChapters + FolderChapters(d.folderGroups))
    ensures current.Some? ==> var all := AllChapters(current.value);
      (forall j :: 0 <= j < |all| ==> all[j].path != path) ==> ChapterNav(current, path) == Nav(None, None)
    ensures current.Some? ==>
      var all := AllChapters(current.value);
      var nav := ChapterNav(current, path);
      forall i :: 0 <= i < |all| && all[i].path == path && (forall j :: 0 <= j < i ==> all[j].path != path) ==>
        Around(all, i, nav)
  {
    if current.Some? {
      SortByFacts(current.value.book.detail.rootChapters + FolderChapters(current.value.book.detail.folderGroups), Order);
      PathNeighbours(AllChapters(current.value), path, ChapterNav(current, path));
    }
  }

  // ---------------------------------------------------------------------
  // The store

  class BookStore {
    var books: seq<BookSummary>
    var currentBook: Option<BookView>
    var currentChapter: Option<ChapterView>
    var loading: bool
    var error: Option<string>
    var selectedCategory: string
    var searchQuery: string

    constructor ()
      ensures books == [] && currentBook.None? && currentChapter.None? && !loading && error.None?
      ensures selectedCategory == AllCategories && searchQuery == ""
    {
      books := [];
      currentBook := None;
      currentChapter := None;
      loading := false;
      error := None;
      selectedCategory := AllCategories;
      searchQuery := "";
    }

    /** loadBooks: nothing when books are loaded; otherwise the fetched list,
        or the error with the list left as it was. */
    method LoadBooks(response: Response<seq<BookSummary>>)
      modifies this
      ensures old(books) != [] ==>
        books == old(books) && loading == old(loading) && error == old(error)
      ensures old(books) == [] ==> (!loading &&
        (response.Ok? ==> books == response.value && error.None?) &&
        (response.Failed? ==> books == old(books) && error == Some(response.message)))
      ensures currentBook == old(currentBook) && currentChapter == old(currentChapter)
      ensures selectedCategory == old(selectedCategory) && searchQuery == old(searchQuery)
    {
      if |books| > 0 {
        return;
      }
      loading, error := true, None;
      match response
      case Ok(list) =>
        books, loading := list, false;
      case Failed(message) =>
        error, loading := Some(message), false;
    }

    /** refreshBooks: empties the list, so the load that follows always
        fetches; a failed reload leaves the list empty. */
    method RefreshBooks(response: Response<seq<BookSummary>>)
      modifies this
      ensures !loading
      ensures response.Ok? ==> books == response.value && error.None?
      ensures response.Failed? ==> books == [] && error == Some(response.message)
      ensures currentBook == old(currentBook) && currentChapter == old(currentChapter)
      ensures selectedCategory == old(selectedCategory) && searchQuery == old(searchQuery)
    {
      books := [];
      LoadBooks(response);
    }

    /** loadBook: nothing when the book is already open; otherwise the
        fetched book with its comment counts, or the error and no open book.
        The counts request never fails: it gives no counts instead. */
    method LoadBook(slug: string, detail: Response<BookData>, hasToken: bool,
                    discussions: Option<seq<Discussion>>, decodeUri: string -> Option<string>)
      modifies this
      ensures old(currentBook).Some? && old(currentBook).value.book.detail.slug == slug ==>
        currentBook == old(currentBook) && loading == old(loading) && error == old(error)
      ensures !(old(currentBook).Some? && old(currentBook).value.book.detail.slug == slug) ==> (!loading &&
        (detail.Ok? ==> error.None? && currentBook == Some(BookView(detail.value,
          Some(if hasToken && discussions.Some? then Tally(discussions.value, BookPrefix(slug), decodeUri) else map[])))) &&
        (detail.Failed? ==> currentBook.None? && error == Some(detail.message)))
      ensures books == old(books) && currentChapter == old(currentChapter)
      ensures selectedCategory == old(selectedCategory) && searchQuery == old(searchQuery)
    {
      if currentBook.Some? && currentBook.value.book.detail.slug == slug {
        return;
      }
      loading, error, currentBook := true, None, None;
      var commentCounts := FetchDiscussionCounts(slug, hasToken, discussions, decodeUri);
      match detail
      case Ok(book) =>
        currentBook, loading := Some(BookView(book, Some(commentCounts))), false;
      case Failed(message) =>
        error, loading := Some(message), false;
    }

    /** loadChapter: the chapter with its book's title, and that book open.
        The open book is reused when it is the chapter's book; otherwise it
        is fetched, without comment counts. If either request fails, the
        error is set and no chapter is open. */
    method LoadChapter(bookSlug: string, chapter: Response<ChapterData>, detail: Response<BookData>)
      modifies this
      ensures var needsBook := old(currentBook).None? || old(currentBook).value.book.detail.slug != bookSlug;
        var book := if needsBook then detail else Ok(old(currentBook).value.book);
        !loading &&
        (chapter.Ok? && book.Ok? ==>
          currentChapter == Some(ChapterView(chapter.value, book.value.title)) && error.None? &&
          currentBook == Some(if needsBook then BookView(book.value, None) else old(currentBook).value)) &&
        (chapter.Failed? || book.Failed? ==>
          currentChapter.None? && currentBook == old(currentBook) && error.Some?)
      ensures books == old(books)
      ensures selectedCategory == old(selectedCategory) && searchQuery == old(searchQuery)
    {
      loading, error, currentChapter := true, None, None;
      var cached := currentBook;
      var needsBook := cached.None? || cached.value.book.detail.slug != bookSlug;
      var book: Response<BookView> :=
        if !needsBook then Ok(cached.value)
        else if detail.Ok? then Ok(BookView(detail.value, None))
        else Failed(detail.message);
      if chapter.Failed? {
        error, loading := Some(chapter.message), false;
        return;
      }
      if book.Failed? {
        error, loading := Some(book.message), false;
        return;
      }
      currentChapter := Some(ChapterView(chapter.value, book.value.book.title));
      currentBook := Some(book.value);
      loading := false;
    }

    method SetCategory(category: string)
      modifies this
      ensures selectedCategory == category && searchQuery == old(searchQuery) && books == old(books)
      ensures currentBook == old(currentBook) && currentChapter == old(currentChapter)
      ensures loading == old(loading) && error == old(error)
    {
      selectedCategory := category;
    }

    method SetSearchQuery(query: string)
      modifies this
      ensures searchQuery == query && selectedCategory == old(selectedCategory) && books == old(books)
      ensures currentBook == old(currentBook) && currentChapter == old(currentChapter)
      ensures loading == old(loading) && error == old(error)
    {
      searchQuery := query;
    }

    method ClearBook()
      modifies this
      ensures currentBook.None? && currentChapter == old(currentChapter) && books == old(books)
      ensures selectedCategory == old(selectedCategory) && searchQuery == old(searchQuery)
      ensures loading == old(loading) && error == old(error)
    {
      currentBook := None;
    }

    method ClearChapter()
      modifies this
      ensures currentChapter.None? && currentBook == old(currentBook) && books == old(books)
      ensures selectedCategory == old(selectedCategory) && searchQuery == old(searchQuery)
      ensures loading == old(loading) && error == old(error)
    {
      currentChapter := None;
    }
  }
}
