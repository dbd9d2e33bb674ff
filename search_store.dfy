/** The full-text search store (src/store/useSearchStore.js): the index built
    by fetchAllChapterContents, its copy in the browser's storage, and the
    search over it. The clock is a parameter (`now`, in milliseconds), and the
    storage item is a field of the store. */
module SearchStore {
  import opened Common
  import opened GitNames
  import opened ChapterIndex

  /** 24 hours in milliseconds. */
  const CacheTtl: int := 24 * 60 * 60 * 1000

  const SnippetRadius: nat := 30

  const MaxResults: nat := 20

  const MinQueryLength: nat := 2

  /** The storage item: JSON that does not parse (or lacks its fields), or
      the index with the time it was saved. */
  datatype Stored = Unparseable | Saved(index: seq<SearchEntry>, timestamp: int)

  datatype SearchResult = SearchResult(
    bookSlug: string,
    bookTitle: string,
    chapterPath: string,
    chapterName: string,
    snippet: string)

  // ---------------------------------------------------------------------
  // The cache

  /** A saved index is used up to and including CacheTtl after it was saved. */
  predicate IsFresh(timestamp: int, now: int)
  {
    now - timestamp <= CacheTtl
  }

  /** What loadCache returns for the storage item. */
  function CachedIndex(stored: Option<Stored>, now: int): (r: Option<seq<SearchEntry>>)
    ensures r.Some? <==> stored.Some? && stored.value.Saved? && IsFresh(stored.value.timestamp, now)
    ensures r.Some? ==> r.value == stored.value.index
  {
    match stored
    case None => None
    case Some(Unparseable) => None
    case Some(Saved(index, timestamp)) => if now - timestamp > CacheTtl then None else Some(index)
  }

  /** What loadCache leaves in storage: a stale or unparseable item is removed. */
  function StorageAfterLoad(stored: Option<Stored>, now: int): Option<Stored>
  {
    if CachedIndex(stored, now).Some? then stored else None
  }

  /** An index saved at `saved` is read back unchanged until CacheTtl has
      passed, and not after. */
  lemma SavedIndexReadBack(index: seq<SearchEntry>, saved: int, now: int)
    ensures CachedIndex(Some(Saved(index, saved)), now) == (if now <= saved + CacheTtl then Some(index) else None)
  {
  }

  /** Loading again changes nothing: a second load finds what the first left. */
  lemma LoadIsIdempotent(stored: Option<Stored>, now: int)
    ensures StorageAfterLoad(StorageAfterLoad(stored, now), now) == StorageAfterLoad(stored, now)
    ensures CachedIndex(StorageAfterLoad(stored, now), now) == CachedIndex(stored, now)
  {
  }

  // ---------------------------------------------------------------------
  // Snippets

  /** Where a snippet starts: 30 characters before the match, or the start. */
  function SnippetStart(idx: nat): (s: nat)
    ensures s <= idx && (s == 0 || s == idx - SnippetRadius) && idx - s <= SnippetRadius
  {
    if idx >= SnippetRadius then idx - SnippetRadius else 0
  }

  /** Where a snippet ends: 30 characters after the match, or the end. */
  function SnippetEnd(idx: nat, queryLength: nat, textLength: nat): (e: nat)
    ensures e <= textLength && (e == textLength || e == idx + queryLength + SnippetRadius)
    ensures e <= idx + queryLength + SnippetRadius
  {
    if idx + queryLength + SnippetRadius <= textLength then idx + queryLength + SnippetRadius else textLength
  }

  /** The text around the first case-insensitive occurrence of the query,
      with "..." where it was cut; "" when there is none. */
  function Snippet(text: string, query: string): string
  {
    match IndexOf(Lower(text), Lower(query))
    case None => ""
    case Some(idx) =>
      var start := SnippetStart(idx);
      var end := SnippetEnd(idx, |query|, |text|);
      (if start > 0 then "..." else "") + text[start..end] + (if end < |text| then "..." else "")
  }

  /** With no occurrence the snippet is empty. With one, the snippet is the
      window around the first occurrence, cut 30 characters either side of it
      and marked "..." exactly on the sides where text was cut; the window
      holds the matched span and is at most the query's length plus 60. */
  lemma SnippetFacts(text: string, query: string)
    ensures !ContainsIgnoreCase(text, query) ==> Snippet(text, query) == ""
    ensures ContainsIgnoreCase(text, query) ==>
      var idx := IndexOf(Lower(text), Lower(query)).value;
      var start, end := SnippetStart(idx), SnippetEnd(idx, |query|, |text|);
      start <= idx && idx + |query| <= end <= |text| &&
      end - start <= |query| + 2 * SnippetRadius &&
      Lower(text[idx..idx + |query|]) == Lower(query) &&
      (forall j :: 0 <= j < idx ==> !OccursAt(Lower(text), Lower(query), j)) &&
      Snippet(text, query) ==
        (if start > 0 then "..." else "") + text[start..end] + (if end < |text| then "..." else "")
  {
    if ContainsIgnoreCase(text, query) {
      var idx := IndexOf(Lower(text), Lower(query)).value;
      assert OccursAt(Lower(text), Lower(query), idx);
      LowerSlice(text, idx, idx + |query|);
    }
  }

  // ---------------------------------------------------------------------
  // Search

  predicate Matches(e: SearchEntry, query: string)
  {
    ContainsIgnoreCase(e.plainText, query)
  }

  function MatchesQuery(query: string): SearchEntry -> bool
  {
    (e: SearchEntry) => Matches(e, query)
  }

  function ResultOf(e: SearchEntry, query: string): SearchResult
  {
    SearchResult(e.bookSlug, e.bookTitle, e.chapterPath, e.chapterName, Snippet(e.plainText, query))
  }

  function ResultFor(query: string): SearchEntry -> SearchResult
  {
    (e: SearchEntry) => ResultOf(e, query)
  }

  /** What the loop pushes for one entry. */
  function HitOf(query: string): SearchEntry -> Option<SearchResult>
  {
    (e: SearchEntry) => if Matches(e, query) then Some(ResultOf(e, query)) else None
  }

  /** searchContent: nothing for a query under two characters; otherwise a
      result for every matching entry, of which the first 20 are kept. */
  function SearchResults(index: seq<SearchEntry>, query: string): seq<SearchResult>
  {
    if |query| < MinQueryLength then [] else Take(Collect(index, HitOf(query)), MaxResults)
  }

  /** The results are the first 20 matching entries in index order (all of
      them when there are fewer), each with its own fields and snippet. */
  lemma SearchResultsFacts(index: seq<SearchEntry>, query: string)
    requires |query| >= MinQueryLength
    ensures var r := SearchResults(index, query);
      var hits := Filter(index, MatchesQuery(query));
      |r| == (if |hits| < MaxResults then |hits| else MaxResults) &&
      forall i :: 0 <= i < |r| ==> r[i] == ResultOf(hits[i], query)
  {
    forall e ensures HitOf(query)(e) == if MatchesQuery(query)(e) then Some(ResultFor(query)(e)) else None {
    }
    CollectIsFilterMap(index, HitOf(query), MatchesQuery(query), ResultFor(query));
  }

  /** The hits are taken from the index in order. */
  lemma HitsInIndexOrder(index: seq<SearchEntry>, query: string)
    ensures IsSubsequence(Filter(index, MatchesQuery(query)), index)
  {
    FilterIsSubsequence(index, MatchesQuery(query));
  }

  /** A one-character query finds nothing, whatever the index holds. */
  lemma ShortQueryFindsNothing(index: seq<SearchEntry>, c: char)
    ensures SearchResults(index, [c]) == []
  {
  }

  // ---------------------------------------------------------------------
  // The store

  class SearchStore {
    var index: seq<SearchEntry>
    var indexing: bool
    var indexReady: bool
    var indexProgress: (nat, nat)
    /** The "search-index" storage item. */
    var storage: Option<Stored>

    /** A fresh store over whatever storage holds. */
    constructor (stored: Option<Stored>)
      ensures index == [] && !indexing && !indexReady && indexProgress == (0, 0) && storage == stored
    {
      index := [];
      indexing := false;
      indexReady := false;
      indexProgress := (0, 0);
      storage := stored;
    }

    /** loadCache: the saved index when it is present, parses and is fresh;
        otherwise nothing, and a stale or unparseable item is removed. */
    method LoadCache(now: int) returns (cached: Option<seq<SearchEntry>>)
      modifies this
      ensures cached == CachedIndex(old(storage), now)
      ensures storage == StorageAfterLoad(old(storage), now)
      ensures index == old(index) && indexing == old(indexing) && indexReady == old(indexReady)
      ensures indexProgress == old(indexProgress)
    {
      if storage.None? {
        return None;
      }
      if storage.value.Unparseable? {
        storage := None;
        return None;
      }
      if now - storage.value.timestamp > CacheTtl {
        storage := None;
        return None;
      }
      cached := Some(storage.value.index);
    }

    /** saveCache: stores the index with the time; a full storage keeps the
        old item. */
    method SaveCache(idx: seq<SearchEntry>, now: int, storageFull: bool)
      modifies this
      ensures storage == if storageFull then old(storage) else Some(Saved(idx, now))
      ensures index == old(index) && indexing == old(indexing) && indexReady == old(indexReady)
      ensures indexProgress == old(indexProgress)
    {
      if !storageFull {
        storage := Some(Saved(idx, now));
      }
    }

    /** loadCachedIndex: a usable cache becomes the index, and the index is
        then ready. An empty cached index counts, as an empty array is truthy. */
    method LoadCachedIndex(now: int) returns (loaded: bool)
      modifies this
      ensures loaded == CachedIndex(old(storage), now).Some?
      ensures loaded ==> index == CachedIndex(old(storage), now).value && indexReady
      ensures !loaded ==> index == old(index) && indexReady == old(indexReady)
      ensures indexing == old(indexing) && indexProgress == old(indexProgress)
      ensures storage == StorageAfterLoad(old(storage), now)
    {
      var cached := LoadCache(now);
      if cached.Some? {
        index := cached.value;
        indexReady := true;
        return true;
      }
      return false;
    }

    /** buildIndex: does nothing while a build runs or once the index is
        ready; otherwise builds the index, saves it and marks it ready, with
        the last progress report as the progress. */
    method BuildIndex(booksPath: string, books: seq<Book>, repo: map<string, BookDir>,
                      utf8: seq<Byte> -> string, fetched: map<string, string>,
                      now: int, storageFull: bool)
      modifies this
      ensures old(indexing) || old(indexReady) ==>
        index == old(index) && indexing == old(indexing) && indexReady == old(indexReady) &&
        indexProgress == old(indexProgress) && storage == old(storage)
      ensures !old(indexing) && !old(indexReady) ==>
        var tasks := AllTasks(booksPath, books, repo, utf8);
        index == Collect(tasks, OutcomeOf(fetched)) && !indexing && indexReady &&
        indexProgress == (|tasks|, |tasks|) &&
        storage == (if storageFull then old(storage) else Some(Saved(index, now)))
    {
      if indexing || indexReady {
        return;
      }
      indexing := true;
      indexProgress := (0, 0);
      var built, progress := FetchAllChapterContents(booksPath, books, repo, utf8, fetched);
      indexProgress := progress[|progress| - 1];
      SaveCache(built, now, storageFull);
      index := built;
      indexing := false;
      indexReady := true;
    }

    /** searchContent over the current index. */
    method SearchContent(query: string) returns (results: seq<SearchResult>)
      ensures results == SearchResults(index, query)
    {
      if |query| < MinQueryLength {
        return [];
      }
      var qLower := Lower(query);
      var found: seq<SearchResult> := [];
      for i := 0 to |index|
        invariant found == Collect(index[..i], HitOf(query))
      {
        CollectStep(index, i, HitOf(query));
        var entry := index[i];
        if Contains(Lower(entry.plainText), qLower) {
          found := found + [SearchResult(entry.bookSlug, entry.bookTitle, entry.chapterPath,
                                         entry.chapterName, Snippet(entry.plainText, query))];
        }
      }
      assert index[..|index|] == index;
      results := Take(found, MaxResults);
    }
  }
}
