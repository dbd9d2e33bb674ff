/** A book's page (src/page/book/Book.jsx): the chapter search over the
    top-level chapters and the folder groups, the messages below the list,
    and the rating stars. */
module BookPage {
  import opened Common
  import opened BookDetail
  import BookCard

  /** `chapterSearch.toLowerCase().trim()` */
  function ChapterQuery(raw: string): string
  {
    Trim(Lower(raw))
  }

  /** `ch.name.toLowerCase().includes(searchQuery)` */
  function NameMatches(query: string): Chapter -> bool
  {
    (c: Chapter) => Contains(Lower(c.name), query)
  }

  function FilteredRoot(root: seq<Chapter>, query: string): seq<Chapter>
  {
    Filter(root, NameMatches(query))
  }

  /** One step of the reduce: a group with its matching chapters, kept only
      when some chapter matches. */
  function KeepGroup(query: string): Group -> Option<Group>
  {
    (g: Group) =>
      var kept := Filter(g.1, NameMatches(query));
      if |kept| > 0 then Some((g.0, kept)) else None
  }

  /** filteredFolderGroups, in the order of the groups. */
  function FilteredGroups(groups: seq<Group>, query: string): seq<Group>
  {
    Collect(groups, KeepGroup(query))
  }

  /** Root chapters keep their order and are exactly those whose name, in
      lower case, contains the query. */
  lemma RootSearchFacts(root: seq<Chapter>, query: string)
    ensures var r := FilteredRoot(root, query);
      IsSubsequence(r, root) &&
      forall c :: c in r <==> c in root && Contains(Lower(c.name), query)
  {
    FilterIsSubsequence(root, NameMatches(query));
  }

  /** A folder survives exactly when one of its chapters matches, and then
      holds just its matching chapters, in their order, under its name. */
  lemma KeepGroupFacts(g: Group, query: string)
    ensures var r := KeepGroup(query)(g);
      (r.Some? <==> exists c :: c in g.1 && Contains(Lower(c.name), query)) &&
      (r.Some? ==> r.value.0 == g.0 && r.value.1 != [] && IsSubsequence(r.value.1, g.1) &&
                   forall c :: c in r.value.1 <==> c in g.1 && Contains(Lower(c.name), query))
  {
    var kept := Filter(g.1, NameMatches(query));
    FilterIsSubsequence(g.1, NameMatches(query));
    if exists c :: c in g.1 && Contains(Lower(c.name), query) {
      var c :| c in g.1 && Contains(Lower(c.name), query);
      assert c in kept;
    }
    if kept != [] {
      assert kept[0] in kept;
    }
  }

  /** An empty or all-whitespace search keeps every chapter and every
      non-empty folder group, unchanged and in order. */
  lemma BlankQueryKeepsAll(root: seq<Chapter>, groups: seq<Group>, raw: string)
    requires forall i :: 0 <= i < |raw| ==> IsWhitespace(raw[i])
    requires forall i :: 0 <= i < |groups| ==> groups[i].1 != []
    ensures FilteredRoot(root, ChapterQuery(raw)) == root
    ensures FilteredGroups(groups, ChapterQuery(raw)) == groups
  {
    TrimAllWhitespace(Lower(raw));
    MatchesEverything(root);
    KeepsEveryGroup(groups);
  }

  lemma MatchesEverything(cs: seq<Chapter>)
    ensures Filter(cs, NameMatches("")) == cs
  {
    forall i | 0 <= i < |cs| ensures NameMatches("")(cs[i]) {
      EmptyOccursEverywhere(Lower(cs[i].name));
    }
    FilterAll(cs, NameMatches(""));
  }

  lemma {:induction false} KeepsEveryGroup(groups: seq<Group>)
    requires forall i :: 0 <= i < |groups| ==> groups[i].1 != []
    ensures Collect(groups, KeepGroup("")) == groups
  {
    if groups != [] {
      var g := groups[0];
      MatchesEverything(g.1);
      assert KeepGroup("")(g) == Some(g);
      KeepsEveryGroup(groups[1..]);
      assert Collect(groups, KeepGroup("")) == [g] + Collect(groups[1..], KeepGroup(""));
    }
  }

  // ---------------------------------------------------------------------
  // What the chapter section shows

  datatype Message = NoChapters | NoResults

  /** `filteredRootChapters.length > 0 || folderNames.length > 0` */
  predicate HasResults(root: seq<Chapter>, groups: seq<Group>, query: string)
  {
    |FilteredRoot(root, query)| > 0 || |FilteredGroups(groups, query)| > 0
  }

  function MessageOf(d: Detail, raw: string): Option<Message>
  {
    if d.totalChapters == 0 then Some(NoChapters)
    else if !HasResults(d.rootChapters, d.folderGroups, ChapterQuery(raw)) then Some(NoResults)
    else None
  }

  /** There are results exactly when some chapter, top-level or in a
      folder, matches; 'no results' is shown exactly when the book has
      chapters and none matches, and 'no chapters' exactly when it has none. */
  lemma MessageFacts(d: Detail, raw: string)
    ensures var q := ChapterQuery(raw);
      (HasResults(d.rootChapters, d.folderGroups, q) <==>
        (exists c :: c in d.rootChapters && Contains(Lower(c.name), q)) ||
        (exists i, c :: 0 <= i < |d.folderGroups| && c in d.folderGroups[i].1 && Contains(Lower(c.name), q)))
    ensures MessageOf(d, raw) == Some(NoChapters) <==> d.totalChapters == 0
    ensures MessageOf(d, raw) == Some(NoResults) <==>
      d.totalChapters > 0 && !HasResults(d.rootChapters, d.folderGroups, ChapterQuery(raw))
  {
    RootResults(d.rootChapters, ChapterQuery(raw));
    GroupResults(d.folderGroups, ChapterQuery(raw));
  }

  /** Some root chapter survives exactly when one matches. */
  lemma RootResults(root: seq<Chapter>, q: string)
    ensures |FilteredRoot(root, q)| > 0 <==> exists c :: c in root && Contains(Lower(c.name), q)
  {
    RootSearchFacts(root, q);
    if exists c :: c in root && Contains(Lower(c.name), q) {
      var c :| c in root && Contains(Lower(c.name), q);
      assert c in FilteredRoot(root, q);
    }
    if |FilteredRoot(root, q)| > 0 {
      assert FilteredRoot(root, q)[0] in FilteredRoot(root, q);
    }
  }

  /** Some folder survives exactly when one of its chapters matches. */
  lemma GroupResults(groups: seq<Group>, q: string)
    ensures |FilteredGroups(groups, q)| > 0 <==>
      exists i, c :: 0 <= i < |groups| && c in groups[i].1 && Contains(Lower(c.name), q)
  {
    if exists i, c :: 0 <= i < |groups| && c in groups[i].1 && Contains(Lower(c.name), q) {
      var i, c :| 0 <= i < |groups| && c in groups[i].1 && Contains(Lower(c.name), q);
      MatchKeepsGroup(groups, q, i, c);
    }
    if |FilteredGroups(groups, q)| > 0 {
      var i, c := KeptGroupMatches(groups, q);
    }
  }

  lemma MatchKeepsGroup(groups: seq<Group>, q: string, i: nat, c: Chapter)
    requires i < |groups| && c in groups[i].1 && Contains(Lower(c.name), q)
    ensures |FilteredGroups(groups, q)| > 0
  {
    KeepGroupFacts(groups[i], q);
    assert KeepGroup(q)(groups[i]).value in FilteredGroups(groups, q);
  }

  lemma KeptGroupMatches(groups: seq<Group>, q: string) returns (i: nat, c: Chapter)
    requires |FilteredGroups(groups, q)| > 0
    ensures i < |groups| && c in groups[i].1 && Contains(Lower(c.name), q)
  {
    var g := FilteredGroups(groups, q)[0];
    assert g in FilteredGroups(groups, q);
    i :| 0 <= i < |groups| && KeepGroup(q)(groups[i]) == Some(g);
    KeepGroupFacts(groups[i], q);
    c :| c in groups[i].1 && Contains(Lower(c.name), q);
  }

  /** The rating block: the five stars of BookCard's rule, only for a
      positive rating. */
  function RatingStars(rating: Option<real>): (r: Option<seq<BookCard.Fill>>)
    ensures r.Some? <==> rating.Some? && rating.value > 0.0
    ensures r.Some? ==> |r.value| == 5 && r.value == BookCard.Stars(rating.value)
  {
    if rating.Some? && rating.value > 0.0 then Some(BookCard.Stars(rating.value)) else None
  }
}
