/** The public dashboard endpoint (api/dashboard.js): visitor counts for
    today, yesterday and all time, the ten most visited posts and the three
    most visited books, from GoatCounter answers given as parameters. */
module Dashboard {
  import opened Common

  /** A daily total from /stats/total; a missing `daily` is 0. */
  datatype Stat = Stat(day: string, daily: int)

  /** A row of /stats/hits; a missing path or title is "". */
  datatype Hit = Hit(path: string, title: string, count: int)

  datatype PostHit = PostHit(path: string, title: string, count: int)

  datatype BookStat = BookStat(slug: string, title: string, count: int)

  datatype Visitors = Visitors(today: int, yesterday: int, total: int)

  datatype Response = Response(visitors: Visitors, topPosts: seq<PostHit>, topBooks: seq<BookStat>)

  const EmptyResponse: Response := Response(Visitors(0, 0, 0), [], [])

  const MaxPosts: nat := 10

  const MaxBooks: nat := 3

  const PostPrefix: string := "/post/"

  const BookPrefix: string := "/book/"

  /** decodeURIComponent: None where it throws. */
  type Decoder = string -> Option<string>

  // ---------------------------------------------------------------------
  // Visitors

  /** The daily count of the first stat for `day`, 0 when there is none. */
  function DailyOf(stats: seq<Stat>, day: string): (r: int)
    ensures (forall i :: 0 <= i < |stats| ==> stats[i].day != day) ==> r == 0
    ensures forall i :: (0 <= i < |stats| && stats[i].day == day &&
      forall j :: 0 <= j < i ==> stats[j].day != day) ==> r == stats[i].daily
  {
    if stats == [] then 0
    else if stats[0].day == day then stats[0].daily
    else
      var t := stats[1..];
      var r := DailyOf(t, day);
      assert forall i :: 1 <= i < |stats| ==> stats[i] == t[i - 1];
      assert forall i :: (0 <= i < |stats| && stats[i].day == day &&
        forall j :: 0 <= j < i ==> stats[j].day != day) ==> r == stats[i].daily by {
        forall i | 0 <= i < |stats| && stats[i].day == day && forall j :: 0 <= j < i ==> stats[j].day != day
          ensures r == stats[i].daily
        {
          assert t[i - 1] == stats[i];
          forall j | 0 <= j < i - 1 ensures t[j].day != day {
            assert t[j] == stats[j + 1];
          }
        }
      }
      r
  }

  // ---------------------------------------------------------------------
  // Top posts

  /** `h.path && decodeURIComponent(h.path).startsWith('/post/')` */
  function IsPostHit(decode: Decoder): Hit -> bool
  {
    (h: Hit) => h.path != "" && decode(h.path).Some? && StartsWith(decode(h.path).value, PostPrefix)
  }

  function Decoded(decode: Decoder, path: string): string
  {
    if decode(path).Some? then decode(path).value else ""
  }

  /** A post hit with its decoded path, titled by the path when it has no title. */
  function PostOf(decode: Decoder): Hit -> PostHit
  {
    (h: Hit) => PostHit(Decoded(decode, h.path), if h.title != "" then h.title else Decoded(decode, h.path), h.count)
  }

  function TopPosts(hits: seq<Hit>, decode: Decoder): seq<PostHit>
  {
    Map(Take(Filter(hits, IsPostHit(decode)), MaxPosts), PostOf(decode))
  }

  /** The top posts are the first (at most ten) hits on a post page, in
      input order, each under a decoded path that starts with /post/ and
      titled by its title or, failing that, by that path. */
  lemma TopPostsFacts(hits: seq<Hit>, decode: Decoder)
    ensures var r := TopPosts(hits, decode);
      var posts := Filter(hits, IsPostHit(decode));
      |r| == (if |posts| < MaxPosts then |posts| else MaxPosts) &&
      IsSubsequence(posts, hits) &&
      forall i :: 0 <= i < |r| ==>
        decode(posts[i].path) == Some(r[i].path) &&
        StartsWith(r[i].path, PostPrefix) && r[i].count == posts[i].count &&
        r[i].title == (if posts[i].title != "" then posts[i].title else r[i].path)
  {
    var posts := Filter(hits, IsPostHit(decode));
    FilterIsSubsequence(hits, IsPostHit(decode));
    var r := TopPosts(hits, decode);
    forall i | 0 <= i < |r|
      ensures decode(posts[i].path) == Some(r[i].path) && StartsWith(r[i].path, PostPrefix)
    {
      assert IsPostHit(decode)(posts[i]);
    }
  }

  // ---------------------------------------------------------------------
  // Book pages

  /** The length of the leading run of characters other than '/'. */
  function SegmentRun(s: string): (n: nat)
    ensures n <= |s|
    ensures forall i :: 0 <= i < n ==> s[i] != '/'
    ensures n == |s| || s[n] == '/'
  {
    if s != [] && s[0] != '/' then 1 + SegmentRun(s[1..]) else 0
  }

  /** The slug `([^/]+)` of a path matching `^\/book\/[^/]+`, if it does. */
  function BookSlug(d: string): (r: Option<string>)
    ensures r.Some? <==> StartsWith(d, BookPrefix) && |d| > |BookPrefix| && d[|BookPrefix|] != '/'
    ensures r.Some? ==> var slug := r.value;
      slug != [] && (forall i :: 0 <= i < |slug| ==> slug[i] != '/') &&
      StartsWith(d, BookPrefix + slug) &&
      (|d| == |BookPrefix| + |slug| || d[|BookPrefix| + |slug|] == '/')
  {
    if StartsWith(d, BookPrefix) && |d| > |BookPrefix| && d[|BookPrefix|] != '/' then
      var rest := d[|BookPrefix|..];
      var n := SegmentRun(rest);
      assert d[..|BookPrefix| + n] == BookPrefix + rest[..n];
      Some(rest[..n])
    else None
  }

  function IsBookHit(decode: Decoder): Hit -> bool
  {
    (h: Hit) => h.path != "" && decode(h.path).Some? && BookSlug(decode(h.path).value).Some?
  }

  /** What one book-page hit contributes: its slug, whether it is the
      book's own page, the title it would give the book, and its count. */
  datatype Visit = Visit(slug: string, exact: bool, name: string, count: int)

  function VisitOf(decode: Decoder): Hit -> Visit
  {
    (h: Hit) =>
      var d := Decoded(decode, h.path);
      var slug := if BookSlug(d).Some? then BookSlug(d).value else "";
      Visit(slug, d == BookPrefix + slug, if h.title != "" then h.title else slug, h.count)
  }

  /** The visits of the hits on book pages, in input order. */
  function Visits(hits: seq<Hit>, decode: Decoder): (r: seq<Visit>)
    ensures forall i :: 0 <= i < |r| ==> r[i].name != ""
  {
    var books := Filter(hits, IsBookHit(decode));
    var r := Map(books, VisitOf(decode));
    assert forall i :: 0 <= i < |r| ==> r[i].slug != "" by {
      forall i | 0 <= i < |r| ensures r[i].slug != "" {
        assert IsBookHit(decode)(books[i]);
      }
    }
    r
  }

  // ---------------------------------------------------------------------
  // The book table (`bookMap`, as an association list in insertion order)

  /** The position of `slug` in the table, or |table| when it has none. */
  function FindSlug(table: seq<BookStat>, slug: string): (k: nat)
    ensures k <= |table|
    ensures k < |table| ==> table[k].slug == slug
    ensures k == |table| <==> forall i :: 0 <= i < |table| ==> table[i].slug != slug
  {
    if table == [] then 0
    else if table[0].slug == slug then 0
    else
      var k := 1 + FindSlug(table[1..], slug);
      assert forall i :: 1 <= i < |table| ==> table[i] == table[1..][i - 1];
      k
  }

  /** One pass of the forEach body: create the book's entry when it is new,
      add the count, and set the title when it is unset or the hit is the
      book's own page. */
  function Record(table: seq<BookStat>, v: Visit): seq<BookStat>
  {
    var k := FindSlug(table, v.slug);
    var entry := if k < |table| then table[k] else BookStat(v.slug, "", 0);
    var updated := BookStat(v.slug, if entry.title == "" || v.exact then v.name else entry.title, entry.count + v.count);
    if k < |table| then table[k := updated] else table + [updated]
  }

  function BookTable(vs: seq<Visit>): seq<BookStat>
  {
    if vs == [] then [] else Record(BookTable(vs[..|vs| - 1]), vs[|vs| - 1])
  }

  /** The bookMap forEach, over the hits on book pages. */
  method AggregateBooks(hits: seq<Hit>, decode: Decoder) returns (books: seq<BookStat>)
    ensures books == BookTable(Visits(hits, decode))
  {
    var bookHits := Filter(hits, IsBookHit(decode));
    ghost var vs := Visits(hits, decode);
    books := [];
    for i := 0 to |bookHits|
      invariant books == BookTable(vs[..i])
    {
      books := RecordHit(books, bookHits[i], decode);
      assert vs[..i + 1][..i] == vs[..i];
    }
    TakeAll(vs);
  }

  /** The forEach body for one hit on a book page. */
  method RecordHit(books: seq<BookStat>, h: Hit, decode: Decoder) returns (r: seq<BookStat>)
    requires IsBookHit(decode)(h)
    ensures r == Record(books, VisitOf(decode)(h))
  {
    var decoded := Decoded(decode, h.path);
    var slug := BookSlug(decoded).value;
    r := books;
    var k := FindSlug(r, slug);
    if k == |r| {
      r := r + [BookStat(slug, "", 0)];
    }
    var entry := r[k];
    var title := entry.title;
    if title == "" || decoded == BookPrefix + slug {
      title := if h.title != "" then h.title else slug;
    }
    r := r[k := BookStat(slug, title, entry.count + h.count)];
  }

  // Reference definitions of a book's entry, read off the visits directly.

  function Slugs(table: seq<BookStat>): seq<string>
  {
    Map(table, (b: BookStat) => b.slug)
  }

  function VisitSlugs(vs: seq<Visit>): seq<string>
  {
    Map(vs, (v: Visit) => v.slug)
  }

  /** The total count of the visits to `slug`. */
  function SumFor(vs: seq<Visit>, slug: string): int
  {
    if vs == [] then 0
    else SumFor(vs[..|vs| - 1], slug) + (if vs[|vs| - 1].slug == slug then vs[|vs| - 1].count else 0)
  }

  /** The name of the first visit to `slug`. */
  function FirstName(vs: seq<Visit>, slug: string): Option<string>
  {
    if vs == [] then None
    else if FirstName(vs[..|vs| - 1], slug).Some? then FirstName(vs[..|vs| - 1], slug)
    else if vs[|vs| - 1].slug == slug then Some(vs[|vs| - 1].name)
    else None
  }

  /** The name of the last visit to the book's own page. */
  function LastExactName(vs: seq<Visit>, slug: string): Option<string>
  {
    if vs == [] then None
    else if vs[|vs| - 1].slug == slug && vs[|vs| - 1].exact then Some(vs[|vs| - 1].name)
    else LastExactName(vs[..|vs| - 1], slug)
  }

  /** The title a book ends up with: that of the last hit on its own page,
      else that of its first hit. */
  function TitleFor(vs: seq<Visit>, slug: string): string
  {
    if LastExactName(vs, slug).Some? then LastExactName(vs, slug).value
    else if FirstName(vs, slug).Some? then FirstName(vs, slug).value
    else ""
  }

  lemma {:induction false} FirstNameSeen(vs: seq<Visit>, slug: string)
    ensures FirstName(vs, slug).Some? <==> slug in VisitSlugs(vs)
    ensures FirstName(vs, slug).Some? ==> FirstName(vs, slug).value in Map(vs, (v: Visit) => v.name)
    ensures LastExactName(vs, slug).Some? ==> FirstName(vs, slug).Some?
  {
    if vs != [] {
      var init := vs[..|vs| - 1];
      FirstNameSeen(init, slug);
      assert VisitSlugs(vs) == VisitSlugs(init) + [vs[|vs| - 1].slug];
      assert Map(vs, (v: Visit) => v.name) == Map(init, (v: Visit) => v.name) + [vs[|vs| - 1].name];
    }
  }

  /** The book table has one entry per slug, in order of first visit; each
      entry's count is the sum of its visits' counts and its title is that
      of the last visit to the book's own page, else that of the first. */
  lemma {:induction false} BookTableFacts(vs: seq<Visit>)
    requires forall i :: 0 <= i < |vs| ==> vs[i].name != ""
    ensures var table := BookTable(vs);
      Slugs(table) == Distinct(VisitSlugs(vs)) &&
      forall i :: 0 <= i < |table| ==>
        table[i].count == SumFor(vs, table[i].slug) &&
        table[i].title == TitleFor(vs, table[i].slug) && table[i].title != ""
  {
    if vs != [] {
      var init, v := vs[..|vs| - 1], vs[|vs| - 1];
      BookTableFacts(init);
      assert init + [v] == vs;
      RecordStep(BookTable(init), init, v);
    }
  }

  predicate TableOf(table: seq<BookStat>, vs: seq<Visit>)
  {
    Slugs(table) == Distinct(VisitSlugs(vs)) &&
    forall i :: 0 <= i < |table| ==>
      table[i].count == SumFor(vs, table[i].slug) &&
      table[i].title == TitleFor(vs, table[i].slug) && table[i].title != ""
  }

  lemma RecordStep(table: seq<BookStat>, vs: seq<Visit>, v: Visit)
    requires TableOf(table, vs) && v.name != ""
    ensures TableOf(Record(table, v), vs + [v])
  {
    RecordSlugs(table, vs, v);
    var next := Record(table, v);
    forall i | 0 <= i < |next|
      ensures next[i].count == SumFor(vs + [v], next[i].slug)
      ensures next[i].title == TitleFor(vs + [v], next[i].slug) && next[i].title != ""
    {
      RecordEntryAt(table, vs, v, i);
    }
  }

  /** The slugs of the table, one visit later. */
  lemma RecordSlugs(table: seq<BookStat>, vs: seq<Visit>, v: Visit)
    requires Slugs(table) == Distinct(VisitSlugs(vs))
    ensures Slugs(Record(table, v)) == Distinct(VisitSlugs(vs + [v]))
  {
    var sl := VisitSlugs(vs + [v]);
    assert Distinct(sl) == if v.slug in Slugs(table) then Slugs(table) else Slugs(table) + [v.slug] by {
      assert sl == VisitSlugs(vs) + [v.slug];
      assert sl[..|sl| - 1] == VisitSlugs(vs);
    }
    var k := FindSlug(table, v.slug);
    if k < |table| {
      assert Slugs(Record(table, v)) == Slugs(table) by {
        assert Slugs(table)[k] == v.slug;
      }
    } else {
      SlugsAbsent(table, v.slug);
      assert Slugs(Record(table, v)) == Slugs(table) + [v.slug];
    }
  }

  /** Entry `i` of the table, one visit later. */
  lemma RecordEntryAt(table: seq<BookStat>, vs: seq<Visit>, v: Visit, i: nat)
    requires TableOf(table, vs) && v.name != ""
    requires i < |Record(table, v)|
    ensures var e := Record(table, v)[i];
      e.count == SumFor(vs + [v], e.slug) && e.title == TitleFor(vs + [v], e.slug) && e.title != ""
  {
    var next := Record(table, v);
    if next[i].slug == v.slug {
      RecordedEntry(table, vs, v, i);
    } else {
      var k := FindSlug(table, v.slug);
      assert i < |table| && next[i] == table[i];
      VisitStep(vs, v, next[i].slug);
    }
  }

  lemma SlugsAbsent(table: seq<BookStat>, slug: string)
    requires forall i :: 0 <= i < |table| ==> table[i].slug != slug
    ensures slug !in Slugs(table)
  {
    assert forall j :: 0 <= j < |table| ==> Slugs(table)[j] != slug;
  }

  /** The reference definitions, one visit later. */
  lemma VisitStep(vs: seq<Visit>, v: Visit, slug: string)
    ensures SumFor(vs + [v], slug) == SumFor(vs, slug) + (if v.slug == slug then v.count else 0)
    ensures LastExactName(vs + [v], slug) ==
      if v.slug == slug && v.exact then Some(v.name) else LastExactName(vs, slug)
    ensures FirstName(vs + [v], slug) ==
      if FirstName(vs, slug).Some? then FirstName(vs, slug)
      else if v.slug == slug then Some(v.name) else None
  {
    assert (vs + [v])[..|vs|] == vs;
  }

  /** The entry of the visited book after the visit. */
  lemma RecordedEntry(table: seq<BookStat>, vs: seq<Visit>, v: Visit, i: nat)
    requires TableOf(table, vs) && v.name != ""
    requires i < |Record(table, v)| && Record(table, v)[i].slug == v.slug
    ensures var e := Record(table, v)[i];
      e.count == SumFor(vs + [v], v.slug) && e.title == TitleFor(vs + [v], v.slug) && e.title != ""
  {
    VisitStep(vs, v, v.slug);
    FirstNameSeen(vs, v.slug);
    var k := FindSlug(table, v.slug);
    if k < |table| {
      assert i == k by {
        if i < |table| { DistinctSlugs(table, vs, i, k); }
      }
      assert v.slug in Slugs(table) by { assert Slugs(table)[k] == v.slug; }
      var entry := table[k];
      assert entry.title == TitleFor(vs, v.slug) && entry.title != "";
      assert Record(table, v)[i] == BookStat(v.slug, if v.exact then v.name else entry.title, entry.count + v.count);
    } else {
      SlugsAbsent(table, v.slug);
      SumForUnseen(vs, v.slug);
      assert i == |table|;
      assert Record(table, v)[i] == BookStat(v.slug, v.name, v.count);
    }
  }

  lemma DistinctSlugs(table: seq<BookStat>, vs: seq<Visit>, i: nat, k: nat)
    requires Slugs(table) == Distinct(VisitSlugs(vs))
    requires i < |table| && k < |table| && table[i].slug == table[k].slug
    ensures i == k
  {
    assert Slugs(table)[i] == table[i].slug && Slugs(table)[k] == table[k].slug;
  }

  lemma {:induction false} SumForUnseen(vs: seq<Visit>, slug: string)
    requires slug !in VisitSlugs(vs)
    ensures SumFor(vs, slug) == 0
  {
    if vs != [] {
      var init := vs[..|vs| - 1];
      assert VisitSlugs(vs) == VisitSlugs(init) + [vs[|vs| - 1].slug];
      SumForUnseen(init, slug);
    }
  }

  // ---------------------------------------------------------------------
  // Top books

  function NegCount(): BookStat -> int
  {
    (b: BookStat) => -b.count
  }

  /** `Object.values(bookMap).sort((a, b) => b.count - a.count).slice(0, 3)` */
  function TopBooks(table: seq<BookStat>): seq<BookStat>
  {
    Take(SortBy(table, NegCount()), MaxBooks)
  }

  /** At most three books, in non-increasing count order, each from the
      table, and no book left out has a larger count than one shown. */
  lemma TopBooksFacts(table: seq<BookStat>)
    ensures var r := TopBooks(table);
      |r| == (if |table| < MaxBooks then |table| else MaxBooks) &&
      (forall i, j :: 0 <= i < j < |r| ==> r[i].count >= r[j].count) &&
      multiset(r) <= multiset(table) &&
      forall b, i :: b in multiset(table) - multiset(r) && 0 <= i < |r| ==> b.count <= r[i].count
  {
    var sorted := SortBy(table, NegCount());
    SortByFacts(table, NegCount());
    TakeOfSorted(sorted, table);
  }

  lemma TakeOfSorted(sorted: seq<BookStat>, table: seq<BookStat>)
    requires SortedBy(sorted, NegCount()) && multiset(sorted) == multiset(table)
    ensures var r := Take(sorted, MaxBooks);
      |r| == (if |table| < MaxBooks then |table| else MaxBooks) &&
      (forall i, j :: 0 <= i < j < |r| ==> r[i].count >= r[j].count) &&
      multiset(r) <= multiset(table) &&
      forall b, i :: b in multiset(table) - multiset(r) && 0 <= i < |r| ==> b.count <= r[i].count
  {
    var r := Take(sorted, MaxBooks);
    assert |sorted| == |table| by {
      assert |multiset(sorted)| == |multiset(table)|;
    }
    var rest := sorted[|r|..];
    assert multiset(table) == multiset(r) + multiset(rest) by {
      assert sorted == r + rest;
    }
    TakeOrdered(sorted, |r|);
    TakeDominates(sorted, |r|);
  }

  /** A prefix of a list sorted by descending count is in descending count order. */
  lemma TakeOrdered(sorted: seq<BookStat>, n: nat)
    requires SortedBy(sorted, NegCount()) && n <= |sorted|
    ensures forall i, j :: 0 <= i < j < n ==> sorted[..n][i].count >= sorted[..n][j].count
  {
    forall i, j | 0 <= i < j < n ensures sorted[i].count >= sorted[j].count {
      assert NegCount()(sorted[i]) <= NegCount()(sorted[j]);
    }
  }

  /** Every entry after a prefix of a list sorted by descending count has at
      most the count of any entry in the prefix. */
  lemma TakeDominates(sorted: seq<BookStat>, n: nat)
    requires SortedBy(sorted, NegCount()) && n <= |sorted|
    ensures forall b, i :: b in multiset(sorted[n..]) && 0 <= i < n ==> b.count <= sorted[..n][i].count
  {
    forall b, i | b in multiset(sorted[n..]) && 0 <= i < n ensures b.count <= sorted[i].count {
      var j :| 0 <= j < |sorted[n..]| && sorted[n..][j] == b;
      assert sorted[n + j] == b;
      assert NegCount()(sorted[i]) <= NegCount()(sorted[n + j]);
    }
  }

  // ---------------------------------------------------------------------
  // The handler

  /** The three GoatCounter answers; None for a non-ok one (or one without
      the field read). */
  datatype Answers = Answers(recentStats: Option<seq<Stat>>, allTimeTotal: Option<int>, hits: Option<seq<Hit>>)

  /** How the requests ended: one of them threw, or all answered. */
  datatype Outcome = Threw | Answered(answers: Answers)

  predicate AllDecode(hits: seq<Hit>, decode: Decoder)
  {
    forall i :: 0 <= i < |hits| && hits[i].path != "" ==> decode(hits[i].path).Some?
  }

  function HitsOf(a: Answers): seq<Hit>
  {
    if a.hits.Some? then a.hits.value else []
  }

  function Handle(hasToken: bool, outcome: Outcome, today: string, yesterday: string, decode: Decoder): Response
  {
    if !hasToken || outcome.Threw? || !AllDecode(HitsOf(outcome.answers), decode) then EmptyResponse
    else
      var a := outcome.answers;
      var stats := if a.recentStats.Some? then a.recentStats.value else [];
      var total := if a.allTimeTotal.Some? then a.allTimeTotal.value else 0;
      Response(
        Visitors(DailyOf(stats, today), DailyOf(stats, yesterday), total),
        TopPosts(HitsOf(a), decode),
        TopBooks(BookTable(Visits(HitsOf(a), decode))))
  }

  /** The handler, with the book table built by the forEach. */
  method HandleRequest(hasToken: bool, outcome: Outcome, today: string, yesterday: string, decode: Decoder)
    returns (r: Response)
    ensures r == Handle(hasToken, outcome, today, yesterday, decode)
  {
    if !hasToken || outcome.Threw? || !AllDecode(HitsOf(outcome.answers), decode) {
      return EmptyResponse;
    }
    var a := outcome.answers;
    var stats := if a.recentStats.Some? then a.recentStats.value else [];
    var total := if a.allTimeTotal.Some? then a.allTimeTotal.value else 0;
    var books := AggregateBooks(HitsOf(a), decode);
    r := Response(
      Visitors(DailyOf(stats, today), DailyOf(stats, yesterday), total),
      TopPosts(HitsOf(a), decode),
      TopBooks(books));
  }

  /** Without a token, when a request throws or a path cannot be decoded,
      the answer is zero visitors and empty lists; a failed request counts
      as no data. */
  lemma HandleFailures(hasToken: bool, outcome: Outcome, today: string, yesterday: string, decode: Decoder)
    ensures !hasToken || outcome.Threw? ==> Handle(hasToken, outcome, today, yesterday, decode) == EmptyResponse
    ensures (outcome.Answered? && !AllDecode(HitsOf(outcome.answers), decode)) ==>
      Handle(hasToken, outcome, today, yesterday, decode) == EmptyResponse
    ensures (hasToken && outcome == Answered(Answers(None, None, None))) ==>
      Handle(hasToken, outcome, today, yesterday, decode) == EmptyResponse
  {
  }

  /** Every book listed has a count equal to the sum of the counts of all
      hits under /book/<slug>, and at most three are listed. */
  lemma HandleBooks(hasToken: bool, outcome: Outcome, today: string, yesterday: string, decode: Decoder)
    requires hasToken && outcome.Answered? && AllDecode(HitsOf(outcome.answers), decode)
    ensures var r := Handle(hasToken, outcome, today, yesterday, decode);
      var vs := Visits(HitsOf(outcome.answers), decode);
      |r.topBooks| <= MaxBooks && |r.topPosts| <= MaxPosts &&
      forall i :: 0 <= i < |r.topBooks| ==>
        r.topBooks[i].count == SumFor(vs, r.topBooks[i].slug) &&
        r.topBooks[i].title == TitleFor(vs, r.topBooks[i].slug)
  {
    var hits := HitsOf(outcome.answers);
    var vs := Visits(hits, decode);
    var r := Handle(hasToken, outcome, today, yesterday, decode);
    assert r.topBooks == TopBooks(BookTable(vs)) && r.topPosts == TopPosts(hits, decode);
    TopPostsFacts(hits, decode);
    BookTableFacts(vs);
    TopBooksOfTable(BookTable(vs), vs);
  }

  /** The books shown are entries of the table, so they keep its sums and titles. */
  lemma TopBooksOfTable(table: seq<BookStat>, vs: seq<Visit>)
    requires TableOf(table, vs)
    ensures var r := TopBooks(table);
      |r| <= MaxBooks &&
      forall i :: 0 <= i < |r| ==> r[i].count == SumFor(vs, r[i].slug) && r[i].title == TitleFor(vs, r[i].slug)
  {
    TopBooksFacts(table);
    var r := TopBooks(table);
    forall i | 0 <= i < |r|
      ensures r[i].count == SumFor(vs, r[i].slug) && r[i].title == TitleFor(vs, r[i].slug)
    {
      assert r[i] in multiset(table);
      var j :| 0 <= j < |table| && table[j] == r[i];
    }
  }
}
