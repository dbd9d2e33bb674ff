/** A book's detail page data (fetchBookDetail in src/api/github.js): its
    cover, the top-level chapters sorted by their number, and the chapters of
    the sub-directories grouped under each directory's display name. */
module BookDetail {
  import opened Common
  import opened GitNames
  import opened BookListing

  /** A chapter record; `folder` is "" for a top-level chapter (the source's
      `null`) and the directory's display name otherwise. */
  datatype Chapter = Chapter(name: string, fileName: string, path: string, order: int, folder: string)

  /** One entry of `folderGroups`: a display name and its chapters. */
  type Group = (string, seq<Chapter>)

  datatype Detail = Detail(
    slug: string,
    cover: string,
    rootChapters: seq<Chapter>,
    folderGroups: seq<Group>,
    totalChapters: nat)

  /** Where a chapter file lives relative to the book directory. */
  function FileLocation(f: ChapterFile): string
  {
    if f.folder == "" then f.fileName else f.folder + "/" + f.fileName
  }

  /** The chapter record built for a chapter file. */
  function ChapterOf(f: ChapterFile): (c: Chapter)
    ensures c.folder == "" <==> f.folder == ""
  {
    var stem := StripMd(f.fileName);
    if f.folder == "" then
      Chapter(FormatChapterName(f.fileName), f.fileName, stem, GetChapterOrder(f.fileName), "")
    else
      Chapter(FormatChapterName(f.fileName), f.fileName, f.folder + "/" + stem,
              GetChapterOrder(f.fileName), TitleCase(f.folder))
  }

  function Chapters(files: seq<ChapterFile>): seq<Chapter>
  {
    seq(|files|, i requires 0 <= i < |files| => ChapterOf(files[i]))
  }

  predicate IsRootChapter(c: Chapter) { c.folder == "" }

  predicate InAFolder(c: Chapter) { c.folder != "" }

  function Order(c: Chapter): int { c.order }

  function InFolder(k: string): Chapter -> bool
  {
    (c: Chapter) => c.folder == k
  }

  // ---------------------------------------------------------------------
  // Grouping by folder

  /** The position of the group named `k`, if there is one. */
  function KeyIndex(groups: seq<Group>, k: string): (r: Option<nat>)
    ensures r.Some? ==> r.value < |groups| && groups[r.value].0 == k
    ensures r.None? ==> forall i :: 0 <= i < |groups| ==> groups[i].0 != k
  {
    if groups == [] then None
    else if groups[0].0 == k then Some(0)
    else match KeyIndex(groups[1..], k)
      case None => None
      case Some(j) => Some(j + 1)
  }

  /** Appends a chapter to its folder's group, opening the group on first use. */
  function AddToGroup(groups: seq<Group>, c: Chapter): seq<Group>
  {
    match KeyIndex(groups, c.folder)
    case None => groups + [(c.folder, [c])]
    case Some(j) => groups[j := (c.folder, groups[j].1 + [c])]
  }

  function GroupsOf(s: seq<Chapter>): seq<Group>
  {
    if s == [] then [] else AddToGroup(GroupsOf(s[..|s| - 1]), s[|s| - 1])
  }

  /** The `forEach` that fills `folderGroups`. */
  method GroupByFolder(sorted: seq<Chapter>) returns (groups: seq<Group>)
    ensures groups == GroupsOf(sorted)
  {
    groups := [];
    for i := 0 to |sorted|
      invariant groups == GroupsOf(sorted[..i])
    {
      assert sorted[..i + 1][..i] == sorted[..i];
      var c := sorted[i];
      assert GroupsOf(sorted[..i + 1]) == AddToGroup(groups, c);
      var at := KeyIndex(groups, c.folder);
      if at.None? {
        groups := groups + [(c.folder, [])];
        at := Some(|groups| - 1);
        assert [] + [c] == [c];
      }
      groups := groups[at.value := (c.folder, groups[at.value].1 + [c])];
    }
    assert sorted[..|sorted|] == sorted;
  }

  // ---------------------------------------------------------------------
  // The detail

  function DetailOf(slug: string, entries: seq<Entry>, listings: map<string, seq<Entry>>,
                    utf8: seq<Byte> -> string): Detail
  {
    var chs := Chapters(ChapterFiles(entries, listings, utf8));
    Detail(slug, FindCover(DecodedEntries(entries, utf8)),
           SortBy(Filter(chs, IsRootChapter), Order),
           GroupsOf(SortBy(Filter(chs, InAFolder), Order)),
           |chs|)
  }

  /** Builds the detail from the book directory's listing and the listings
      of its sub-directories (absent when the fetch failed). */
  method FetchBookDetail(slug: string, entries: seq<Entry>, listings: map<string, seq<Entry>>,
                         utf8: seq<Byte> -> string) returns (d: Detail)
    ensures d == DetailOf(slug, entries, listings, utf8)
  {
    var cover := FindCover(DecodedEntries(entries, utf8));
    var files := ListChapterFiles(entries, listings, utf8);
    var chapters := Chapters(files);
    var rootChapters := SortBy(Filter(chapters, IsRootChapter), Order);
    var folderGroups := GroupByFolder(SortBy(Filter(chapters, InAFolder), Order));
    d := Detail(slug, cover, rootChapters, folderGroups, |chapters|);
  }

  // ---------------------------------------------------------------------
  // Properties

  /** A chapter's path, with ".md" put back, is where its file lives; this is
      what the reading page fetches. */
  lemma ChapterPathLocatesFile(f: ChapterFile)
    requires EndsWith(f.fileName, ".md")
    ensures ChapterOf(f).path + ".md" == FileLocation(f)
  {
    var stem := StripMd(f.fileName);
    if f.folder != "" {
      assert f.folder + "/" + stem + ".md" == f.folder + "/" + (stem + ".md");
    }
  }

  lemma {:induction false} GroupsOfFilterStep(s: seq<Chapter>, k: string)
    requires s != []
    ensures Filter(s, InFolder(k)) ==
      Filter(s[..|s| - 1], InFolder(k)) + (if s[|s| - 1].folder == k then [s[|s| - 1]] else [])
  {
    var init, x := s[..|s| - 1], s[|s| - 1];
    assert s == init + [x];
    FilterAppend(init, [x], InFolder(k));
    assert Filter([x], InFolder(k)) == (if x.folder == k then [x] else []) + Filter([x][1..], InFolder(k));
  }

  /** Adding a chapter keeps the group names distinct and gives its folder a group. */
  lemma AddToGroupKeys(g0: seq<Group>, x: Chapter)
    requires forall i, j :: 0 <= i < j < |g0| ==> g0[i].0 != g0[j].0
    ensures var g := AddToGroup(g0, x);
      (forall i, j :: 0 <= i < j < |g| ==> g[i].0 != g[j].0) &&
      |g0| <= |g| && (forall i :: 0 <= i < |g0| ==> g[i].0 == g0[i].0) &&
      KeyIndex(g, x.folder).Some?
  {
    var g := AddToGroup(g0, x);
    match KeyIndex(g0, x.folder)
    case None =>
      assert g[|g0|].0 == x.folder;
    case Some(j) =>
      assert g[j].0 == x.folder;
  }

  /** The group names are distinct and every chapter's folder has a group. */
  lemma {:induction false} GroupsOfKeys(s: seq<Chapter>)
    ensures var g := GroupsOf(s);
      forall i, j :: 0 <= i < j < |g| ==> g[i].0 != g[j].0
    ensures var g := GroupsOf(s);
      forall c :: c in s ==> KeyIndex(g, c.folder).Some?
  {
    if s != [] {
      var init, x := s[..|s| - 1], s[|s| - 1];
      GroupsOfKeys(init);
      var g0 := GroupsOf(init);
      var g := GroupsOf(s);
      AddToGroupKeys(g0, x);
      forall c | c in s ensures KeyIndex(g, c.folder).Some? {
        if c != x {
          assert c in init;
          var j := KeyIndex(g0, c.folder).value;
          assert g[j].0 == c.folder;
        }
      }
    }
  }

  /** Each group holds exactly the chapters of its name, in their order. */
  lemma {:induction false} GroupsOfContents(s: seq<Chapter>)
    ensures var g := GroupsOf(s);
      forall i :: 0 <= i < |g| ==> g[i].1 == Filter(s, InFolder(g[i].0)) && g[i].1 != []
  {
    if s != [] {
      var init, x := s[..|s| - 1], s[|s| - 1];
      GroupsOfContents(init);
      GroupsOfKeys(init);
      var g0 := GroupsOf(init);
      var g := GroupsOf(s);
      assert g == AddToGroup(g0, x);
      forall i | 0 <= i < |g| ensures g[i].1 == Filter(s, InFolder(g[i].0)) && g[i].1 != [] {
        GroupsOfFilterStep(s, g[i].0);
        if KeyIndex(g0, x.folder).None? && i == |g0| {
          forall c | c in init ensures c.folder != x.folder {
            assert KeyIndex(g0, c.folder).Some?;
          }
          FilterNone(init, InFolder(x.folder));
        }
      }
    }
  }

  /** The groups have distinct names; each holds exactly the chapters of that
      name, in their sorted order; every chapter has its group. */
  lemma GroupsOfFacts(s: seq<Chapter>)
    ensures var g := GroupsOf(s);
      forall i, j :: 0 <= i < j < |g| ==> g[i].0 != g[j].0
    ensures var g := GroupsOf(s);
      forall i :: 0 <= i < |g| ==> g[i].1 == Filter(s, InFolder(g[i].0)) && g[i].1 != []
    ensures var g := GroupsOf(s);
      forall c :: c in s ==> KeyIndex(g, c.folder).Some?
  {
    GroupsOfKeys(s);
    GroupsOfContents(s);
  }

  /** The top-level chapters: exactly those outside a folder, ordered by
      number, with chapters of equal number in listing order. */
  lemma RootChaptersFacts(slug: string, entries: seq<Entry>, listings: map<string, seq<Entry>>,
                          utf8: seq<Byte> -> string)
    ensures var d := DetailOf(slug, entries, listings, utf8);
      var chs := Chapters(ChapterFiles(entries, listings, utf8));
      SortedBy(d.rootChapters, Order) &&
      multiset(d.rootChapters) == multiset(Filter(chs, IsRootChapter)) &&
      (forall c :: c in d.rootChapters ==> c.folder == "") &&
      forall k :: WithKey(d.rootChapters, Order, k) == WithKey(Filter(chs, IsRootChapter), Order, k)
  {
    var chs := Chapters(ChapterFiles(entries, listings, utf8));
    SortByFacts(Filter(chs, IsRootChapter), Order);
    var r := SortBy(Filter(chs, IsRootChapter), Order);
    forall c | c in r ensures c.folder == "" {
      assert c in multiset(r);
    }
  }

  /** Each folder group: a distinct display name, holding every chapter of
      that name and nothing else, ordered by number. */
  lemma FolderGroupsFacts(slug: string, entries: seq<Entry>, listings: map<string, seq<Entry>>,
                          utf8: seq<Byte> -> string)
    ensures var g := DetailOf(slug, entries, listings, utf8).folderGroups;
      var chs := Chapters(ChapterFiles(entries, listings, utf8));
      (forall i, j :: 0 <= i < j < |g| ==> g[i].0 != g[j].0) &&
      (forall i :: 0 <= i < |g| ==>
        g[i].0 != "" && g[i].1 != [] && SortedBy(g[i].1, Order) &&
        multiset(g[i].1) == multiset(Filter(chs, InFolder(g[i].0)))) &&
      forall c :: c in chs && c.folder != "" ==> KeyIndex(g, c.folder).Some?
  {
    var chs := Chapters(ChapterFiles(entries, listings, utf8));
    var folderChs := Filter(chs, InAFolder);
    var sorted := SortBy(folderChs, Order);
    SortByFacts(folderChs, Order);
    GroupsOfFacts(sorted);
    var g := GroupsOf(sorted);
    forall i | 0 <= i < |g|
      ensures g[i].0 != "" && SortedBy(g[i].1, Order)
      ensures multiset(g[i].1) == multiset(Filter(chs, InFolder(g[i].0)))
    {
      var k := g[i].0;
      FilterSorted(sorted, InFolder(k), Order);
      FilterPermutation(sorted, folderChs, InFolder(k));
      var c := g[i].1[0];
      assert c in sorted && c.folder == k;
      assert c in multiset(sorted);
      if k != "" {
        FilterOfFilter(chs, k);
      }
    }
    forall c | c in chs && c.folder != "" ensures KeyIndex(g, c.folder).Some? {
      assert c in folderChs;
      assert c in multiset(sorted);
    }
  }

  /** Keeping the folder chapters and then those of one non-empty name is
      keeping those of that name. */
  lemma {:induction false} FilterOfFilter(s: seq<Chapter>, k: string)
    requires k != ""
    ensures Filter(Filter(s, InAFolder), InFolder(k)) == Filter(s, InFolder(k))
  {
    if s != [] {
      FilterOfFilter(s[1..], k);
      var h := if InAFolder(s[0]) then [s[0]] else [];
      FilterAppend(h, Filter(s[1..], InAFolder), InFolder(k));
    }
  }

  /** Every chapter is either a top-level chapter or in some group. */
  lemma TotalChaptersSplit(slug: string, entries: seq<Entry>, listings: map<string, seq<Entry>>,
                           utf8: seq<Byte> -> string)
    ensures var d := DetailOf(slug, entries, listings, utf8);
      var chs := Chapters(ChapterFiles(entries, listings, utf8));
      d.totalChapters == |d.rootChapters| + |Filter(chs, InAFolder)|
  {
    var chs := Chapters(ChapterFiles(entries, listings, utf8));
    SortByFacts(Filter(chs, IsRootChapter), Order);
    FilterSplitCount(chs, IsRootChapter, InAFolder);
  }
}
