/** The dev posts (fetchDevPostList and fetchDevPost in src/api/github.js).
    A post is either a flat file `dev/{category}/{name}.md` or a folder
    `dev/{category}/{name}/` holding a markdown file and perhaps a cover
    image. Directory listings, keyed by their repository path, and file
    contents, keyed by file path, are inputs; a key is absent when that fetch
    failed. */
module DevPosts {
  import opened Common
  import opened GitNames
  import opened Frontmatter

  const DevPath: string := "dev"

  datatype Post = Post(
    slug: string,
    category: string,
    title: string,
    date: string,
    tags: seq<string>,
    description: string,
    cover: string)

  /** A post as its own page shows it. */
  datatype FullPost = FullPost(post: Post, content: string, createdAt: string, updatedAt: string)

  // ---------------------------------------------------------------------
  // Fields from the front matter

  /** `meta[key] || fallback` for a text field: a missing or empty value
      gives the fallback. */
  function TextField(meta: Meta, key: string, fallback: string): string
  {
    if key in meta && meta[key].Text? && meta[key].text != "" then meta[key].text else fallback
  }

  /** `Array.isArray(meta.tags) ? meta.tags : []` */
  function TagsOf(meta: Meta): seq<string>
  {
    if "tags" in meta && meta["tags"].List? then meta["tags"].items else []
  }

  function PostFrom(slug: string, category: string, meta: Meta, cover: string): Post
  {
    Post(slug, category, TextField(meta, "title", slug), TextField(meta, "date", ""),
         TagsOf(meta), TextField(meta, "description", ""), cover)
  }

  function MetaOfFile(content: string): Meta
  {
    FrontmatterOf(content).0
  }

  // ---------------------------------------------------------------------
  // Paths and lookups

  function EntryPath(category: string, name: string): string
  {
    DevPath + "/" + category + "/" + name
  }

  predicate IsMarkdown(e: Entry) { e.kind == File && EndsWith(e.name, ".md") }

  predicate FirstMarkdownAt(files: seq<Entry>, i: nat)
    requires i < |files|
  {
    IsMarkdown(files[i]) && forall j :: 0 <= j < i ==> !IsMarkdown(files[j])
  }

  /** The first markdown file of a listing. */
  function FindMarkdown(files: seq<Entry>): (r: Option<Entry>)
    ensures r.None? <==> forall i :: 0 <= i < |files| ==> !IsMarkdown(files[i])
    ensures r.Some? ==> exists i :: 0 <= i < |files| && FirstMarkdownAt(files, i) && files[i] == r.value
  {
    if files == [] then None
    else if IsMarkdown(files[0]) then
      assert FirstMarkdownAt(files, 0);
      Some(files[0])
    else
      var r := FindMarkdown(files[1..]);
      if r.Some? then
        var i :| 0 <= i < |files| - 1 && FirstMarkdownAt(files[1..], i) && files[1..][i] == r.value;
        assert FirstMarkdownAt(files, i + 1);
        r
      else r
  }

  // ---------------------------------------------------------------------
  // The post list

  /** The post an entry of a category directory yields, if any: a flat
      markdown file, or a folder whose markdown file could be read. The
      folder's listing is read under decoded names, as fetchDevPost reads it
      (see FolderPostAsWritten for the source's own lookup). */
  function EntryPost(category: string, e: Entry, listings: map<string, seq<Entry>>,
                     files: map<string, string>, utf8: seq<Byte> -> string): Option<Post>
  {
    var name := Decoded(e.name, utf8);
    var path := EntryPath(category, name);
    if e.kind == File && EndsWith(name, ".md") then
      if path in files then Some(PostFrom(StripMd(name), category, MetaOfFile(files[path]), "")) else None
    else if e.kind == Dir && path in listings then
      var folder := DecodedEntries(listings[path], utf8);
      match FindMarkdown(folder)
      case None => None
      case Some(md) =>
        var mdPath := path + "/" + md.name;
        if mdPath in files then Some(PostFrom(name, category, MetaOfFile(files[mdPath]), FindCover(folder)))
        else None
    else None
  }

  function EntryPostOf(category: string, listings: map<string, seq<Entry>>,
                       files: map<string, string>, utf8: seq<Byte> -> string): Entry -> Option<Post>
  {
    (e: Entry) => EntryPost(category, e, listings, files, utf8)
  }

  /** The posts of one entry of the top-level listing: none unless it is a
      directory that could be listed. */
  function CategoryPosts(dir: Entry, listings: map<string, seq<Entry>>, files: map<string, string>,
                         utf8: seq<Byte> -> string): seq<Post>
  {
    var category := Decoded(dir.name, utf8);
    var path := DevPath + "/" + category;
    if dir.kind == Dir && path in listings then
      Collect(listings[path], EntryPostOf(category, listings, files, utf8))
    else []
  }

  function PostsOf(dirs: seq<Entry>, listings: map<string, seq<Entry>>, files: map<string, string>,
                   utf8: seq<Byte> -> string): seq<Post>
  {
    if dirs == [] then []
    else PostsOf(dirs[..|dirs| - 1], listings, files, utf8) + CategoryPosts(dirs[|dirs| - 1], listings, files, utf8)
  }

  lemma PostsOfStep(dirs: seq<Entry>, i: nat, listings: map<string, seq<Entry>>,
                    files: map<string, string>, utf8: seq<Byte> -> string)
    requires i < |dirs|
    ensures PostsOf(dirs[..i + 1], listings, files, utf8) ==
      PostsOf(dirs[..i], listings, files, utf8) + CategoryPosts(dirs[i], listings, files, utf8)
  {
    assert dirs[..i + 1][..i] == dirs[..i];
  }

  /** Every post found, category by category, before sorting. */
  function AllPosts(listings: map<string, seq<Entry>>, files: map<string, string>,
                    utf8: seq<Byte> -> string): seq<Post>
  {
    if DevPath in listings then PostsOf(listings[DevPath], listings, files, utf8) else []
  }

  /** Reads one entry of a category directory. */
  method LoadEntry(category: string, entry: Entry, listings: map<string, seq<Entry>>,
                   files: map<string, string>, utf8: seq<Byte> -> string) returns (post: Option<Post>)
    ensures post == EntryPost(category, entry, listings, files, utf8)
  {
    var entryName := DecodeGitQuotedName(entry.name, utf8);
    var path := EntryPath(category, entryName);
    post := None;
    if entry.kind == File && EndsWith(entryName, ".md") {
      if path in files {
        var meta, _ := ParseFrontmatter(files[path]);
        post := Some(PostFrom(StripMd(entryName), category, meta, ""));
      }
      return;
    }
    if entry.kind == Dir && path in listings {
      var folderFiles := DecodedEntries(listings[path], utf8);
      var mdFile := FindMarkdown(folderFiles);
      if mdFile.None? {
        return;
      }
      var mdPath := path + "/" + mdFile.value.name;
      if mdPath in files {
        var meta, _ := ParseFrontmatter(files[mdPath]);
        var cover := FindCover(folderFiles);
        post := Some(PostFrom(entryName, category, meta, cover));
      }
    }
  }

  /** Reads every entry of one category directory. */
  method LoadCategory(dir: Entry, listings: map<string, seq<Entry>>, files: map<string, string>,
                      utf8: seq<Byte> -> string) returns (posts: seq<Post>)
    ensures posts == CategoryPosts(dir, listings, files, utf8)
  {
    var catName := DecodeGitQuotedName(dir.name, utf8);
    var path := DevPath + "/" + catName;
    posts := [];
    if dir.kind != Dir || path !in listings {
      return;
    }
    var entries := listings[path];
    for i := 0 to |entries|
      invariant posts == Collect(entries[..i], EntryPostOf(catName, listings, files, utf8))
    {
      CollectStep(entries, i, EntryPostOf(catName, listings, files, utf8));
      var post := LoadEntry(catName, entries[i], listings, files, utf8);
      if post.Some? {
        posts := posts + [post.value];
      }
    }
    assert entries[..|entries|] == entries;
  }

  /** Gathers the posts of every category and sorts them, dated posts newest
      first, then undated posts by title. */
  method FetchDevPostList(listings: map<string, seq<Entry>>, files: map<string, string>,
                          utf8: seq<Byte> -> string) returns (posts: seq<Post>)
    ensures posts == SortWith(AllPosts(listings, files, utf8), PostBefore)
  {
    if DevPath !in listings {
      return [];
    }
    var categories := listings[DevPath];
    var found: seq<Post> := [];
    for i := 0 to |categories|
      invariant found == PostsOf(categories[..i], listings, files, utf8)
    {
      PostsOfStep(categories, i, listings, files, utf8);
      var more := LoadCategory(categories[i], listings, files, utf8);
      found := found + more;
    }
    assert categories[..|categories|] == categories;
    posts := SortWith(found, PostBefore);
  }

  // ---------------------------------------------------------------------
  // The list order

  /** The source's comparator: by date, newest first, when both posts are
      dated, and by title otherwise. */
  function CompareAsWritten(a: Post, b: Post): int
  {
    if a.date != "" && b.date != "" then StrCompare(b.date, a.date) else StrCompare(a.title, b.title)
  }

  /** The order the list is sorted in: dated posts first, newest first;
      then undated posts by title. */
  predicate PostBefore(a: Post, b: Post)
  {
    if a.date != "" && b.date != "" then StrLe(b.date, a.date)
    else if a.date != "" then true
    else if b.date != "" then false
    else StrLe(a.title, b.title)
  }

  /** The comparator cannot order these three posts: each comes before the
      next and the last before the first, so the sorted list depends on the
      order the posts were found in. */
  lemma AsWrittenHasCycle()
    ensures var a := Post("a", "c", "z", "2024-02", [], "", "");
      var c := Post("c", "c", "a", "2024-01", [], "", "");
      var b := Post("b", "c", "m", "", [], "", "");
      CompareAsWritten(a, c) < 0 && CompareAsWritten(c, b) < 0 && CompareAsWritten(b, a) < 0
  {
    DatesInOrder("2024-01", "2024-02");
    assert StrCompare("a", "m") < 0 && StrCompare("m", "z") < 0;
  }

  lemma DatesInOrder(d1: string, d2: string)
    requires d1 == "2024-01" && d2 == "2024-02"
    ensures StrCompare(d1, d2) < 0
  {
    var p := "2024-0";
    StrLeSharedPrefix(p, '1', '2');
    assert d1 == p + ['1'] && d2 == p + ['2'];
  }

  lemma PostBeforeTotal(a: Post, b: Post)
    ensures PostBefore(a, b) || PostBefore(b, a)
  {
    StrLeTotal(a.date, b.date);
    StrLeTotal(a.title, b.title);
  }

  lemma PostBeforeTransitive(a: Post, b: Post, c: Post)
    requires PostBefore(a, b) && PostBefore(b, c)
    ensures PostBefore(a, c)
  {
    if a.date != "" && b.date != "" && c.date != "" {
      StrLeTransitive(c.date, b.date, a.date);
    } else if a.date == "" && b.date == "" && c.date == "" {
      StrLeTransitive(a.title, b.title, c.title);
    }
  }

  lemma PostBeforeIsTotalPreorder()
    ensures TotalPreorder(PostBefore)
  {
    forall a, b ensures PostBefore(a, b) || PostBefore(b, a) {
      PostBeforeTotal(a, b);
    }
    forall a, b, c | PostBefore(a, b) && PostBefore(b, c) ensures PostBefore(a, c) {
      PostBeforeTransitive(a, b, c);
    }
  }

  /** Where both posts are dated, or both undated, the order is the source's. */
  lemma PostBeforeAgreesWithSource(a: Post, b: Post)
    requires (a.date != "") == (b.date != "")
    ensures PostBefore(a, b) <==> CompareAsWritten(a, b) <= 0
  {
    StrLeReflexive(a.date);
    StrLeReflexive(a.title);
  }

  /** The list holds every post found, sorted. */
  lemma PostListSorted(listings: map<string, seq<Entry>>, files: map<string, string>, utf8: seq<Byte> -> string)
    ensures var all := AllPosts(listings, files, utf8);
      SortedWith(SortWith(all, PostBefore), PostBefore) &&
      multiset(SortWith(all, PostBefore)) == multiset(all)
  {
    PostBeforeIsTotalPreorder();
    SortWithFacts(AllPosts(listings, files, utf8), PostBefore);
  }

  // ---------------------------------------------------------------------
  // The folder lookup as the source writes it

  /** The source looks for a folder post's markdown file under the listing's
      raw names, and for its cover likewise. */
  function FolderPostAsWritten(category: string, name: string, listing: seq<Entry>,
                               files: map<string, string>, utf8: seq<Byte> -> string): Option<Post>
  {
    var path := EntryPath(category, name);
    match FindMarkdown(listing)
    case None => None
    case Some(md) =>
      var mdPath := path + "/" + Decoded(md.name, utf8);
      if mdPath in files then Some(PostFrom(name, category, MetaOfFile(files[mdPath]), FindCover(listing)))
      else None
  }

  /** The inner text of the example quoted name stands for the UTF-8 bytes
      of its Korean first character followed by ".md". */
  lemma ExampleQuotedBytes()
    ensures QuotedBytes("\\352\\270\\200.md") == [0xEA, 0xB8, 0x80, 46, 109, 100]
  {
    var md := ['.', 'm', 'd'];
    var s1 := ['\\', '2', '0', '0'] + md;
    var s2 := ['\\', '2', '7', '0'] + s1;
    var s3 := ['\\', '3', '5', '2'] + s2;
    MdBytes(md);
    KoreanMdBytes(md, s1, s2, s3);
    QuotedLiteralPieces("\\352\\270\\200.md", md, s1, s2, s3);
  }

  /** The example literal, written as its three escapes and its suffix. */
  lemma QuotedLiteralPieces(lit: string, md: string, s1: string, s2: string, s3: string)
    requires lit == "\\352\\270\\200.md" && md == ['.', 'm', 'd']
    requires s1 == ['\\', '2', '0', '0'] + md && s2 == ['\\', '2', '7', '0'] + s1 && s3 == ['\\', '3', '5', '2'] + s2
    ensures lit == s3
  {
  }

  lemma MdBytes(md: string)
    requires md == ['.', 'm', 'd']
    ensures QuotedBytes(md) == [46, 109, 100]
  {
    PlainStep('d', []);
    PlainStep('m', ['d']);
    PlainStep('.', ['m', 'd']);
    assert md == ['.'] + (['m'] + (['d'] + []));
  }

  lemma KoreanMdBytes(md: string, s1: string, s2: string, s3: string)
    requires QuotedBytes(md) == [46, 109, 100] && s1 == ['\\', '2', '0', '0'] + md
    requires s2 == ['\\', '2', '7', '0'] + s1 && s3 == ['\\', '3', '5', '2'] + s2
    ensures QuotedBytes(s3) == [0xEA, 0xB8, 0x80, 46, 109, 100]
  {
    EscapeStep('2', '0', '0', md, 0x80);
    EscapeStep('2', '7', '0', s1, 0xB8);
    EscapeStep('3', '5', '2', s2, 0xEA);
  }

  lemma EscapeStep(a: char, b: char, c: char, rest: string, v: Byte)
    requires IsOctalDigit(a) && IsOctalDigit(b) && IsOctalDigit(c) && OctalValue(a, b, c) == v as int
    ensures QuotedBytes(['\\', a, b, c] + rest) == [v] + QuotedBytes(rest)
  {
    var s := ['\\', a, b, c] + rest;
    assert EscapeAt(s) && s[4..] == rest;
  }

  lemma PlainStep(c: char, rest: string)
    requires c != '\\' && c as int < 0x1_0000
    ensures QuotedBytes([c] + rest) == [c as int % 256] + QuotedBytes(rest)
  {
    var s := [c] + rest;
    assert !EscapeAt(s) && s[1..] == rest;
    assert CodeUnits(c) == [c as int];
  }

  /** The raw quoted name is not a markdown name; decoded, it is. */
  lemma ExampleQuotedName(utf8: seq<Byte> -> string)
    requires utf8([0xEA, 0xB8, 0x80, 46, 109, 100]) == "\U{AE00}.md"
    ensures !EndsWith("\"\\352\\270\\200.md\"", ".md")
    ensures Decoded("\"\\352\\270\\200.md\"", utf8) == "\U{AE00}.md"
  {
    var raw := "\"\\352\\270\\200.md\"";
    assert raw[|raw| - 1] == '"';
    assert IsQuoted(raw) && Inner(raw) == "\\352\\270\\200.md";
    ExampleQuotedBytes();
  }

  /** A folder whose markdown file has a quoted (non-ASCII) name: the raw
      name ends in a quote, so the source's list skips the post, while the
      post's own page, which decodes the names first, finds it. */
  lemma QuotedMarkdownSkipped(utf8: seq<Byte> -> string, content: string)
    requires utf8([0xEA, 0xB8, 0x80, 46, 109, 100]) == "\U{AE00}.md"
    ensures var quoted := Entry("\"\\352\\270\\200.md\"", File, "");
      var listings := map["dev/c/p" := [quoted]];
      var files := map["dev/c/p/\U{AE00}.md" := content];
      FolderPostAsWritten("c", "p", [quoted], files, utf8).None? &&
      EntryPost("c", Entry("p", Dir, ""), listings, files, utf8).Some?
  {
    var quoted := Entry("\"\\352\\270\\200.md\"", File, "");
    QuotedSkippedAsWritten(utf8, quoted, map["dev/c/p/\U{AE00}.md" := content]);
    QuotedFoundDecoded(utf8, quoted, map["dev/c/p" := [quoted]], map["dev/c/p/\U{AE00}.md" := content]);
  }

  lemma QuotedSkippedAsWritten(utf8: seq<Byte> -> string, quoted: Entry, files: map<string, string>)
    requires quoted == Entry("\"\\352\\270\\200.md\"", File, "")
    ensures FolderPostAsWritten("c", "p", [quoted], files, utf8).None?
  {
    assert quoted.name[|quoted.name| - 1] == '"';
    assert !IsMarkdown(quoted);
  }

  lemma QuotedFoundDecoded(utf8: seq<Byte> -> string, quoted: Entry, listings: map<string, seq<Entry>>,
                           files: map<string, string>)
    requires utf8([0xEA, 0xB8, 0x80, 46, 109, 100]) == "\U{AE00}.md"
    requires quoted == Entry("\"\\352\\270\\200.md\"", File, "")
    requires listings == map["dev/c/p" := [quoted]] && "dev/c/p/\U{AE00}.md" in files
    ensures EntryPost("c", Entry("p", Dir, ""), listings, files, utf8).Some?
  {
    var path := "dev/c/p";
    assert EntryPath("c", Decoded("p", utf8)) == path by {
      assert !IsQuoted("p");
    }
    var folder := DecodedEntries([quoted], utf8);
    assert folder[0].name == "\U{AE00}.md" by {
      ExampleQuotedName(utf8);
    }
    assert FindMarkdown(folder) == Some(folder[0]) by {
      assert IsMarkdown(folder[0]);
    }
    KoreanPath(path, folder[0].name);
    EntryPostOfFolder("c", Entry("p", Dir, ""), listings, files, utf8, folder[0]);
  }

  lemma KoreanPath(path: string, name: string)
    requires path == "dev/c/p" && name == "\U{AE00}.md"
    ensures path + "/" + name == "dev/c/p/\U{AE00}.md"
  {
    var full := path + "/" + name;
    forall i | 0 <= i < 12 ensures full[i] == "dev/c/p/\U{AE00}.md"[i] {
      if i >= 8 { assert full[i] == name[i - 8]; }
    }
  }

  /** A folder entry whose decoded listing names a markdown file that could
      be read gives a post. */
  lemma EntryPostOfFolder(category: string, e: Entry, listings: map<string, seq<Entry>>,
                          files: map<string, string>, utf8: seq<Byte> -> string, md: Entry)
    requires e.kind == Dir && EntryPath(category, Decoded(e.name, utf8)) in listings
    requires var path := EntryPath(category, Decoded(e.name, utf8));
      FindMarkdown(DecodedEntries(listings[path], utf8)) == Some(md) && path + "/" + md.name in files
    ensures EntryPost(category, e, listings, files, utf8).Some?
  {
    assert !EndsWith(Decoded(e.name, utf8), ".md") || e.kind != File;
  }

  /** Posts the list finds, it finds as the post's own page reads them. */
  lemma ListAgreesWithPage(category: string, e: Entry, listings: map<string, seq<Entry>>,
                           files: map<string, string>, dates: map<string, (string, string)>,
                           utf8: seq<Byte> -> string)
    requires EntryPost(category, e, listings, files, utf8).Some?
    requires e.kind == File ==> EntryPath(category, StripMd(Decoded(e.name, utf8))) !in listings
    ensures var p := EntryPost(category, e, listings, files, utf8).value;
      DevPostOf(category, p.slug, listings, files, dates, utf8).Some? &&
      DevPostOf(category, p.slug, listings, files, dates, utf8).value.post == p
  {
    var name := Decoded(e.name, utf8);
    if e.kind == File {
      assert StripMd(name) + ".md" == name;
      assert EntryPath(category, StripMd(name)) + ".md" == EntryPath(category, name);
    }
  }

  // ---------------------------------------------------------------------
  // A single post

  /** Where a post's markdown comes from: its path, content and cover. */
  datatype Source = Source(path: string, content: string, cover: string)

  /** The folder's markdown file, if the folder lists one. */
  function FolderMarkdown(category: string, slug: string, listings: map<string, seq<Entry>>,
                          utf8: seq<Byte> -> string): Option<Entry>
  {
    var folderPath := EntryPath(category, slug);
    if folderPath in listings then FindMarkdown(DecodedEntries(listings[folderPath], utf8)) else None
  }

  /** The folder format first; the flat file when the folder has no markdown
      file or it could not be read. The cover found in the folder is kept
      even when the flat file is used. */
  function PostSource(category: string, slug: string, listings: map<string, seq<Entry>>,
                      files: map<string, string>, utf8: seq<Byte> -> string): Option<Source>
  {
    var folderPath := EntryPath(category, slug);
    var md := FolderMarkdown(category, slug, listings, utf8);
    var cover := if md.Some? then FindCover(DecodedEntries(listings[folderPath], utf8)) else "";
    if md.Some? && folderPath + "/" + md.value.name in files then
      Some(Source(folderPath + "/" + md.value.name, files[folderPath + "/" + md.value.name], cover))
    else if folderPath + ".md" in files then
      Some(Source(folderPath + ".md", files[folderPath + ".md"], cover))
    else None
  }

  /** The post page's data; None when neither format could be read. `dates`
      gives the formatted first and last commit dates of a file. */
  function DevPostOf(category: string, slug: string, listings: map<string, seq<Entry>>,
                     files: map<string, string>, dates: map<string, (string, string)>,
                     utf8: seq<Byte> -> string): Option<FullPost>
  {
    match PostSource(category, slug, listings, files, utf8)
    case None => None
    case Some(src) =>
      var (meta, body) := FrontmatterOf(src.content);
      var (createdAt, updatedAt) := if src.path in dates then dates[src.path] else ("", "");
      Some(FullPost(PostFrom(slug, category, meta, src.cover), body, createdAt, updatedAt))
  }

  method FetchDevPost(category: string, slug: string, listings: map<string, seq<Entry>>,
                      files: map<string, string>, dates: map<string, (string, string)>,
                      utf8: seq<Byte> -> string) returns (r: Option<FullPost>)
    ensures r == DevPostOf(category, slug, listings, files, dates, utf8)
  {
    var cover := "";
    var folderPath := EntryPath(category, slug);
    var rawContent: Option<string> := None;
    var mdFilePath := "";
    if folderPath in listings {
      var decodedFiles := DecodedEntries(listings[folderPath], utf8);
      var mdFile := FindMarkdown(decodedFiles);
      if mdFile.Some? {
        cover := FindCover(decodedFiles);
        mdFilePath := folderPath + "/" + mdFile.value.name;
        if mdFilePath in files {
          rawContent := Some(files[mdFilePath]);
        }
      }
    }
    if rawContent.None? {
      mdFilePath := folderPath + ".md";
      if mdFilePath !in files {
        return None;
      }
      rawContent := Some(files[mdFilePath]);
    }
    var createdAt, updatedAt := "", "";
    if mdFilePath in dates {
      createdAt, updatedAt := dates[mdFilePath].0, dates[mdFilePath].1;
    }
    var meta, body := ParseFrontmatter(rawContent.value);
    r := Some(FullPost(PostFrom(slug, category, meta, cover), body, createdAt, updatedAt));
  }

  // ---------------------------------------------------------------------
  // Properties of a single post

  /** Without a folder markdown file the flat file is the source. */
  lemma FlatSource(category: string, slug: string, listings: map<string, seq<Entry>>,
                   files: map<string, string>, utf8: seq<Byte> -> string)
    requires FolderMarkdown(category, slug, listings, utf8).None?
    requires EntryPath(category, slug) + ".md" in files
    ensures PostSource(category, slug, listings, files, utf8) ==
      Some(Source(EntryPath(category, slug) + ".md", files[EntryPath(category, slug) + ".md"], ""))
  {
  }

  /** The page's post is built from the source's front matter. */
  lemma PostOfSource(category: string, slug: string, listings: map<string, seq<Entry>>,
                     files: map<string, string>, dates: map<string, (string, string)>,
                     utf8: seq<Byte> -> string)
    requires PostSource(category, slug, listings, files, utf8).Some?
    ensures var src := PostSource(category, slug, listings, files, utf8).value;
      var r := DevPostOf(category, slug, listings, files, dates, utf8);
      r.Some? && r.value.post == PostFrom(slug, category, FrontmatterOf(src.content).0, src.cover) &&
      r.value.content == FrontmatterOf(src.content).1
  {
  }

  /** A header holding only a title. */
  lemma TitleHeader(title: string, body: string)
    requires PlainText(title)
    ensures FrontmatterOf("---\ntitle: " + title + "\n---\n" + body) == (map["title" := Text(title)], body)
  {
    var head := "---\ntitle: ";
    assert head == "---\n" + "title" + ": ";
    assert "---\ntitle: " + title + "\n---\n" + body == "---\n" + "title" + ": " + title + "\n---\n" + body by {
      assert head + title + "\n---\n" + body == ("---\n" + "title" + ": ") + title + "\n---\n" + body;
    }
    assert PlainKey("title");
    HeaderRoundTrip("title", title, body);
  }

  /** A flat post whose header sets only its title shows that title, no
      date, no tags, no description and no cover, and its body is the page
      content. */
  lemma TitledPost(category: string, slug: string, listings: map<string, seq<Entry>>,
                   files: map<string, string>, dates: map<string, (string, string)>,
                   utf8: seq<Byte> -> string, title: string, body: string)
    requires PlainText(title)
    requires FolderMarkdown(category, slug, listings, utf8).None?
    requires EntryPath(category, slug) + ".md" in files
    requires files[EntryPath(category, slug) + ".md"] == "---\ntitle: " + title + "\n---\n" + body
    ensures var r := DevPostOf(category, slug, listings, files, dates, utf8);
      r.Some? && r.value.post.title == title && r.value.post.date == "" &&
      r.value.post.tags == [] && r.value.post.description == "" && r.value.content == body &&
      r.value.post.cover == ""
  {
    var content := files[EntryPath(category, slug) + ".md"];
    FlatSource(category, slug, listings, files, utf8);
    PostOfSource(category, slug, listings, files, dates, utf8);
    var meta: Meta := map["title" := Text(title)];
    TitleHeader(title, body);
    assert PostFrom(slug, category, meta, "") == Post(slug, category, title, "", [], "", "");
  }

  /** Without a title in the header the title is the slug. */
  lemma UntitledPostUsesSlug(category: string, slug: string, listings: map<string, seq<Entry>>,
                             files: map<string, string>, dates: map<string, (string, string)>,
                             utf8: seq<Byte> -> string)
    requires var src := PostSource(category, slug, listings, files, utf8);
      src.Some? && "title" !in MetaOfFile(src.value.content)
    ensures DevPostOf(category, slug, listings, files, dates, utf8).value.post.title == slug
  {
  }

  /** The folder's markdown file wins over a flat file of the same name. */
  lemma FolderFormatFirst(category: string, slug: string, listings: map<string, seq<Entry>>,
                          files: map<string, string>, utf8: seq<Byte> -> string)
    requires var md := FolderMarkdown(category, slug, listings, utf8);
      md.Some? && EntryPath(category, slug) + "/" + md.value.name in files
    ensures var md := FolderMarkdown(category, slug, listings, utf8);
      PostSource(category, slug, listings, files, utf8).Some? &&
      PostSource(category, slug, listings, files, utf8).value.path == EntryPath(category, slug) + "/" + md.value.name
  {
  }
}
