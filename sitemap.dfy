/** The sitemap generator (scripts/generate-sitemap.js): the list of URLs —
    the static pages, one per dev post, one per book and one per chapter —
    and the XML document written from it.

    The contents-API listings are a map from a repository path to its
    entries, keyed by the decoded path; a missing key is a request answered
    with a non-ok status, or with JSON that is not an array, which the
    script skips. A request that throws (a network error, or a body that is
    not JSON) ends the whole script with no file written, and is not part
    of this model. The UTF-8 decoder, encodeURI and today's date are
    parameters. */
module Sitemap {
  import opened Common
  import opened GitNames

  const SiteUrl: string := "https://chanani-books.vercel.app"

  const DevPath: string := "dev"

  datatype UrlEntry = UrlEntry(loc: string, changefreq: string, priority: string)

  /** The four static pages. */
  const StaticUrls: seq<UrlEntry> := [
    UrlEntry("/", "weekly", "1.0"),
    UrlEntry("/books", "weekly", "0.8"),
    UrlEntry("/books/reading", "weekly", "0.7"),
    UrlEntry("/about", "monthly", "0.6")
  ]

  function PostUrl(category: string, slug: string): UrlEntry
  {
    UrlEntry("/post/" + category + "/" + slug, "weekly", "0.8")
  }

  function BookUrl(slug: string): UrlEntry
  {
    UrlEntry("/book/" + slug, "weekly", "0.7")
  }

  function ChapterUrl(slug: string, chapterPath: string): UrlEntry
  {
    UrlEntry("/book/" + slug + "/read/" + chapterPath, "monthly", "0.5")
  }

  /** A listed file whose decoded name ends in ".md". */
  predicate IsMarkdownFile(e: Entry, utf8: seq<Byte> -> string)
  {
    e.kind == File && EndsWith(Decoded(e.name, utf8), ".md")
  }

  // ---------------------------------------------------------------------
  // Dev posts

  /** The URL of one file of a category folder, if it is a markdown file. */
  function PostUrlsOfFile(category: string, utf8: seq<Byte> -> string, file: Entry): seq<UrlEntry>
  {
    if IsMarkdownFile(file, utf8) then [PostUrl(category, StripMd(Decoded(file.name, utf8)))] else []
  }

  function PostUrlsOf(category: string, utf8: seq<Byte> -> string): Entry -> seq<UrlEntry>
  {
    (file: Entry) => PostUrlsOfFile(category, utf8, file)
  }

  function CategoryPath(dir: Entry, utf8: seq<Byte> -> string): string
  {
    DevPath + "/" + Decoded(dir.name, utf8)
  }

  /** The URLs of one entry of the dev folder: those of its posts when it is
      a folder whose listing could be read. */
  function CategoryUrlsOfDir(listings: map<string, seq<Entry>>, utf8: seq<Byte> -> string, dir: Entry): seq<UrlEntry>
  {
    if dir.kind == Dir && CategoryPath(dir, utf8) in listings then
      FlatMap(listings[CategoryPath(dir, utf8)], PostUrlsOf(Decoded(dir.name, utf8), utf8))
    else []
  }

  function CategoryUrlsOf(listings: map<string, seq<Entry>>, utf8: seq<Byte> -> string): Entry -> seq<UrlEntry>
  {
    (dir: Entry) => CategoryUrlsOfDir(listings, utf8, dir)
  }

  /** The URLs of the entries `dirs` of the dev folder, in order. */
  function CategoriesUrls(listings: map<string, seq<Entry>>, utf8: seq<Byte> -> string, dirs: seq<Entry>): seq<UrlEntry>
  {
    FlatMap(dirs, CategoryUrlsOf(listings, utf8))
  }

  function DevUrls(listings: map<string, seq<Entry>>, utf8: seq<Byte> -> string): seq<UrlEntry>
  {
    if DevPath in listings then CategoriesUrls(listings, utf8, listings[DevPath]) else []
  }

  // ---------------------------------------------------------------------
  // Books

  /** The URL of one file of a chapter folder, if it is a markdown file. */
  function SubChapterUrlsOfFile(slug: string, folder: string, utf8: seq<Byte> -> string, sub: Entry): seq<UrlEntry>
  {
    if IsMarkdownFile(sub, utf8) then [ChapterUrl(slug, folder + "/" + StripMd(Decoded(sub.name, utf8)))] else []
  }

  function SubChapterUrlsOf(slug: string, folder: string, utf8: seq<Byte> -> string): Entry -> seq<UrlEntry>
  {
    (sub: Entry) => SubChapterUrlsOfFile(slug, folder, utf8, sub)
  }

  /** The chapter of a markdown file at the top of a book folder. */
  function FileChapterUrls(slug: string, utf8: seq<Byte> -> string, file: Entry): seq<UrlEntry>
  {
    if IsMarkdownFile(file, utf8) then [ChapterUrl(slug, StripMd(Decoded(file.name, utf8)))] else []
  }

  /** The chapters of a sub-folder (other than ".git") whose listing could be
      read. */
  function FolderChapterUrls(slug: string, bookPath: string, listings: map<string, seq<Entry>>,
                             utf8: seq<Byte> -> string, file: Entry): seq<UrlEntry>
  {
    var name := Decoded(file.name, utf8);
    if file.kind == Dir && name != ".git" && bookPath + "/" + name in listings then
      FlatMap(listings[bookPath + "/" + name], SubChapterUrlsOf(slug, name, utf8))
    else []
  }

  /** The URLs of one entry of a book folder: its own chapter, then those of
      its sub-folder (one of the two is empty). */
  function ChapterUrlsOfEntry(slug: string, bookPath: string, listings: map<string, seq<Entry>>,
                              utf8: seq<Byte> -> string, file: Entry): seq<UrlEntry>
  {
    FileChapterUrls(slug, utf8, file) + FolderChapterUrls(slug, bookPath, listings, utf8, file)
  }

  function ChapterUrlsOf(slug: string, bookPath: string, listings: map<string, seq<Entry>>,
                         utf8: seq<Byte> -> string): Entry -> seq<UrlEntry>
  {
    (file: Entry) => ChapterUrlsOfEntry(slug, bookPath, listings, utf8, file)
  }

  /** The URLs of the entries `contents` of a book folder, in order. */
  function ChapterUrlsIn(slug: string, bookPath: string, listings: map<string, seq<Entry>>,
                         utf8: seq<Byte> -> string, contents: seq<Entry>): seq<UrlEntry>
  {
    FlatMap(contents, ChapterUrlsOf(slug, bookPath, listings, utf8))
  }

  /** The URLs of one entry of the books folder: for a folder, the book's
      page followed by its chapters. */
  function BookUrlsOfEntry(booksPath: string, listings: map<string, seq<Entry>>, utf8: seq<Byte> -> string,
                           item: Entry): seq<UrlEntry>
  {
    if item.kind != Dir then []
    else
      var slug := Decoded(item.name, utf8);
      var path := booksPath + "/" + slug;
      [BookUrl(slug)] + (if path in listings then ChapterUrlsIn(slug, path, listings, utf8, listings[path]) else [])
  }

  /** The URLs of the entries `items` of the books folder, in order. */
  function BooksUrlsIn(booksPath: string, listings: map<string, seq<Entry>>, utf8: seq<Byte> -> string,
                       items: seq<Entry>): seq<UrlEntry>
  {
    if items == [] then []
    else
      BooksUrlsIn(booksPath, listings, utf8, items[..|items| - 1]) +
      BookUrlsOfEntry(booksPath, listings, utf8, items[|items| - 1])
  }

  function BooksUrls(booksPath: string, listings: map<string, seq<Entry>>, utf8: seq<Byte> -> string): seq<UrlEntry>
  {
    if booksPath in listings then BooksUrlsIn(booksPath, listings, utf8, listings[booksPath]) else []
  }

  /** Every URL of the sitemap, in the order the script pushes them. */
  function SitemapUrls(booksPath: string, listings: map<string, seq<Entry>>, utf8: seq<Byte> -> string): seq<UrlEntry>
  {
    StaticUrls + (DevUrls(listings, utf8) + BooksUrls(booksPath, listings, utf8))
  }

  lemma CategoriesUrlsStep(listings: map<string, seq<Entry>>, utf8: seq<Byte> -> string, dirs: seq<Entry>, k: nat)
    requires k < |dirs|
    ensures CategoriesUrls(listings, utf8, dirs[..k + 1]) ==
      CategoriesUrls(listings, utf8, dirs[..k]) + CategoryUrlsOfDir(listings, utf8, dirs[k])
  {
    FlatMapStep(dirs, k, CategoryUrlsOf(listings, utf8));
  }

  lemma ChapterUrlsInStep(slug: string, bookPath: string, listings: map<string, seq<Entry>>,
                          utf8: seq<Byte> -> string, contents: seq<Entry>, k: nat)
    requires k < |contents|
    ensures ChapterUrlsIn(slug, bookPath, listings, utf8, contents[..k + 1]) ==
      ChapterUrlsIn(slug, bookPath, listings, utf8, contents[..k]) +
      ChapterUrlsOfEntry(slug, bookPath, listings, utf8, contents[k])
  {
    FlatMapStep(contents, k, ChapterUrlsOf(slug, bookPath, listings, utf8));
  }

  lemma BooksUrlsInStep(booksPath: string, listings: map<string, seq<Entry>>, utf8: seq<Byte> -> string,
                        items: seq<Entry>, k: nat)
    requires k < |items|
    ensures BooksUrlsIn(booksPath, listings, utf8, items[..k + 1]) ==
      BooksUrlsIn(booksPath, listings, utf8, items[..k]) + BookUrlsOfEntry(booksPath, listings, utf8, items[k])
  {
    assert items[..k + 1][..k] == items[..k];
  }

  // ---------------------------------------------------------------------
  // Generating the list

  method AppendPostUrls(urls: seq<UrlEntry>, category: string, files: seq<Entry>, utf8: seq<Byte> -> string)
    returns (out: seq<UrlEntry>)
    ensures out == urls + FlatMap(files, PostUrlsOf(category, utf8))
  {
    out := urls;
    for i := 0 to |files|
      invariant out == urls + FlatMap(files[..i], PostUrlsOf(category, utf8))
    {
      FlatMapStep(files, i, PostUrlsOf(category, utf8));
      AppendStep(urls, out, FlatMap(files[..i], PostUrlsOf(category, utf8)), PostUrlsOfFile(category, utf8, files[i]));
      var fileName := DecodeGitQuotedName(files[i].name, utf8);
      if files[i].kind == File && EndsWith(fileName, ".md") {
        var slug := StripMd(fileName);
        out := out + [PostUrl(category, slug)];
      }
    }
    TakeAll(files);
  }

  /** One entry of the dev folder. */
  method AppendCategory(urls: seq<UrlEntry>, listings: map<string, seq<Entry>>, dir: Entry, utf8: seq<Byte> -> string)
    returns (out: seq<UrlEntry>)
    ensures out == urls + CategoryUrlsOfDir(listings, utf8, dir)
  {
    out := urls;
    if dir.kind != Dir {
      return;
    }
    var catName := DecodeGitQuotedName(dir.name, utf8);
    var path := DevPath + "/" + catName;
    assert path == CategoryPath(dir, utf8);
    if path in listings {
      out := AppendPostUrls(out, catName, listings[path], utf8);
    }
  }

  method AppendDevUrls(urls: seq<UrlEntry>, listings: map<string, seq<Entry>>, utf8: seq<Byte> -> string)
    returns (out: seq<UrlEntry>)
    ensures out == urls + DevUrls(listings, utf8)
  {
    out := urls;
    if DevPath in listings {
      out := AppendCategories(out, listings, listings[DevPath], utf8);
    }
  }

  method AppendCategories(urls: seq<UrlEntry>, listings: map<string, seq<Entry>>, dirs: seq<Entry>,
                          utf8: seq<Byte> -> string)
    returns (out: seq<UrlEntry>)
    ensures out == urls + CategoriesUrls(listings, utf8, dirs)
  {
    out := urls;
    for i := 0 to |dirs|
      invariant out == urls + CategoriesUrls(listings, utf8, dirs[..i])
    {
      CategoriesUrlsStep(listings, utf8, dirs, i);
      AppendStep(urls, out, CategoriesUrls(listings, utf8, dirs[..i]), CategoryUrlsOfDir(listings, utf8, dirs[i]));
      out := AppendCategory(out, listings, dirs[i], utf8);
    }
    TakeAll(dirs);
  }

  method AppendSubChapterUrls(urls: seq<UrlEntry>, slug: string, folder: string, files: seq<Entry>,
                              utf8: seq<Byte> -> string)
    returns (out: seq<UrlEntry>)
    ensures out == urls + FlatMap(files, SubChapterUrlsOf(slug, folder, utf8))
  {
    out := urls;
    for i := 0 to |files|
      invariant out == urls + FlatMap(files[..i], SubChapterUrlsOf(slug, folder, utf8))
    {
      FlatMapStep(files, i, SubChapterUrlsOf(slug, folder, utf8));
      AppendStep(urls, out, FlatMap(files[..i], SubChapterUrlsOf(slug, folder, utf8)),
        SubChapterUrlsOfFile(slug, folder, utf8, files[i]));
      var subName := DecodeGitQuotedName(files[i].name, utf8);
      if files[i].kind == File && EndsWith(subName, ".md") {
        out := out + [ChapterUrl(slug, folder + "/" + StripMd(subName))];
      }
    }
    TakeAll(files);
  }

  /** One entry of a book folder: its chapter, then its sub-folder's. */
  method AppendChapterEntry(urls: seq<UrlEntry>, slug: string, bookPath: string, file: Entry,
                            listings: map<string, seq<Entry>>, utf8: seq<Byte> -> string)
    returns (out: seq<UrlEntry>)
    ensures out == urls + ChapterUrlsOfEntry(slug, bookPath, listings, utf8, file)
  {
    out := urls;
    var fName := DecodeGitQuotedName(file.name, utf8);
    if file.kind == File && EndsWith(fName, ".md") {
      out := out + [ChapterUrl(slug, StripMd(fName))];
    }
    assert out == urls + FileChapterUrls(slug, utf8, file);
    AppendStep(urls, out, FileChapterUrls(slug, utf8, file), FolderChapterUrls(slug, bookPath, listings, utf8, file));
    out := AppendFolderChapters(out, slug, bookPath, file, fName, listings, utf8);
  }

  /** The chapters of a sub-folder of a book, other than ".git". */
  method AppendFolderChapters(urls: seq<UrlEntry>, slug: string, bookPath: string, file: Entry, fName: string,
                              listings: map<string, seq<Entry>>, utf8: seq<Byte> -> string)
    returns (out: seq<UrlEntry>)
    requires fName == Decoded(file.name, utf8)
    ensures out == urls + FolderChapterUrls(slug, bookPath, listings, utf8, file)
  {
    out := urls;
    if file.kind == Dir && fName != ".git" {
      var subPath := bookPath + "/" + fName;
      if subPath in listings {
        out := AppendSubChapterUrls(out, slug, fName, listings[subPath], utf8);
      }
    }
  }

  method AppendChapterUrls(urls: seq<UrlEntry>, slug: string, bookPath: string, contents: seq<Entry>,
                           listings: map<string, seq<Entry>>, utf8: seq<Byte> -> string)
    returns (out: seq<UrlEntry>)
    ensures out == urls + ChapterUrlsIn(slug, bookPath, listings, utf8, contents)
  {
    out := urls;
    for i := 0 to |contents|
      invariant out == urls + ChapterUrlsIn(slug, bookPath, listings, utf8, contents[..i])
    {
      ChapterUrlsInStep(slug, bookPath, listings, utf8, contents, i);
      AppendStep(urls, out, ChapterUrlsIn(slug, bookPath, listings, utf8, contents[..i]),
        ChapterUrlsOfEntry(slug, bookPath, listings, utf8, contents[i]));
      out := AppendChapterEntry(out, slug, bookPath, contents[i], listings, utf8);
    }
    TakeAll(contents);
  }

  /** One entry of the books folder: the book's page, then its chapters. */
  method AppendBook(urls: seq<UrlEntry>, booksPath: string, listings: map<string, seq<Entry>>, item: Entry,
                    utf8: seq<Byte> -> string)
    returns (out: seq<UrlEntry>)
    ensures out == urls + BookUrlsOfEntry(booksPath, listings, utf8, item)
  {
    out := urls;
    if item.kind != Dir {
      return;
    }
    var slug := DecodeGitQuotedName(item.name, utf8);
    assert slug == Decoded(item.name, utf8);
    var path := booksPath + "/" + slug;
    ghost var chapters := if path in listings then ChapterUrlsIn(slug, path, listings, utf8, listings[path]) else [];
    assert BookUrlsOfEntry(booksPath, listings, utf8, item) == [BookUrl(slug)] + chapters;
    out := out + [BookUrl(slug)];
    AppendStep(urls, out, [BookUrl(slug)], chapters);
    if path in listings {
      out := AppendChapterUrls(out, slug, path, listings[path], listings, utf8);
    } else {
      assert out + chapters == out;
    }
  }

  method AppendBookUrls(urls: seq<UrlEntry>, booksPath: string, listings: map<string, seq<Entry>>,
                        utf8: seq<Byte> -> string)
    returns (out: seq<UrlEntry>)
    ensures out == urls + BooksUrls(booksPath, listings, utf8)
  {
    out := urls;
    if booksPath in listings {
      out := AppendBooks(out, booksPath, listings, listings[booksPath], utf8);
    }
  }

  method AppendBooks(urls: seq<UrlEntry>, booksPath: string, listings: map<string, seq<Entry>>, books: seq<Entry>,
                     utf8: seq<Byte> -> string)
    returns (out: seq<UrlEntry>)
    ensures out == urls + BooksUrlsIn(booksPath, listings, utf8, books)
  {
    out := urls;
    for i := 0 to |books|
      invariant out == urls + BooksUrlsIn(booksPath, listings, utf8, books[..i])
    {
      BooksUrlsInStep(booksPath, listings, utf8, books, i);
      AppendStep(urls, out, BooksUrlsIn(booksPath, listings, utf8, books[..i]),
        BookUrlsOfEntry(booksPath, listings, utf8, books[i]));
      out := AppendBook(out, booksPath, listings, books[i], utf8);
    }
    TakeAll(books);
  }

  /** The URL list of generateSitemap. */
  method GenerateUrls(booksPath: string, listings: map<string, seq<Entry>>, utf8: seq<Byte> -> string)
    returns (urls: seq<UrlEntry>)
    ensures urls == SitemapUrls(booksPath, listings, utf8)
  {
    urls := StaticUrls;
    urls := AppendDevUrls(urls, listings, utf8);
    urls := AppendBookUrls(urls, booksPath, listings, utf8);
  }

  // ---------------------------------------------------------------------
  // What the list holds

  /** The sitemap starts with the four static pages, whatever could be read. */
  lemma StaticFirst(booksPath: string, listings: map<string, seq<Entry>>, utf8: seq<Byte> -> string)
    ensures var r := SitemapUrls(booksPath, listings, utf8);
      |r| >= 4 && r[..4] == StaticUrls
  {
    var rest := DevUrls(listings, utf8) + BooksUrls(booksPath, listings, utf8);
    assert |StaticUrls| == 4;
    assert (StaticUrls + rest)[..|StaticUrls|] == StaticUrls;
  }

  /** `u` is the URL of a markdown file in a category folder of the dev folder. */
  predicate IsPostUrl(listings: map<string, seq<Entry>>, utf8: seq<Byte> -> string, u: UrlEntry)
  {
    DevPath in listings &&
    exists dir, file ::
      dir in listings[DevPath] && dir.kind == Dir && CategoryPath(dir, utf8) in listings &&
      file in listings[CategoryPath(dir, utf8)] && IsMarkdownFile(file, utf8) &&
      u == PostUrl(Decoded(dir.name, utf8), StripMd(Decoded(file.name, utf8)))
  }

  lemma PostUrlsOfMember(category: string, utf8: seq<Byte> -> string, files: seq<Entry>, u: UrlEntry)
    ensures u in FlatMap(files, PostUrlsOf(category, utf8)) <==>
      exists file :: file in files && IsMarkdownFile(file, utf8) &&
        u == PostUrl(category, StripMd(Decoded(file.name, utf8)))
  {
    FlatMapMember(files, PostUrlsOf(category, utf8), u);
  }

  /** A URL of the dev folder's entries comes from one of them. */
  lemma CategoriesUrlsMember(listings: map<string, seq<Entry>>, utf8: seq<Byte> -> string,
                                                dirs: seq<Entry>, u: UrlEntry)
    ensures u in CategoriesUrls(listings, utf8, dirs) <==>
      exists dir :: dir in dirs && u in CategoryUrlsOfDir(listings, utf8, dir)
  {
    var f := CategoryUrlsOf(listings, utf8);
    FlatMapMember(dirs, f, u);
    if u in CategoriesUrls(listings, utf8, dirs) {
      var i :| 0 <= i < |dirs| && u in f(dirs[i]);
      assert dirs[i] in dirs && u in CategoryUrlsOfDir(listings, utf8, dirs[i]);
    }
    if exists dir :: dir in dirs && u in CategoryUrlsOfDir(listings, utf8, dir) {
      var dir :| dir in dirs && u in CategoryUrlsOfDir(listings, utf8, dir);
      var i :| 0 <= i < |dirs| && dirs[i] == dir;
      assert u in f(dirs[i]);
    }
  }

  /** The dev part of the sitemap holds exactly one URL per markdown file of
      each category folder that could be listed. */
  lemma DevUrlsArePosts(listings: map<string, seq<Entry>>, utf8: seq<Byte> -> string, u: UrlEntry)
    ensures u in DevUrls(listings, utf8) <==> IsPostUrl(listings, utf8, u)
  {
    if DevPath in listings {
      var dirs := listings[DevPath];
      CategoriesUrlsMember(listings, utf8, dirs, u);
      if u in DevUrls(listings, utf8) {
        var dir :| dir in dirs && u in CategoryUrlsOfDir(listings, utf8, dir);
        var files := listings[CategoryPath(dir, utf8)];
        PostUrlsOfMember(Decoded(dir.name, utf8), utf8, files, u);
      }
      if IsPostUrl(listings, utf8, u) {
        var dir, file :|
          dir in listings[DevPath] && dir.kind == Dir && CategoryPath(dir, utf8) in listings &&
          file in listings[CategoryPath(dir, utf8)] && IsMarkdownFile(file, utf8) &&
          u == PostUrl(Decoded(dir.name, utf8), StripMd(Decoded(file.name, utf8)));
        PostUrlsOfMember(Decoded(dir.name, utf8), utf8, listings[CategoryPath(dir, utf8)], u);
      }
    }
  }

  /** A chapter URL of book `slug`. */
  predicate IsChapterUrlOf(slug: string, u: UrlEntry)
  {
    StartsWith(u.loc, "/book/" + slug + "/read/") && u.changefreq == "monthly" && u.priority == "0.5"
  }

  lemma ChapterUrlIsOf(slug: string, chapterPath: string)
    ensures IsChapterUrlOf(slug, ChapterUrl(slug, chapterPath))
  {
    var prefix := "/book/" + slug + "/read/";
    assert ChapterUrl(slug, chapterPath).loc == prefix + chapterPath;
    assert (prefix + chapterPath)[..|prefix|] == prefix;
  }

  lemma SubChapterUrlsMember(slug: string, folder: string, utf8: seq<Byte> -> string, subs: seq<Entry>, u: UrlEntry)
    ensures u in FlatMap(subs, SubChapterUrlsOf(slug, folder, utf8)) <==>
      exists sub :: sub in subs && IsMarkdownFile(sub, utf8) &&
        u == ChapterUrl(slug, folder + "/" + StripMd(Decoded(sub.name, utf8)))
  {
    FlatMapMember(subs, SubChapterUrlsOf(slug, folder, utf8), u);
  }

  /** The URLs one entry of a book folder gives: the chapter of a markdown
      file, or the chapters of the markdown files of a sub-folder — never of
      ".git" and never of a folder that could not be listed. */
  lemma ChapterUrlsOfMember(slug: string, bookPath: string, listings: map<string, seq<Entry>>,
                            utf8: seq<Byte> -> string, file: Entry, u: UrlEntry)
    ensures var name := Decoded(file.name, utf8);
      u in ChapterUrlsOfEntry(slug, bookPath, listings, utf8, file) <==>
        (IsMarkdownFile(file, utf8) && u == ChapterUrl(slug, StripMd(name))) ||
        (file.kind == Dir && name != ".git" && bookPath + "/" + name in listings &&
         exists sub :: sub in listings[bookPath + "/" + name] && IsMarkdownFile(sub, utf8) &&
           u == ChapterUrl(slug, name + "/" + StripMd(Decoded(sub.name, utf8))))
  {
    var name := Decoded(file.name, utf8);
    if file.kind == Dir && name != ".git" && bookPath + "/" + name in listings {
      SubChapterUrlsMember(slug, name, utf8, listings[bookPath + "/" + name], u);
    }
  }

  /** A URL of a book folder's entries comes from one of them. */
  lemma ChapterUrlsInMember(slug: string, bookPath: string, listings: map<string, seq<Entry>>,
                                               utf8: seq<Byte> -> string, contents: seq<Entry>, u: UrlEntry)
    ensures u in ChapterUrlsIn(slug, bookPath, listings, utf8, contents) <==>
      exists file :: file in contents && u in ChapterUrlsOfEntry(slug, bookPath, listings, utf8, file)
  {
    var f := ChapterUrlsOf(slug, bookPath, listings, utf8);
    FlatMapMember(contents, f, u);
    if u in ChapterUrlsIn(slug, bookPath, listings, utf8, contents) {
      var i :| 0 <= i < |contents| && u in f(contents[i]);
      assert contents[i] in contents && u in ChapterUrlsOfEntry(slug, bookPath, listings, utf8, contents[i]);
    }
    if exists file :: file in contents && u in ChapterUrlsOfEntry(slug, bookPath, listings, utf8, file) {
      var file :| file in contents && u in ChapterUrlsOfEntry(slug, bookPath, listings, utf8, file);
      var i :| 0 <= i < |contents| && contents[i] == file;
      assert u in f(contents[i]);
    }
  }

  /** Every URL an entry of a book folder gives is a chapter URL of that book. */
  lemma ChapterUrlsAreOfBook(slug: string, bookPath: string, listings: map<string, seq<Entry>>,
                             utf8: seq<Byte> -> string, contents: seq<Entry>, u: UrlEntry)
    requires u in ChapterUrlsIn(slug, bookPath, listings, utf8, contents)
    ensures IsChapterUrlOf(slug, u)
  {
    ChapterUrlsInMember(slug, bookPath, listings, utf8, contents, u);
    var file :| file in contents && u in ChapterUrlsOfEntry(slug, bookPath, listings, utf8, file);
    ChapterUrlsOfMember(slug, bookPath, listings, utf8, file, u);
    var name := Decoded(file.name, utf8);
    if IsMarkdownFile(file, utf8) && u == ChapterUrl(slug, StripMd(name)) {
      ChapterUrlIsOf(slug, StripMd(name));
    } else {
      var sub :| sub in listings[bookPath + "/" + name] && IsMarkdownFile(sub, utf8) &&
        u == ChapterUrl(slug, name + "/" + StripMd(Decoded(sub.name, utf8)));
      ChapterUrlIsOf(slug, name + "/" + StripMd(Decoded(sub.name, utf8)));
    }
  }

  /** An entry of the books folder that is not a folder gives nothing; a
      folder gives its book page first, then only chapter URLs of that book,
      and just the book page when its listing could not be read. */
  lemma BookUrlsShape(booksPath: string, listings: map<string, seq<Entry>>, utf8: seq<Byte> -> string, item: Entry)
    ensures var r := BookUrlsOfEntry(booksPath, listings, utf8, item);
      var slug := Decoded(item.name, utf8);
      (item.kind != Dir ==> r == []) &&
      (item.kind == Dir ==>
        |r| >= 1 && r[0] == BookUrl(slug) &&
        (forall u :: u in r[1..] ==> IsChapterUrlOf(slug, u)) &&
        (booksPath + "/" + slug !in listings ==> r == [BookUrl(slug)]))
  {
    var r := BookUrlsOfEntry(booksPath, listings, utf8, item);
    var slug := Decoded(item.name, utf8);
    var path := booksPath + "/" + slug;
    if item.kind == Dir && path in listings {
      var chapters := ChapterUrlsIn(slug, path, listings, utf8, listings[path]);
      assert r[1..] == chapters;
      forall u | u in r[1..] ensures IsChapterUrlOf(slug, u) {
        ChapterUrlsAreOfBook(slug, path, listings, utf8, listings[path], u);
      }
    }
  }

  /** The ".git" folder of a book is never descended into, and gives no URL. */
  lemma GitFolderSkipped(slug: string, bookPath: string, listings: map<string, seq<Entry>>,
                         utf8: seq<Byte> -> string, file: Entry)
    requires Decoded(file.name, utf8) == ".git"
    ensures ChapterUrlsOfEntry(slug, bookPath, listings, utf8, file) == []
  {
    assert !EndsWith(".git", ".md") by {
      assert ".git"[1..] != ".md";
    }
  }

  // ---------------------------------------------------------------------
  // The XML document

  const XmlDeclaration: string := "<?xml version=\"1.0\" encoding=\"UTF-8\"?>"

  const SitemapNamespace: string := "http://www.sitemaps.org/schemas/sitemap/0.9"

  const UrlsetOpen: string := "<urlset xmlns=\"" + SitemapNamespace + "\">"

  const UrlsetClose: string := "</urlset>"

  /** The six lines of one `<url>` element. */
  function ElementLines(u: UrlEntry, today: string, encodeUri: string -> string): (r: seq<string>)
    ensures |r| == 6
  {
    [ "  <url>",
      "    <loc>" + SiteUrl + encodeUri(u.loc) + "</loc>",
      "    <lastmod>" + today + "</lastmod>",
      "    <changefreq>" + u.changefreq + "</changefreq>",
      "    <priority>" + u.priority + "</priority>",
      "  </url>" ]
  }

  function Element(u: UrlEntry, today: string, encodeUri: string -> string): string
  {
    Join(ElementLines(u, today, encodeUri), "\n")
  }

  function ElementOf(today: string, encodeUri: string -> string): UrlEntry -> string
  {
    (u: UrlEntry) => Element(u, today, encodeUri)
  }

  /** The document: the declaration, the opening tag, the elements joined by
      newlines, the closing tag. */
  function SitemapXml(urls: seq<UrlEntry>, today: string, encodeUri: string -> string): string
  {
    XmlDeclaration + "\n" + UrlsetOpen + "\n" + Join(Map(urls, ElementOf(today, encodeUri)), "\n") + "\n" + UrlsetClose
  }

  /** A URL none of whose rendered fields holds a line break. */
  predicate SingleLine(u: UrlEntry, encodeUri: string -> string)
  {
    '\n' !in encodeUri(u.loc) && '\n' !in u.changefreq && '\n' !in u.priority
  }

  function LineGroups(urls: seq<UrlEntry>, today: string, encodeUri: string -> string): (r: seq<seq<string>>)
    ensures |r| == |urls|
    ensures forall k :: 0 <= k < |r| ==> r[k] == ElementLines(urls[k], today, encodeUri)
  {
    seq(|urls|, k requires 0 <= k < |urls| => ElementLines(urls[k], today, encodeUri))
  }

  /** The lines the document is made of, before they are joined. */
  function XmlLineList(urls: seq<UrlEntry>, today: string, encodeUri: string -> string): seq<string>
  {
    [XmlDeclaration, UrlsetOpen] + Flatten(LineGroups(urls, today, encodeUri)) + [UrlsetClose]
  }

  lemma XmlIsJoinedLines(urls: seq<UrlEntry>, today: string, encodeUri: string -> string)
    requires |urls| >= 1
    ensures SitemapXml(urls, today, encodeUri) == Join(XmlLineList(urls, today, encodeUri), "\n")
  {
    var groups := LineGroups(urls, today, encodeUri);
    var flat := Flatten(groups);
    var elements := Map(urls, ElementOf(today, encodeUri));
    assert elements == seq(|groups|, k requires 0 <= k < |groups| => Join(groups[k], "\n"));
    JoinFlatten(groups, "\n");
    FlattenNonEmpty(groups);
    JoinAppend([XmlDeclaration, UrlsetOpen] + flat, [UrlsetClose], "\n");
    JoinAppend([XmlDeclaration, UrlsetOpen], flat, "\n");
    assert Join([XmlDeclaration, UrlsetOpen], "\n") == XmlDeclaration + "\n" + UrlsetOpen;
  }

  predicate NoLineBreak(s: string) { '\n' !in s }

  lemma ElementLinesSingle(u: UrlEntry, today: string, encodeUri: string -> string)
    requires '\n' !in today && SingleLine(u, encodeUri)
    ensures forall j :: 0 <= j < 6 ==> NoLineBreak(ElementLines(u, today, encodeUri)[j])
  {
    var lines := ElementLines(u, today, encodeUri);
    assert lines[1] == "    <loc>" + SiteUrl + encodeUri(u.loc) + "</loc>";
    assert lines[2] == "    <lastmod>" + today + "</lastmod>";
    assert lines[3] == "    <changefreq>" + u.changefreq + "</changefreq>";
    assert lines[4] == "    <priority>" + u.priority + "</priority>";
  }

  lemma HeaderLinesSingle()
    ensures NoLineBreak(XmlDeclaration) && NoLineBreak(UrlsetOpen) && NoLineBreak(UrlsetClose)
  {
    DeclarationSingle();
    UrlsetOpenSingle();
  }

  lemma DeclarationSingle()
    ensures NoLineBreak(XmlDeclaration)
  {
  }

  lemma UrlsetOpenSingle()
    ensures NoLineBreak(UrlsetOpen)
  {
    assert NoLineBreak(SitemapNamespace);
  }

  lemma XmlLinesSingle(urls: seq<UrlEntry>, today: string, encodeUri: string -> string)
    requires '\n' !in today
    requires forall k :: 0 <= k < |urls| ==> SingleLine(urls[k], encodeUri)
    ensures forall i :: 0 <= i < |XmlLineList(urls, today, encodeUri)| ==>
      '\n' !in XmlLineList(urls, today, encodeUri)[i]
  {
    var groups := LineGroups(urls, today, encodeUri);
    forall k, j | 0 <= k < |groups| && 0 <= j < |groups[k]| ensures NoLineBreak(groups[k][j]) {
      ElementLinesSingle(urls[k], today, encodeUri);
    }
    FlattenAll(groups, NoLineBreak);
    var flat := Flatten(groups);
    var all := XmlLineList(urls, today, encodeUri);
    HeaderLinesSingle();
    forall i | 0 <= i < |all| ensures '\n' !in all[i] {
      if i < 2 {
        assert all[i] == [XmlDeclaration, UrlsetOpen][i];
      } else if i < |all| - 1 {
        assert all[i] == flat[i - 2];
        assert NoLineBreak(flat[i - 2]);
      } else {
        assert all[i] == UrlsetClose;
      }
    }
  }

  /** The lines of the document, read back by splitting at newlines: the two
      header lines, six lines per URL in the list's order (the second of them
      the `<loc>` with the site's address and the encoded path), and the
      closing tag. */
  lemma XmlLines(urls: seq<UrlEntry>, today: string, encodeUri: string -> string)
    requires |urls| >= 1 && '\n' !in today
    requires forall k :: 0 <= k < |urls| ==> SingleLine(urls[k], encodeUri)
    ensures var lines := Split(SitemapXml(urls, today, encodeUri), '\n');
      |lines| == 6 * |urls| + 3 &&
      lines[0] == XmlDeclaration && lines[1] == UrlsetOpen && lines[|lines| - 1] == UrlsetClose &&
      forall k :: 0 <= k < |urls| ==>
        lines[2 + 6 * k..8 + 6 * k] == ElementLines(urls[k], today, encodeUri) &&
        lines[3 + 6 * k] == "    <loc>" + SiteUrl + encodeUri(urls[k].loc) + "</loc>"
  {
    var all := XmlLineList(urls, today, encodeUri);
    var lines := Split(SitemapXml(urls, today, encodeUri), '\n');
    assert lines == all by {
      XmlIsJoinedLines(urls, today, encodeUri);
      XmlLinesSingle(urls, today, encodeUri);
      SplitJoin(all, '\n');
    }
    XmlLineListShape(urls, today, encodeUri);
    forall k | 0 <= k < |urls|
      ensures lines[3 + 6 * k] == "    <loc>" + SiteUrl + encodeUri(urls[k].loc) + "</loc>"
    {
      assert lines[3 + 6 * k] == lines[2 + 6 * k..8 + 6 * k][1];
    }
  }

  /** The line list: two header lines, six per URL, the closing tag. */
  lemma XmlLineListShape(urls: seq<UrlEntry>, today: string, encodeUri: string -> string)
    ensures var all := XmlLineList(urls, today, encodeUri);
      |all| == 6 * |urls| + 3 &&
      all[0] == XmlDeclaration && all[1] == UrlsetOpen && all[|all| - 1] == UrlsetClose &&
      forall k :: 0 <= k < |urls| ==> all[2 + 6 * k..8 + 6 * k] == ElementLines(urls[k], today, encodeUri)
  {
    var groups := LineGroups(urls, today, encodeUri);
    var flat := Flatten(groups);
    FlattenUniform(groups, 6);
    forall k | 0 <= k < |urls|
      ensures XmlLineList(urls, today, encodeUri)[2 + 6 * k..8 + 6 * k] == ElementLines(urls[k], today, encodeUri)
    {
      MiddleSlice([XmlDeclaration, UrlsetOpen], flat, [UrlsetClose], 6 * k, 6 * k + 6);
    }
  }
}
