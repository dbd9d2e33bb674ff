/** The chapter files of a book directory, as fetchBookDetail and
    fetchAllChapterContents enumerate them (src/api/github.js): markdown files
    at the top level other than index.md, then every markdown file of each
    sub-directory, directory by directory. Directory listings are inputs; a
    listing that could not be fetched is absent from the map. */
module BookListing {
  import opened Common
  import opened GitNames

  /** A chapter file: the raw sub-directory it sits in ("" at the top level)
      and its decoded file name. */
  datatype ChapterFile = ChapterFile(folder: string, fileName: string)

  /** A top-level entry that is a chapter. */
  predicate IsRootChapterFile(e: Entry, name: string)
  {
    e.kind == File && EndsWith(name, ".md") && name != "index.md"
  }

  /** A sub-directory entry that is a chapter (index.md included). */
  predicate IsFolderChapterFile(e: Entry, name: string)
  {
    e.kind == File && EndsWith(name, ".md")
  }

  /** The top-level chapter files, in listing order. */
  function RootFiles(entries: seq<Entry>, utf8: seq<Byte> -> string): (r: seq<ChapterFile>)
    ensures forall i :: 0 <= i < |r| ==>
      r[i].folder == "" && EndsWith(r[i].fileName, ".md") && r[i].fileName != "index.md"
  {
    if entries == [] then []
    else
      var e := entries[|entries| - 1];
      var name := Decoded(e.name, utf8);
      RootFiles(entries[..|entries| - 1], utf8) +
        (if IsRootChapterFile(e, name) then [ChapterFile("", name)] else [])
  }

  /** The decoded names of the sub-directories, in listing order. */
  function SubDirs(entries: seq<Entry>, utf8: seq<Byte> -> string): seq<string>
  {
    if entries == [] then []
    else
      var e := entries[|entries| - 1];
      var name := Decoded(e.name, utf8);
      SubDirs(entries[..|entries| - 1], utf8) +
        (if !IsRootChapterFile(e, name) && e.kind == Dir then [name] else [])
  }

  /** The chapter files of one sub-directory listing. */
  function FolderFiles(folder: string, listing: seq<Entry>, utf8: seq<Byte> -> string): (r: seq<ChapterFile>)
    ensures forall i :: 0 <= i < |r| ==> r[i].folder == folder && EndsWith(r[i].fileName, ".md")
  {
    if listing == [] then []
    else
      var e := listing[|listing| - 1];
      var name := Decoded(e.name, utf8);
      FolderFiles(folder, listing[..|listing| - 1], utf8) +
        (if IsFolderChapterFile(e, name) then [ChapterFile(folder, name)] else [])
  }

  /** A listing that failed counts as empty. */
  function ListingOf(listings: map<string, seq<Entry>>, folder: string): seq<Entry>
  {
    if folder in listings then listings[folder] else []
  }

  /** The chapter files of the sub-directories, directory by directory. */
  function AllFolderFiles(dirs: seq<string>, listings: map<string, seq<Entry>>, utf8: seq<Byte> -> string): seq<ChapterFile>
  {
    if dirs == [] then []
    else
      var d := dirs[|dirs| - 1];
      AllFolderFiles(dirs[..|dirs| - 1], listings, utf8) + FolderFiles(d, ListingOf(listings, d), utf8)
  }

  function ChapterFiles(entries: seq<Entry>, listings: map<string, seq<Entry>>, utf8: seq<Byte> -> string): seq<ChapterFile>
  {
    RootFiles(entries, utf8) + AllFolderFiles(SubDirs(entries, utf8), listings, utf8)
  }

  /** Walks the top-level listing, collecting chapters and sub-directories. */
  method ScanBookDir(entries: seq<Entry>, utf8: seq<Byte> -> string)
    returns (chapters: seq<ChapterFile>, subDirs: seq<string>)
    ensures chapters == RootFiles(entries, utf8) && subDirs == SubDirs(entries, utf8)
  {
    chapters, subDirs := [], [];
    for i := 0 to |entries|
      invariant chapters == RootFiles(entries[..i], utf8)
      invariant subDirs == SubDirs(entries[..i], utf8)
    {
      assert entries[..i + 1][..i] == entries[..i];
      var entry := entries[i];
      var eName := DecodeGitQuotedName(entry.name, utf8);
      if entry.kind == File && EndsWith(eName, ".md") && eName != "index.md" {
        chapters := chapters + [ChapterFile("", eName)];
      } else if entry.kind == Dir {
        subDirs := subDirs + [eName];
      }
    }
    assert entries[..|entries|] == entries;
  }

  /** Keeps the markdown files of one sub-directory listing. */
  method ScanFolder(folderName: string, listing: seq<Entry>, utf8: seq<Byte> -> string)
    returns (found: seq<ChapterFile>)
    ensures found == FolderFiles(folderName, listing, utf8)
  {
    found := [];
    for j := 0 to |listing|
      invariant found == FolderFiles(folderName, listing[..j], utf8)
    {
      assert listing[..j + 1][..j] == listing[..j];
      var e := listing[j];
      var seName := DecodeGitQuotedName(e.name, utf8);
      if e.kind == File && EndsWith(seName, ".md") {
        found := found + [ChapterFile(folderName, seName)];
      }
    }
    assert listing[..|listing|] == listing;
  }

  /** The top-level chapters, then each sub-directory's chapters in turn. */
  method ListChapterFiles(entries: seq<Entry>, listings: map<string, seq<Entry>>, utf8: seq<Byte> -> string)
    returns (files: seq<ChapterFile>)
    ensures files == ChapterFiles(entries, listings, utf8)
  {
    var chapters, subDirs := ScanBookDir(entries, utf8);
    var sub: seq<ChapterFile> := [];
    for d := 0 to |subDirs|
      invariant sub == AllFolderFiles(subDirs[..d], listings, utf8)
    {
      assert subDirs[..d + 1][..d] == subDirs[..d];
      var found := ScanFolder(subDirs[d], ListingOf(listings, subDirs[d]), utf8);
      sub := sub + found;
    }
    assert subDirs[..|subDirs|] == subDirs;
    files := chapters + sub;
  }

  // ---------------------------------------------------------------------
  // Properties

  /** Every chapter file is a markdown file; those from sub-directories carry
      the name of a sub-directory of the book. */
  lemma ChapterFilesAreMarkdown(entries: seq<Entry>, listings: map<string, seq<Entry>>, utf8: seq<Byte> -> string)
    ensures forall f :: f in ChapterFiles(entries, listings, utf8) ==> EndsWith(f.fileName, ".md")
    ensures forall f :: f in AllFolderFiles(SubDirs(entries, utf8), listings, utf8) ==> f.folder in SubDirs(entries, utf8)
  {
    AllFolderFilesShape(SubDirs(entries, utf8), listings, utf8);
  }

  lemma {:induction false} AllFolderFilesShape(dirs: seq<string>, listings: map<string, seq<Entry>>, utf8: seq<Byte> -> string)
    ensures forall f :: f in AllFolderFiles(dirs, listings, utf8) ==> EndsWith(f.fileName, ".md") && f.folder in dirs
  {
    if dirs != [] {
      var init := dirs[..|dirs| - 1];
      AllFolderFilesShape(init, listings, utf8);
      assert forall d :: d in init ==> d in dirs;
    }
  }
}
