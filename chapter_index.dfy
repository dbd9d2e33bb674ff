/** The full-text search index (fetchAllChapterContents in src/api/github.js):
    every chapter of every book becomes a task, five workers fetch the tasks'
    files, and each file that could be fetched contributes its plain text.
    Listings and file contents are inputs; the order in which the workers
    finish the tasks is an input too. */
module ChapterIndex {
  import opened Common
  import opened GitNames
  import opened BookListing
  import opened BookDetail
  import opened Markdown

  datatype Book = Book(slug: string, title: string)

  /** A book directory's listing and the listings of its sub-directories. */
  datatype BookDir = BookDir(entries: seq<Entry>, folders: map<string, seq<Entry>>)

  datatype Task = Task(book: Book, name: string, path: string, filePath: string)

  datatype SearchEntry = SearchEntry(
    bookSlug: string,
    bookTitle: string,
    chapterPath: string,
    chapterName: string,
    plainText: string)

  /** The number of workers. */
  const Concurrency: nat := 5

  // ---------------------------------------------------------------------
  // Tasks

  /** The task for one chapter file; its file path is taken from the
      repository root. */
  function TaskOf(booksPath: string, book: Book, f: ChapterFile): Task
  {
    var ch := ChapterOf(f);
    Task(book, ch.name, ch.path, booksPath + "/" + book.slug + "/" + FileLocation(f))
  }

  /** The chapter files of a book; none when its directory could not be listed. */
  function BookFiles(repo: map<string, BookDir>, book: Book, utf8: seq<Byte> -> string): seq<ChapterFile>
  {
    if book.slug in repo then ChapterFiles(repo[book.slug].entries, repo[book.slug].folders, utf8)
    else []
  }

  function TasksOf(booksPath: string, book: Book, files: seq<ChapterFile>): (r: seq<Task>)
    ensures |r| == |files|
  {
    if files == [] then []
    else TasksOf(booksPath, book, files[..|files| - 1]) + [TaskOf(booksPath, book, files[|files| - 1])]
  }

  /** All tasks, book by book. */
  function AllTasks(booksPath: string, books: seq<Book>, repo: map<string, BookDir>,
                    utf8: seq<Byte> -> string): seq<Task>
  {
    if books == [] then []
    else
      var b := books[|books| - 1];
      AllTasks(booksPath, books[..|books| - 1], repo, utf8) + TasksOf(booksPath, b, BookFiles(repo, b, utf8))
  }

  /** Pushes one task per chapter of a book. */
  method PushTasks(tasks: seq<Task>, booksPath: string, book: Book, chapters: seq<ChapterFile>)
    returns (r: seq<Task>)
    ensures r == tasks + TasksOf(booksPath, book, chapters)
  {
    r := tasks;
    for j := 0 to |chapters|
      invariant r == tasks + TasksOf(booksPath, book, chapters[..j])
    {
      assert chapters[..j + 1][..j] == chapters[..j];
      r := r + [TaskOf(booksPath, book, chapters[j])];
    }
    assert chapters[..|chapters|] == chapters;
  }

  /** Gathers the chapters of every book and flattens them into tasks. */
  method GatherTasks(booksPath: string, books: seq<Book>, repo: map<string, BookDir>,
                     utf8: seq<Byte> -> string) returns (tasks: seq<Task>)
    ensures tasks == AllTasks(booksPath, books, repo, utf8)
  {
    tasks := [];
    for i := 0 to |books|
      invariant tasks == AllTasks(booksPath, books[..i], repo, utf8)
    {
      assert books[..i + 1][..i] == books[..i];
      var book := books[i];
      var chapters: seq<ChapterFile> := [];
      if book.slug in repo {
        chapters := ListChapterFiles(repo[book.slug].entries, repo[book.slug].folders, utf8);
      }
      tasks := PushTasks(tasks, booksPath, book, chapters);
    }
    assert books[..|books|] == books;
  }

  // ---------------------------------------------------------------------
  // Running the tasks

  /** What a task contributes: nothing when its file could not be fetched,
      otherwise the chapter's plain text. `fetched` maps a file path to its
      decoded content. */
  function Outcome(t: Task, fetched: map<string, string>): Option<SearchEntry>
  {
    if t.filePath in fetched then
      Some(SearchEntry(t.book.slug, t.book.title, t.path, t.name, StripMarkdown(fetched[t.filePath])))
    else None
  }

  function OutcomeOf(fetched: map<string, string>): Task -> Option<SearchEntry>
  {
    (t: Task) => Outcome(t, fetched)
  }

  function OutcomeAt(tasks: seq<Task>, fetched: map<string, string>): nat -> Option<SearchEntry>
  {
    (i: nat) => if i < |tasks| then Outcome(tasks[i], fetched) else None
  }

  /** An order in which five workers can finish the tasks: each task once,
      and since tasks are claimed in index order, the k-th task to finish is
      among the first k + 5 claimed. */
  predicate IsSchedule(order: seq<nat>, n: nat)
  {
    multiset(order) == multiset(Range(n)) &&
    forall k :: 0 <= k < |order| ==> order[k] < k + Concurrency
  }

  /** The progress reports (0, total), (1, total), ..., (k, total). */
  function ProgressLog(k: nat, total: nat): (r: seq<(nat, nat)>)
    ensures |r| == k + 1 && forall m :: 0 <= m <= k ==> r[m] == (m, total)
  {
    if k == 0 then [(0, total)] else ProgressLog(k - 1, total) + [(k, total)]
  }

  /** The workers' loop, run by one worker at a time: each claims the task
      under the shared cursor, adds its entry if the file was fetched, and
      reports progress. `claimed` records the indices in the order claimed;
      the progress log starts with the report made before the workers start. */
  method RunPool(tasks: seq<Task>, fetched: map<string, string>)
    returns (results: seq<SearchEntry>, progress: seq<(nat, nat)>, ghost claimed: seq<nat>)
    ensures claimed == Range(|tasks|)
    ensures results == Collect(tasks, OutcomeOf(fetched))
    ensures progress == ProgressLog(|tasks|, |tasks|)
  {
    var total := |tasks|;
    var completed := 0;
    var cursor := 0;
    progress := [(0, total)];
    results := [];
    claimed := [];
    while cursor < |tasks|
      invariant cursor <= |tasks| && completed == cursor
      invariant claimed == Range(cursor)
      invariant results == Collect(tasks[..cursor], OutcomeOf(fetched))
      invariant progress == ProgressLog(completed, total)
    {
      var idx := cursor;
      cursor := cursor + 1;
      claimed := claimed + [idx];
      var task := tasks[idx];
      CollectStep(tasks, idx, OutcomeOf(fetched));
      if task.filePath in fetched {
        var content := fetched[task.filePath];
        var plainText := StripMarkdown(content);
        results := results + [SearchEntry(task.book.slug, task.book.title, task.path, task.name, plainText)];
      }
      completed := completed + 1;
      progress := progress + [(completed, total)];
    }
    assert tasks[..|tasks|] == tasks;
  }

  /** The whole index build. */
  method FetchAllChapterContents(booksPath: string, books: seq<Book>, repo: map<string, BookDir>,
                                 utf8: seq<Byte> -> string, fetched: map<string, string>)
    returns (results: seq<SearchEntry>, progress: seq<(nat, nat)>)
    ensures var tasks := AllTasks(booksPath, books, repo, utf8);
      results == Collect(tasks, OutcomeOf(fetched)) &&
      progress == ProgressLog(|tasks|, |tasks|)
  {
    var tasks := GatherTasks(booksPath, books, repo, utf8);
    ghost var claimed;
    results, progress, claimed := RunPool(tasks, fetched);
  }

  // ---------------------------------------------------------------------
  // Properties

  /** Collecting over the indices in order is collecting over the tasks. */
  lemma {:induction false} CollectIndices(tasks: seq<Task>, fetched: map<string, string>)
    ensures Collect(Range(|tasks|), OutcomeAt(tasks, fetched)) == Collect(tasks, OutcomeOf(fetched))
  {
    if tasks != [] {
      var n := |tasks| - 1;
      var init := tasks[..n];
      CollectIndices(init, fetched);
      assert Range(n + 1)[..n] == Range(n) && Range(n + 1)[..n + 1] == Range(n + 1);
      CollectStep(Range(n + 1), n, OutcomeAt(tasks, fetched));
      CollectStep(tasks, n, OutcomeOf(fetched));
      assert tasks[..n + 1] == tasks;
      assert Range(n + 1)[n] == n;
      assert OutcomeAt(tasks, fetched)(n) == OutcomeOf(fetched)(tasks[n]);
      assert Collect(Range(n), OutcomeAt(tasks, fetched)) == Collect(Range(n), OutcomeAt(init, fetched)) by {
        CollectSameOn(Range(n), OutcomeAt(tasks, fetched), OutcomeAt(init, fetched));
      }
    }
  }

  lemma {:induction false} CollectSameOn(s: seq<nat>, g: nat -> Option<SearchEntry>, h: nat -> Option<SearchEntry>)
    requires forall i :: 0 <= i < |s| ==> g(s[i]) == h(s[i])
    ensures Collect(s, g) == Collect(s, h)
  {
    if s != [] {
      CollectSameOn(s[1..], g, h);
    }
  }

  /** With five workers the tasks may finish in another order than they were
      claimed, and the entries are pushed as they finish. Whatever the order,
      the index holds the same entries, one per chapter whose file could be
      fetched. */
  lemma ScheduleDoesNotMatter(tasks: seq<Task>, fetched: map<string, string>, order: seq<nat>)
    requires IsSchedule(order, |tasks|)
    ensures multiset(Collect(order, OutcomeAt(tasks, fetched))) ==
            multiset(Collect(tasks, OutcomeOf(fetched)))
  {
    CollectPermutation(order, Range(|tasks|), OutcomeAt(tasks, fetched));
    CollectIndices(tasks, fetched);
  }

  /** Finishing the tasks in the order they were claimed is a schedule, and
      gives the entries in task order. */
  lemma ClaimOrderIsSchedule(tasks: seq<Task>, fetched: map<string, string>)
    ensures IsSchedule(Range(|tasks|), |tasks|)
    ensures Collect(Range(|tasks|), OutcomeAt(tasks, fetched)) == Collect(tasks, OutcomeOf(fetched))
  {
    CollectIndices(tasks, fetched);
  }

  /** When every file can be fetched there is one entry per chapter. */
  lemma {:induction false} AllFetchedAllIndexed(tasks: seq<Task>, fetched: map<string, string>)
    requires forall i :: 0 <= i < |tasks| ==> tasks[i].filePath in fetched
    ensures |Collect(tasks, OutcomeOf(fetched))| == |tasks|
  {
    if tasks != [] {
      AllFetchedAllIndexed(tasks[1..], fetched);
    }
  }

  /** Each entry's text is plain text: trimmed, with no blank lines. */
  lemma EntriesArePlain(tasks: seq<Task>, fetched: map<string, string>)
    ensures forall e :: e in Collect(tasks, OutcomeOf(fetched)) ==>
      NoBlankLine(e.plainText) &&
      (e.plainText == [] || (!IsWhitespace(e.plainText[0]) && !IsWhitespace(e.plainText[|e.plainText| - 1])))
  {
  }

  /** The task of a chapter file fetches that file. */
  lemma TaskFetchesItsFile(booksPath: string, book: Book, f: ChapterFile)
    requires EndsWith(f.fileName, ".md")
    ensures TaskOf(booksPath, book, f).filePath ==
      booksPath + "/" + book.slug + "/" + TaskOf(booksPath, book, f).path + ".md"
  {
    ChapterPathLocatesFile(f);
    var t := TaskOf(booksPath, book, f);
    assert booksPath + "/" + book.slug + "/" + (t.path + ".md") ==
           booksPath + "/" + book.slug + "/" + t.path + ".md";
  }
}
