# books-blog in Dafny

A model of the logic underneath chanani/books-blog. The site is a React blog that reads its books, chapters and
development posts from a GitHub repository, and it has a few serverless endpoints: the guestbook, the public
dashboard, and the admin login and statistics. The model takes every network answer, every directory listing and
every clock reading as an input. It then covers what the code does with them:

- the content-listing functions of `src/api/github.js`:
  - Git's quoted-octal file names;
  - chapter names and order numbers;
  - the front-matter parser;
  - the markdown stripper;
  - book detail grouping;
  - the five-worker search-index pool;
  - discussion comment counts;
  - the dev-post list and a single dev post;
- the three Zustand stores: search index, books and dev posts;
- the sitemap generator script;
- the three API handlers and their helpers;
- the statistics aggregation of the admin page;
- the pure and stateful logic of the pages:
  - the dev post reader (headings, ids, image paths, reader settings);
  - dev-home pagination;
  - the reading page (relative times, status counts, history);
  - the book page chapter search;
  - star ratings;
  - search-result highlighting;
- two small state machines: the footer's triple-click shortcut and the admin auth context.

Modelling conventions:

- `toLowerCase` is ASCII case folding, which keeps length.
- `\s` and `trim` mean ASCII whitespace.
- `localeCompare` and the default sort are code-point order on strings.
- JavaScript objects whose key order shows (folder groups, the dashboard's book map, the aggregation maps) are
  association lists. Objects used only by key lookup are Dafny maps.
- `localStorage` is a `map<string, …>` field of the class that owns it.
- UTF-8 decoding (`TextDecoder`, `Buffer`) is a function parameter `seq<Byte> -> string`.
- `decodeURIComponent` is a parameter `string -> Option<string>`, where None means it throws.
- `encodeURI` is a parameter `string -> string`.
- The current time and the day strings are parameters.
- A remote call is an `Option`, or an explicit outcome datatype (ok, non-ok, threw), supplied by the caller.
- Star ratings are exact `real`s. Every other quantity is an integer.

The content search pushes every match it finds and then keeps the first 20 (`src/store/useSearchStore.js:86-98`);
the model does the same.

Each `…Facts` lemma states the promises the source makes about one function. Each method that carries a loop is
proved equal to a reference function, and the lemmas beside it state what that function means.

## Model

| member | source | states |
|---|---|---|
| GitNames.DecodeGitQuotedName | src/api/github.js:25-38 | An unquoted name comes back unchanged. A quoted one is the UTF-8 decoding of the bytes of its inner text: one byte per `\ooo` escape, the low 8 bits of each other UTF-16 code unit. The sitemap script's copy at scripts/generate-sitemap.js:23-36 is the same decoder. |
| GitNames.QuotedBytesStep | src/api/github.js:29-36 | One loop step consumes either a whole escape (four characters, one byte) or one character (its code units' low bytes). |
| GitNames.LowBytes | src/api/github.js:37 | Storing into a Uint8Array keeps each value modulo 256. |
| GitNames.CodeUnits | src/api/github.js:35 | `charCodeAt` sees one code unit for a BMP character and two otherwise. |
| GitNames.QuotedBytesEscape | src/api/github.js:29-36 | Decoding undoes Git's escaping: any byte string escaped as `\ooo` triples decodes back to itself. |
| GitNames.DecodeEscapedName | src/api/github.js:25-38 | A fully escaped quoted name decodes to the UTF-8 decoding of exactly its bytes. |
| GitNames.QuotedBytesPlain | src/api/github.js:35 | Inner text with no backslash and only Latin-1 characters is its own byte string. |
| GitNames.DecodedEntries | src/api/github.js:253 | Decoding a listing keeps its length and each entry's kind, and replaces each name by its decoding. |
| GitNames.FindCover | src/api/github.js:40-45 | The download URL of the first cover-image file, or "" when there is none. |
| GitNames.StripMd | src/api/github.js:48 | Removes one trailing ".md" exactly when the name has it. |
| GitNames.DigitRun | src/api/github.js:57 | The leading run of decimal digits is maximal. |
| GitNames.TitleCase | src/api/github.js:50-52 | Keeps the length. Separators become spaces. The first character of each word is the upper-case form of the original one, and every other non-separator character is kept exactly. No separator is left, and no word starts with a lower-case letter. |
| GitNames.FormatChapterName | src/api/github.js:47-54 | Empty only for an empty file name. When the stem left after the `.md` and number prefix is empty the result is the file name; otherwise it is the title-cased stem. |
| GitNames.GetChapterOrder | src/api/github.js:56-59 | 999 when the name starts with no digit; otherwise the decimal value of its leading digit run. |
| GitNames.ChapterOrderOfNumbered | src/api/github.js:56-59 | A name `<n><rest>`, where rest does not start with a digit, has order n. |
| GitNames.ChapterNameOfNumbered | src/api/github.js:47-54 | `<n>-<title>.md` is titled by the title-cased `title` alone. |
| Frontmatter.HeaderEnd | src/api/github.js:489 | The header exists only when the content opens with `---\n`, and it ends at the first `\n---` after that; otherwise there is none. |
| Frontmatter.Body | src/api/github.js:489-493 | The body is what follows the closing fence, with one optional newline dropped. |
| Frontmatter.Unquote | src/api/github.js:503-505 | A value opening and closing with the same quote is that quote, the result and the quote again; any other value is returned unchanged. |
| Frontmatter.UnquoteMatched | src/api/github.js:503-505 | Removing the quotes from `"x"` or `'x'` gives x. |
| Frontmatter.CleanItem | src/api/github.js:512 | Cleaning an item never lengthens it and adds no comma. |
| Frontmatter.CleanItemPadded | src/api/github.js:512 | Whitespace around an item and at most one quote of either kind on each side are stripped, leaving the bare item. |
| Frontmatter.ListItems | src/api/github.js:508-514 | The items of a bracketed value are non-empty and hold no comma. |
| Frontmatter.ParseLine | src/api/github.js:497-500 | A line yields a key and value exactly when it holds a colon. |
| Frontmatter.ParseFrontmatter | src/api/github.js:488-520 | Without a header the meta is empty and the body is the whole content. With one, the meta is the line-by-line fold over the header and the body follows the fence; this equals the reference `FrontmatterOf`. |
| Frontmatter.MetaKeysFromLines | src/api/github.js:496-517 | Every key of the meta is assigned by some line. |
| Frontmatter.MetaLastWins | src/api/github.js:516 | A key's value is the one from the last line that assigns it. |
| Frontmatter.MetaSkipsPlainLines | src/api/github.js:498 | Lines without a colon assign nothing. |
| Frontmatter.ListItemsRoundTrip | src/api/github.js:508-514 | `[a,b,c]` of clean items parses back to exactly those items. |
| Frontmatter.ListItemsPadded | src/api/github.js:508-514 | A bracketed list whose items are padded with whitespace and quotes, some of them empty, parses to its non-empty bare items in order. |
| Frontmatter.ExamplePaddedList | src/api/github.js:508-514 | `[ "a" , 'b' ,, ]` parses to a and b. |
| Frontmatter.ParseLinePlain | src/api/github.js:497-500 | `key: value` parses to that key and value. |
| Frontmatter.HeaderEndAfterLine | src/api/github.js:489 | A header of one line closes right after that line. |
| Frontmatter.HeaderRoundTrip | src/api/github.js:488-520 | `---\nkey: value\n---\n` followed by a body parses back to that key, that value and the body. |
| Markdown.Run | src/api/github.js:68-74 | The run of matching characters from a position is maximal. |
| Markdown.FindFrom | src/api/github.js:64-73 | Returns a matching position with no match before it, and with no line break before it when the search keeps to one line. |
| Markdown.LineEnd | src/api/github.js:70-73 | The end of a line is the first line terminator, or the end of the text. |
| Markdown.LastIn | src/api/github.js:73 | The position returned holds the character searched for and lies in the range. |
| Markdown.MatchEmphasis | src/api/github.js:69 | A match consumes at least one character and stays in the text. |
| Markdown.MatchAt | src/api/github.js:64-75 | Every pass's match consumes at least one character and stays in the text, so each replace pass terminates. |
| Markdown.StripMarkdown | src/api/github.js:62-77 | The output has no leading or trailing whitespace and never two newlines in a row. |
| Markdown.CollapseFrom | src/api/github.js:75 | After the blank-line pass no two newlines are adjacent, and the output starts with a newline only where the input does. |
| Markdown.LinkBecomesText | src/api/github.js:67 | `[text](target)` becomes `text`. |
| Markdown.InlineCodeDropped | src/api/github.js:65 | Inline code disappears entirely. |
| Markdown.FindFromFirst | src/api/github.js:64-73 | The search returns the first match when nothing before it stops the search. |
| BookListing.RootFiles | src/api/github.js:97-108 | Top-level chapter files are `.md` files other than `index.md`, outside any folder. |
| BookListing.FolderFiles | src/api/github.js:117-126 | A folder's chapter files are its `.md` files, tagged with the folder. |
| BookListing.ScanBookDir | src/api/github.js:97-108 | The loop collects exactly the top-level chapter files and the sub-directories. |
| BookListing.ScanFolder | src/api/github.js:117-126 | The loop keeps exactly the folder's markdown files. |
| BookListing.ListChapterFiles | src/api/github.js:94-133 | The chapter list is the top-level chapters, then each sub-directory's chapters in turn. |
| BookListing.ChapterFilesAreMarkdown | src/api/github.js:99-118 | Every chapter file is a markdown file, and every folder chapter's folder is a sub-directory of the book. |
| BookDetail.ChapterOf | src/api/github.js:267-273 | A chapter lies outside a folder exactly when its file does. |
| BookDetail.KeyIndex | src/api/github.js:335 | The position of the group with that name, or none when there is no such group. |
| BookDetail.GroupByFolder | src/api/github.js:330-337 | The `forEach` that fills `folderGroups` equals the reference grouping `GroupsOf`. |
| BookDetail.FetchBookDetail | src/api/github.js:234-347 | The detail built from the listings equals the reference `DetailOf`. |
| BookDetail.ChapterPathLocatesFile | src/api/github.js:270 | A chapter's path with ".md" put back is where its file lives. |
| BookDetail.AddToGroupKeys | src/api/github.js:335-336 | Adding a chapter keeps the group names distinct and gives its folder a group. |
| BookDetail.GroupsOfKeys | src/api/github.js:330-337 | The group names are distinct and every chapter's folder has a group. |
| BookDetail.GroupsOfContents | src/api/github.js:330-337 | Each group holds exactly the chapters of its name, in their order. |
| BookDetail.GroupsOfFacts | src/api/github.js:330-337 | Distinct names; each group is non-empty and holds exactly its chapters in sorted order; every chapter has its group. |
| BookDetail.RootChaptersFacts | src/api/github.js:326-328 | The root chapters are sorted by order and are a permutation of the folder-less chapters. Chapters of equal order keep their listing order. |
| BookDetail.FolderGroupsFacts | src/api/github.js:330-337 | Each folder group has a distinct non-empty name. It is non-empty, sorted by order, and a permutation of that folder's chapters. Every folder chapter has a group. |
| BookDetail.FilterOfFilter | src/api/github.js:332-336 | Keeping the folder chapters and then those of one name is keeping those of that name. |
| BookDetail.TotalChaptersSplit | src/api/github.js:345 | totalChapters is the number of root chapters plus the number of folder chapters. |
| ChapterIndex.TasksOf | src/api/github.js:144-148 | One task per chapter file of a book. |
| ChapterIndex.PushTasks | src/api/github.js:145-147 | The inner loop appends exactly the book's tasks. |
| ChapterIndex.GatherTasks | src/api/github.js:86-148 | The gathered tasks equal the reference `AllTasks` over every book. |
| ChapterIndex.ProgressLog | src/api/github.js:149-178 | The progress reports are (0, total), (1, total), …, (k, total). |
| ChapterIndex.RunPool | src/api/github.js:153-183 | Each task index is claimed exactly once, in cursor order. The results are one entry per fetched file, in task order. Progress goes from (0, total) to (total, total) whatever fails. |
| ChapterIndex.FetchAllChapterContents | src/api/github.js:80-186 | The index is the collected entries of all gathered tasks, and the progress log ends at (total, total). |
| ChapterIndex.CollectIndices | src/api/github.js:157-173 | Running over the claimed indices in order is running over the tasks. |
| ChapterIndex.ScheduleDoesNotMatter | src/api/github.js:182-183 | When the five workers finish in another order, the entries are the same multiset. |
| ChapterIndex.ClaimOrderIsSchedule | src/api/github.js:157-158 | The claim order is a schedule, and finishing in it gives the entries in task order. |
| ChapterIndex.AllFetchedAllIndexed | src/api/github.js:160-176 | When every file can be fetched there is one entry per chapter. |
| ChapterIndex.EntriesArePlain | src/api/github.js:165 | Each entry's text is stripped: trimmed, with no blank line. |
| ChapterIndex.TaskFetchesItsFile | src/api/github.js:103 | The task of a chapter fetches `books/<slug>/<path>.md`. |
| Discussions.DropLeadingSlash | src/api/github.js:381 | Removes one leading "/" exactly when there is one. |
| Discussions.TallyComments | src/api/github.js:378-390 | The loop equals the reference `Tally`. |
| Discussions.FetchDiscussionCounts | src/api/github.js:353-396 | Empty without a token or when the query fails; otherwise the tally under `book/<slug>/read/`. |
| Discussions.FetchDevDiscussionCounts | src/api/github.js:399-442 | Empty without a token or when the query fails; otherwise the tally under `post/`. |
| Discussions.TallySums | src/api/github.js:386-389 | A key is counted exactly when some thread is on `prefix + key`, and then its count is the total of those threads' comments. |
| Discussions.OtherThreadsIgnored | src/api/github.js:386 | A thread outside the prefix changes nothing. |
| Discussions.LeadingSlashIgnored | src/api/github.js:381-383 | A title with a leading slash counts like one without. |
| DevPosts.FindMarkdown | src/api/github.js:523-525 | The first markdown file of a listing, and none exactly when there is none. |
| DevPosts.LoadEntry | src/api/github.js:548-601 | Reading one entry equals the reference `EntryPost` (flat file, folder, or skipped). |
| DevPosts.LoadCategory | src/api/github.js:541-607 | Reading a category equals the posts of its entries, in order. |
| DevPosts.FetchDevPostList | src/api/github.js:531-617 | The list is every post found, sorted by the corrected order `PostBefore`. |
| DevPosts.AsWrittenHasCycle | src/api/github.js:610-613 | The source's comparator orders three posts in a cycle. |
| DevPosts.PostBeforeTotal | src/api/github.js:610-613 | The corrected order relates any two posts. |
| DevPosts.PostBeforeTransitive | src/api/github.js:610-613 | The corrected order is transitive. |
| DevPosts.PostBeforeIsTotalPreorder | src/api/github.js:610-613 | The corrected order is a total preorder, so sorting by it is well defined. |
| DevPosts.PostBeforeAgreesWithSource | src/api/github.js:610-613 | Where both posts are dated, or both undated, the corrected order is the source's. |
| DevPosts.PostListSorted | src/api/github.js:610-613 | The list is sorted and is a permutation of the posts found. |
| DevPosts.ExampleQuotedName | src/api/github.js:577-580 | The raw quoted name of a Korean `.md` file does not end in ".md"; decoded, it does. |
| DevPosts.QuotedMarkdownSkipped | src/api/github.js:577-580 | As written, the list skips a folder post whose markdown file has a quoted name, while the post's own page reads it. |
| DevPosts.ListAgreesWithPage | src/api/github.js:548-597 | A post the corrected list finds is the post its own page shows. |
| DevPosts.FetchDevPost | src/api/github.js:621-671 | Loading a post equals the reference `DevPostOf`. |
| DevPosts.FlatSource | src/api/github.js:647-654 | Without a folder markdown file, the flat file is the source. |
| DevPosts.PostOfSource | src/api/github.js:656-670 | The page's post and body come from the source's front matter. |
| DevPosts.TitledPost | src/api/github.js:657-667 | A flat post whose header sets only a title shows that title, no date, tags, description or cover, and the body. |
| DevPosts.UntitledPostUsesSlug | src/api/github.js:662 | Without a title the slug is the title. |
| DevPosts.FolderFormatFirst | src/api/github.js:629-646 | The folder's markdown file wins over a flat file. |
| SearchStore.CachedIndex | src/store/useSearchStore.js:7-21 | The index is read back only when the item exists, parses and is at most 24 hours old. |
| SearchStore.SavedIndexReadBack | src/store/useSearchStore.js:7-32 | An index saved at t reads back unchanged up to and including t + 24 h, and not after. |
| SearchStore.LoadIsIdempotent | src/store/useSearchStore.js:7-21 | A second load finds what the first left. |
| SearchStore.SnippetStart | src/store/useSearchStore.js:42 | The snippet starts 30 characters before the match, or at 0. |
| SearchStore.SnippetEnd | src/store/useSearchStore.js:43 | The snippet ends 30 characters after the match, or at the end. |
| SearchStore.SnippetFacts | src/store/useSearchStore.js:36-48 | Empty without an occurrence. Otherwise it is the window around the first occurrence, at most query + 60 characters, containing the match. It has "..." before it iff it starts after 0, and "..." after it iff it ends before the end. |
| SearchStore.SearchResultsFacts | src/store/useSearchStore.js:79-99 | The results are the first 20 matching entries in index order, each copying its entry's fields and carrying its snippet. |
| SearchStore.HitsInIndexOrder | src/store/useSearchStore.js:86-96 | The hits are taken from the index in order. |
| SearchStore.ShortQueryFindsNothing | src/store/useSearchStore.js:80 | A query shorter than two characters finds nothing. |
| SearchStore.SearchStore.constructor | src/store/useSearchStore.js:50-54 | A fresh store: empty index, not indexing, not ready, progress (0, 0). |
| SearchStore.SearchStore.LoadCache | src/store/useSearchStore.js:7-21 | Returns the fresh saved index; removes a stale or unparsable item. |
| SearchStore.SearchStore.SaveCache | src/store/useSearchStore.js:23-32 | Stores the index with the time; when storage is full the old item stays. |
| SearchStore.SearchStore.LoadCachedIndex | src/store/useSearchStore.js:56-63 | A cached index, even an empty one, becomes the index and makes it ready. |
| SearchStore.SearchStore.BuildIndex | src/store/useSearchStore.js:65-77 | Does nothing while a build runs or once the index is ready. Otherwise it builds, saves, and ends ready and not indexing. |
| SearchStore.SearchStore.SearchContent | src/store/useSearchStore.js:79-99 | The loop's results equal the reference search over the current index. |
| Browse.DistinctOnce | src/store/useBookStore.js:106 | A distinct list holds each element once. |
| Browse.SortedDistinct | src/store/useBookStore.js:106-108 | Sorting a distinct list leaves no two equal elements. |
| Browse.CategoryListFacts | src/store/useBookStore.js:103-109 | "all" first, then each non-empty category once, in increasing order, and nothing else. |
| Browse.FindIndex | src/store/useDevStore.js:69-72 | `findIndex`: the first satisfying index, or none. |
| Browse.FindIndexFirst | src/store/useDevStore.js:69-72 | The first index satisfying the predicate is the one returned. |
| Browse.NeighboursFacts | src/store/useDevStore.js:67-78 | No neighbours for an absent item. Otherwise the items just before and after its first occurrence, with none at either end. |
| BookStore.FilteredBooksFacts | src/store/useBookStore.js:88-101 | An order-preserving subsequence, holding exactly the books of the category ("all": any) whose title, author or a tag contains the query. |
| BookStore.CategoriesFacts | src/store/useBookStore.js:103-109 | "all", then every non-empty book category once, in increasing order. |
| BookStore.PathNeighbours | src/store/useBookStore.js:69-75 | Neighbours by path in a chapter list. |
| BookStore.ChapterNavFacts | src/store/useBookStore.js:60-76 | No neighbours without a book or for a missing path. Otherwise the merged root and folder chapters, sorted stably by order, give the chapter's neighbours. |
| BookStore.BookStore.constructor | src/store/useBookStore.js:4-11 | The initial store. |
| BookStore.BookStore.LoadBooks | src/store/useBookStore.js:13-22 | No-op when books are loaded. Otherwise the fetched list, or the error with the list unchanged; loading ends false. |
| BookStore.BookStore.RefreshBooks | src/store/useBookStore.js:83-86 | Empties the list, so the reload always fetches. |
| BookStore.BookStore.LoadBook | src/store/useBookStore.js:24-38 | No-op when that book is open. Otherwise the fetched book with its comment counts, or the error. |
| BookStore.BookStore.LoadChapter | src/store/useBookStore.js:40-58 | The chapter with its book's title, and that book open; the open book is reused when it is the chapter's. |
| BookStore.BookStore.SetCategory | src/store/useBookStore.js:78 | Sets the category only. |
| BookStore.BookStore.SetSearchQuery | src/store/useBookStore.js:79 | Sets the query only. |
| BookStore.BookStore.ClearBook | src/store/useBookStore.js:80 | Closes the book only. |
| BookStore.BookStore.ClearChapter | src/store/useBookStore.js:81 | Closes the chapter only. |
| DevStore.FilteredPostsFacts | src/store/useDevStore.js:44-57 | An order-preserving subsequence, holding exactly the posts of the category ("all": any) whose title, description or a tag contains the query. |
| DevStore.CategoriesFacts | src/store/useDevStore.js:59-65 | "all", then every non-empty post category once, in increasing order. |
| DevStore.PostNeighbours | src/store/useDevStore.js:69-77 | Neighbours of a post in a list. |
| DevStore.PostNavFacts | src/store/useDevStore.js:67-78 | No neighbours for a post the filters hide. Otherwise the filtered posts just before and after it, none at either end. |
| DevStore.DevStore.constructor | src/store/useDevStore.js:4-10 | The initial store. |
| DevStore.DevStore.LoadPosts | src/store/useDevStore.js:12-21 | No-op when posts are loaded. Otherwise the sorted list. |
| DevStore.DevStore.RefreshPosts | src/store/useDevStore.js:39-42 | Empties the list, so the load that follows fetches. |
| DevStore.DevStore.LoadPost | src/store/useDevStore.js:23-33 | No-op when that post (slug and category) is open. Otherwise the fetched post, or the error when neither format could be read. |
| DevStore.DevStore.SetCategory | src/store/useDevStore.js:35 | Sets the category only. |
| DevStore.DevStore.SetSearchQuery | src/store/useDevStore.js:36 | Sets the query only. |
| DevStore.DevStore.ClearPost | src/store/useDevStore.js:37 | Closes the open post and changes nothing else. |
| Sitemap.GenerateUrls | scripts/generate-sitemap.js:47-141 | The URL list built by the nested loops equals the reference `SitemapUrls`. |
| Sitemap.AppendDevUrls | scripts/generate-sitemap.js:58-85 | Appends the dev part; nothing when the dev listing failed. |
| Sitemap.AppendCategories | scripts/generate-sitemap.js:64-84 | Appends the URLs of each category in turn. |
| Sitemap.AppendCategory | scripts/generate-sitemap.js:65-83 | One entry of the dev folder: nothing unless it is a directory whose listing succeeded. |
| Sitemap.AppendPostUrls | scripts/generate-sitemap.js:72-82 | One post URL per markdown file, with ".md" removed. |
| Sitemap.AppendBookUrls | scripts/generate-sitemap.js:87-141 | Appends the books part; nothing when the books listing failed. |
| Sitemap.AppendBooks | scripts/generate-sitemap.js:93-140 | Appends each book's URLs in turn. |
| Sitemap.AppendBook | scripts/generate-sitemap.js:94-139 | One entry of the books folder: the book page, then its chapters. |
| Sitemap.AppendChapterUrls | scripts/generate-sitemap.js:108-138 | Appends each entry's chapter URLs in turn. |
| Sitemap.AppendChapterEntry | scripts/generate-sitemap.js:109-137 | One entry of a book folder: its chapter, then its sub-folder's chapters. |
| Sitemap.AppendFolderChapters | scripts/generate-sitemap.js:120-137 | The chapters of a sub-folder other than ".git". |
| Sitemap.AppendSubChapterUrls | scripts/generate-sitemap.js:125-135 | One chapter URL `<folder>/<name>` per markdown file of a sub-folder. |
| Sitemap.StaticFirst | scripts/generate-sitemap.js:51-56 | The sitemap starts with exactly the four static pages, whatever could be read. |
| Sitemap.DevUrlsArePosts | scripts/generate-sitemap.js:63-85 | A URL is in the dev part iff it is the post URL of a markdown file in a category folder that could be listed. |
| Sitemap.ChapterUrlsOfMember | scripts/generate-sitemap.js:109-137 | A URL comes from a book-folder entry iff it is that markdown file's chapter, or the chapter of a markdown file in that non-".git" sub-folder. |
| Sitemap.ChapterUrlsAreOfBook | scripts/generate-sitemap.js:108-138 | Every chapter URL of a book folder is under that book. |
| Sitemap.BookUrlsShape | scripts/generate-sitemap.js:93-139 | A non-directory gives nothing. A directory gives its book page first, then only its chapter URLs, and only the book page when its listing failed. |
| Sitemap.GitFolderSkipped | scripts/generate-sitemap.js:120 | The ".git" folder gives no URL. |
| Sitemap.ElementLines | scripts/generate-sitemap.js:147-152 | A `<url>` element is six lines. |
| Sitemap.XmlIsJoinedLines | scripts/generate-sitemap.js:143-155 | The document is its header lines, the elements' lines and the closing tag, joined by newlines. |
| Sitemap.XmlLines | scripts/generate-sitemap.js:143-155 | Split at newlines, the document is the two header lines, then six lines per URL in list order (the second is that URL's `<loc>`), then `</urlset>`. |
| Guestbook.RequestedPage | api/guestbook.js:8 | Always at least 1. A parsed page of 1 or more is used; a missing, unparsable or smaller one becomes 1. |
| Guestbook.ParseIntDecimal | api/guestbook.js:8 | A string starting with a decimal digit (not "0x") is read in decimal up to its first non-digit. |
| Guestbook.RequestedPageOfNumeral | api/guestbook.js:8 | A page number written in decimal reads back as that page. |
| Guestbook.OrElse | api/guestbook.js:46-48 | `x || fallback`: the fallback for a missing or empty string. |
| Guestbook.CommentDefaults | api/guestbook.js:45-50 | A missing author is "anonymous" with no avatar; a missing body is empty; the date is kept. |
| Guestbook.AllComments | api/guestbook.js:44-51 | The comments, mapped, newest first. |
| Guestbook.SafePage | api/guestbook.js:54 | Between 1 and max(1, totalPages); the requested page when it exists. |
| Guestbook.ServeFacts | api/guestbook.js:53-56 | totalPages is ceil(n/10). The served page is clamped, and it holds at most ten comments, the slice at (page-1)*10. |
| Guestbook.PagesGiveEveryComment | api/guestbook.js:51-56 | Pages 1 to totalPages, in order, give every comment once, newest first. |
| Guestbook.FindGuestbook | api/guestbook.js:40 | The discussion titled "guestbook", and none exactly when there is none. |
| Guestbook.HandleFacts | api/guestbook.js:1-63 | No token, an error, a non-ok answer or no guestbook gives the empty response. Otherwise the served page of the comments. |
| Guestbook.NewestFirst | api/guestbook.js:51 | The first comment of page 1 is the newest. |
| Dashboard.DailyOf | api/dashboard.js:41-42 | The daily count of the first stat for the day, 0 when there is none. |
| Dashboard.TopPostsFacts | api/dashboard.js:44-47 | At most ten hits on post pages, in input order, each under its decoded path starting "/post/". |
| Dashboard.BookSlug | api/dashboard.js:51-54 | A slug exactly when the path is `/book/<x>`…; it is non-empty, has no "/", and the path continues with "/" or ends. |
| Dashboard.Visits | api/dashboard.js:50-53 | The visits of the hits on book pages, each with a non-empty slug. |
| Dashboard.FindSlug | api/dashboard.js:55 | The position of the slug in the table, or the table length when absent. |
| Dashboard.AggregateBooks | api/dashboard.js:49-60 | The forEach equals the reference `BookTable`. |
| Dashboard.RecordHit | api/dashboard.js:52-59 | One forEach step equals one reference visit. |
| Dashboard.BookTableFacts | api/dashboard.js:49-60 | One entry per slug, in order of first visit. Each count is the sum of its visits. Each title is the exact `/book/<slug>` hit's, or else the first visit's. |
| Dashboard.VisitStep | api/dashboard.js:55-59 | The reference definitions, one visit later. |
| Dashboard.RecordedEntry | api/dashboard.js:55-59 | The visited book's entry after the visit. |
| Dashboard.TopBooksFacts | api/dashboard.js:62-64 | At most three books, in non-increasing count order, each from the table; no book left out outcounts one listed. |
| Dashboard.HandleRequest | api/dashboard.js:15-74 | The handler equals the reference `Handle`. |
| Dashboard.HandleFailures | api/dashboard.js:17-73 | No token, a thrown request, an undecodable path or no answer at all gives zero visitors and empty lists. |
| Dashboard.HandleBooks | api/dashboard.js:49-64 | Each book listed counts all hits under `/book/<slug>`, and at most three are listed. |
| AdminLogin.ReadBody | api/admin/login.js:8-9 | The body is the chunks concatenated in order. |
| AdminLogin.Login | api/admin/login.js:1-34 | Exactly one response is written, and its status is `LoginStatus`. |
| AdminLogin.LoginStatus | api/admin/login.js:2-32 | 405 for other methods; 400 for an unparsable body; 500 for an unset or empty password; then 200 iff the password matches, else 401. |
| AdminStats.GcFetch | api/admin/stats.js:3-25 | At most two requests. A second only after 429 or a throw on the first. The body of the first ok answer, else null. |
| AdminStats.RemoveFirst | api/admin/stats.js:29 | `replace` with a string pattern removes the first occurrence only. |
| AdminStats.EmptyPasswordAcceptsBareBearer | api/admin/stats.js:27-31 | As written, an empty ADMIN_PASSWORD accepts the header "Bearer ". |
| AdminStats.VerifyPassword | api/admin/stats.js:27-31 | Corrected: nothing is accepted unless the password is set and non-empty. |
| AdminStats.VerifyPasswordAgrees | api/admin/stats.js:27-31 | The two agree whenever a password is configured; an unset one authorizes neither. |
| AdminStats.BearerHeaderAccepted | api/admin/stats.js:27-31 | `Bearer <password>` is accepted exactly when the password is the configured one. |
| AdminStats.ForbiddenWithoutUpstream | api/admin/stats.js:33-39 | With the corrected check `VerifyPassword`, an unaccepted request gets 403 and no upstream request. An accepted one gets 200. |
| AdminStats.StatsDefaults | api/admin/stats.js:86-100 | Missing data gives zero visitors, empty lists and a null rate limit. |
| AdminPage.FindKey | src/page/admin/Admin.jsx:32 | The key's position in the table, or its length when absent. |
| AdminPage.Accumulate | src/page/admin/Admin.jsx:32 | One forEach step equals one reference addition. |
| AdminPage.TallyFacts | src/page/admin/Admin.jsx:28-34 | Each key once, with the total of its values. The values add up to the input's total. |
| AdminPage.KeyLeIsTotalPreorder | src/page/admin/Admin.jsx:35 | The key comparison is a total preorder. |
| AdminPage.AggregatedFacts | src/page/admin/Admin.jsx:28-36 | Distinct keys in ascending order, exactly the items' keys, each with its total; the grand total is kept. |
| AdminPage.AggregateDaily | src/page/admin/Admin.jsx:28-36 | The nested forEach plus sort equals the aggregation of every stat's daily value (missing as 0). |
| AdminPage.AccumulateStats | src/page/admin/Admin.jsx:31-33 | The inner forEach extends the tally by one hit's stats. |
| AdminPage.SortByKey | src/page/admin/Admin.jsx:35 | The entries sorted by key. |
| AdminPage.MonthOf | src/page/admin/Admin.jsx:53 | The first seven characters of the day. |
| AdminPage.AggregateMonthly | src/page/admin/Admin.jsx:50-57 | Equals the aggregation of the daily totals by month. |
| AdminPage.MonthlyFacts | src/page/admin/Admin.jsx:50-57 | The monthly totals keep the overall total, and each month totals the days starting with it. |
| AdminPage.ChartWindows | src/page/admin/Admin.jsx:63-67 | Daily: the last (at most) seven entries. Weekly: the last eight. Monthly: every day's month is there. |
| AdminPage.MaxVal | src/page/admin/Admin.jsx:69 | At least 1, at least every value, and 1 or one of the values. |
| AdminPage.HitsTableFacts | src/page/admin/Admin.jsx:109-123 | top + rest is every page, sorted by count descending. top holds at most 5. The toggle shows iff rest is non-empty. |
| AdminPage.ItemName | src/page/admin/Admin.jsx:183 | Never empty: the name when set, "Unknown" when nothing is. |
| AdminPage.StatBarCardFacts | src/page/admin/Admin.jsx:164-193 | The empty message iff there is no data; otherwise the first (at most) eight items. |
| AdminPage.ReferrersCardAlwaysEmpty | src/page/admin/Admin.jsx:317 | The referrers card reads a field the statistics response never has, so it always shows the empty message. |
| DevPost.LastOnLine | src/page/dev/DevPost.jsx:18 | The last position on a line before its terminator. |
| DevPost.MatchHeading | src/page/dev/DevPost.jsx:18-21 | A match at position i is a line start with one to three '#', whitespace and a non-empty rest of the line. |
| DevPost.MatchHeadingAt | src/page/dev/DevPost.jsx:18-21 | Conversely, one to three '#' at a line start, whitespace and a non-whitespace character always match, with that level and the text running to the end of the line. |
| DevPost.LineHeadingFacts | src/page/dev/DevPost.jsx:17-31 | A line gives a heading iff it is one to three '#', whitespace and a text; the heading has that level and that text trimmed. |
| DevPost.HeadingsOfLines | src/page/dev/DevPost.jsx:17-31 | For a content made of lines joined by '\n', the headings are exactly those of its heading lines, in line order. |
| DevPost.LineInText | src/page/dev/DevPost.jsx:17-31 | Inside a text, a line contributes its own match (or none) and the search resumes after it. |
| DevPost.BareHashTakesNextLine | src/page/dev/DevPost.jsx:18 | A line holding only `#` takes the next line as its heading text, since the whitespace of the pattern spans the line break. |
| DevPost.HeadingsWellFormed | src/page/dev/DevPost.jsx:17-31 | Every heading found has level 1 to 3 and trimmed text, and its id is the slug of that text. |
| DevPost.ExtractHeadings | src/page/dev/DevPost.jsx:17-31 | The `exec` loop returns exactly the reference `HeadingsFrom(content, 0)`. |
| DevPost.ExecAt | src/page/dev/DevPost.jsx:21 | One `exec` attempt advances and splits the headings into the one found here and the rest. |
| DevPost.SingleHeadingLine | src/page/dev/DevPost.jsx:17-31 | A single `#`/`##`/`###` line with a text gives exactly that heading with that level. |
| DevPost.Slug | src/page/dev/DevPost.jsx:24-27 | An id has no whitespace, no upper-case ASCII letter, and only word characters, Hangul syllables and dashes. |
| DevPost.SlugIdempotent | src/page/dev/DevPost.jsx:24-27 | An id is its own slug. |
| DevPost.ResolvePath | src/page/dev/DevPost.jsx:190-195 | The for loop over the parts equals the reference `ResolveParts`. |
| DevPost.PlainPartsAppend | src/page/dev/DevPost.jsx:194 | Parts other than "." and ".." are appended. |
| DevPost.DotDotCancels | src/page/dev/DevPost.jsx:193-194 | ".." undoes the part before it, and "." changes nothing. |
| DevPost.ResolvedParts | src/page/dev/DevPost.jsx:190-195 | Every resolved part comes from the directory or from the source. |
| DevPost.ResolveSrcFacts | src/page/dev/DevPost.jsx:187-197 | Empty and `http(s)://` sources are kept; any other starts with the raw-content URL and a slash. |
| DevPost.ResolvePartsAppend | src/page/dev/DevPost.jsx:192-195 | Resolving two runs of parts one after the other is resolving them joined. |
| DevPost.ResolveSrcPlain | src/page/dev/DevPost.jsx:187-197 | A relative source with no "." or ".." part resolves to `<raw>/dev/<category>/<src>`. |
| DevPost.ResolveSrcParent | src/page/dev/DevPost.jsx:187-197 | `../<rest>` with plain parts, under a one-part category, resolves to `<raw>/dev/<rest>`. |
| DevPost.ClampFontSize | src/page/dev/DevPost.jsx:134 | Always within 14..22, and the unclamped size when that is in range. |
| DevPost.ReaderSettings.constructor | src/page/dev/DevPost.jsx:83-92 | The font size is the decimal number that opens the saved string (`parseInt(saved, 10)`), or 16 when nothing non-empty is saved; the family is the saved one or 'default'; sepia is on only for the saved 'true'. |
| DevPost.ReloadKeepsFontSize | src/page/dev/DevPost.jsx:83-86 | After a change of size, settings read back from the same storage have the new, clamped size. |
| GitNames.ParseDecimalOfNat | src/page/dev/DevPost.jsx:85 | `parseInt` of a number written in decimal, followed by anything that is not a digit, is that number. |
| DevPost.ReaderSettings.ChangeFontSize | src/page/dev/DevPost.jsx:132-138 | The size moves by delta within 14..22 and is saved. |
| DevPost.ReaderSettings.ChangeFontFamily | src/page/dev/DevPost.jsx:140-143 | The family is set and saved. |
| DevPost.ReaderSettings.ToggleSepia | src/page/dev/DevPost.jsx:145-151 | Flips the flag and saves the new value. |
| DevPost.ToggleTwice | src/page/dev/DevPost.jsx:145-151 | Toggling twice restores the flag, and the saved value agrees with it. |
| DevPost.SavedSizeReadsBack | src/page/dev/DevPost.jsx:83-86 | After a change the saved size reads back as the new size. |
| DevHome.PaginationFacts | src/page/dev/DevHome.jsx:83-91 | A page shows at most five posts. It is non-empty iff it is within 1..totalPages, and then it is the slice at (p-1)*5. Pages 1..totalPages together are the filtered list. |
| DevHome.ChipCountFacts | src/page/dev/DevHome.jsx:144-148 | A chip counts what the list shows once it is selected with no search; "all" counts every post. |
| DevHome.EmptyMessageFacts | src/page/dev/DevHome.jsx:171-177 | A message iff the settled list is empty. "No posts yet" only when there are none; "no results" only when a filter is active. |
| DevHome.ControlsFacts | src/page/dev/DevHome.jsx:189-213 | Shown iff there is more than one page; pages 1..totalPages; prev disabled iff page 1; next disabled iff the last page. |
| DevHome.Pager.constructor | src/page/dev/DevHome.jsx:82 | Starts on page 1 with the store's category and query. |
| DevHome.Pager.SelectCategory | src/page/dev/DevHome.jsx:98-100 | A new category resets to page 1; choosing the same one changes nothing. |
| DevHome.Pager.Search | src/page/dev/DevHome.jsx:98-100 | A new query resets to page 1; the same one changes nothing. |
| DevHome.Pager.GoTo | src/page/dev/DevHome.jsx:200-204 | Moves to the chosen page. |
| DevHome.Pager.Prev | src/page/dev/DevHome.jsx:191-195 | One page back, or nothing on page 1. |
| DevHome.Pager.Next | src/page/dev/DevHome.jsx:210-214 | One page on, or nothing on the last page. |
| DevHome.ChooseCategoryShowsFirstPage | src/page/dev/DevHome.jsx:85-100 | After a new category is chosen the first five filtered posts show. |
| Reading.RelativeTimeBuckets | src/page/reading/Reading.jsx:10-25 | The bucket is the first whose bound (1 min, 1 h, 1 day, 7 days, 35 days) the elapsed time is under. Its count is the elapsed time over the unit; months are days / 30. |
| Reading.AllOverCounted | src/page/reading/Reading.jsx:189-197 | As written, books whose status is "all" are counted again on the 'all' card. |
| Reading.AllCardDisagrees | src/page/reading/Reading.jsx:189-215 | One book with status "all" shows 2 on the card while its list holds 1. |
| Reading.CountStatuses | src/page/reading/Reading.jsx:189-197 | The loop equals the corrected tally starting from all = number of books. |
| Reading.TallyBounds | src/page/reading/Reading.jsx:191-195 | The tally leaves 'all' alone and adds at most one per book. |
| Reading.TallyCount | src/page/reading/Reading.jsx:191-195 | Each of the four statuses counts exactly its books. |
| Reading.CountsMatchList | src/page/reading/Reading.jsx:189-215 | Each card and tab counts what its filter lists; all is the number of books and the four together are at most that; the list is a subsequence holding exactly the books of that status. |
| Reading.RemovalFacts | src/page/reading/Reading.jsx:199-205 | Exactly the other chapters' entries, in order; removing again changes nothing. |
| Reading.RowFacts | src/page/reading/Reading.jsx:281-304 | The rank is at least 1. The bar and the label agree, both completed iff progress ≥ 100; otherwise a percentage under 100. |
| Reading.ReadingPage.constructor | src/page/reading/Reading.jsx:180-187 | The saved history, or none, and the filter 'all'. |
| Reading.ReadingPage.RemoveHistoryItem | src/page/reading/Reading.jsx:199-205 | Drops that chapter's entries and saves the same list. |
| Reading.ReadingPage.ClearAllHistory | src/page/reading/Reading.jsx:207-210 | Empties the history and removes the key. |
| Reading.ReadingPage.SetStatusFilter | src/page/reading/Reading.jsx:249 | Sets the filter only. |
| Reading.RemovalPersists | src/page/reading/Reading.jsx:183-205 | After a removal a later visit reads back exactly the history shown. |
| BookCard.StarsFacts | src/page/home/_components/BookCard.jsx:10-12 | Five stars. Star i is full iff the rating is at least i + 1, half iff it is i plus a half or more. Full stars form a prefix and empty stars a suffix. |
| BookCard.StarsExtremes | src/page/home/_components/BookCard.jsx:10-12 | A rating of five or more fills every star; under a half, none. |
| BookCard.CardFacts | src/page/home/_components/BookCard.jsx:45-90 | Fallback cover iff no cover or a failed image. Stars iff rated above 0, and then the five of the star rule. Tags are the first min(4, n). Badge iff a status. |
| BookPage.RootSearchFacts | src/page/book/Book.jsx:78-82 | Root chapters keep their order, and are exactly those whose lower-cased name contains the trimmed lower-cased query. |
| BookPage.KeepGroupFacts | src/page/book/Book.jsx:84-95 | A folder survives iff one of its chapters matches, and then holds just its matching chapters, in order. |
| BookPage.BlankQueryKeepsAll | src/page/book/Book.jsx:78-95 | A blank query keeps every chapter and every non-empty group. |
| BookPage.MessageFacts | src/page/book/Book.jsx:97-256 | Results iff some chapter matches. "No chapters" iff there are none. "No results" iff there are some and none match. |
| BookPage.RatingStars | src/page/book/Book.jsx:21-23 | Five stars by BookCard's rule, only for a positive rating. |
| SearchResults.HighlightFacts | src/page/home/_components/SearchResults.jsx:5-20 | Plain iff the query or text is empty or there is no match. Marked: before + mark + after is the text, the mark has the query's length and matches it, and no earlier match exists. |
| SearchResults.MarkedIsMatch | src/page/home/_components/SearchResults.jsx:8-16 | A text is marked only when it contains the query ignoring case, and the mark then matches it. |
| SearchResults.DropdownFacts | src/page/home/_components/SearchResults.jsx:30-107 | "Nothing found" iff no books, no content and not indexing. "No content" iff not indexing and no content but some books. An empty label never shows beside content results, and the progress bar shows iff indexing. |
| SearchResults.ProgressWidthFacts | src/page/home/_components/SearchResults.jsx:77-81 | 0 with no total; otherwise within 0..100, 100 when done, and strictly increasing with `done`. |
| Footer.SecretClicks.constructor | src/page/_components/footer/Footer.jsx:29-30 | Count 0, no timer. |
| Footer.SecretClicks.Click | src/page/_components/footer/Footer.jsx:32-46 | Navigates iff this is the third click. Then the count resets and no timer is armed; otherwise the count grows and a timer is pending. |
| Footer.SecretClicks.TimerFires | src/page/_components/footer/Footer.jsx:43-45 | The timer resets the count. |
| Footer.ThreeClicks | src/page/_components/footer/Footer.jsx:32-46 | Three clicks with no pause navigate exactly on the third. |
| Footer.PauseStartsOver | src/page/_components/footer/Footer.jsx:43-45 | A pause between clicks starts the count over. |
| Footer.CountBelowThree | src/page/_components/footer/Footer.jsx:37-41 | The count stays below three. |
| Footer.Replay | src/page/_components/footer/Footer.jsx:32-46 | Over any run of clicks and timer firings, it navigates exactly at the clicks where the earlier events leave the count at 2. |
| AuthContext.Auth.constructor | src/context/AuthContext.jsx:6-7 | Not authenticated, loading, over the given storage. |
| AuthContext.Auth.Startup | src/context/AuthContext.jsx:9-30 | No token: no request, not authenticated. With one: authenticated iff ok, the token removed otherwise. Loading ends false. |
| AuthContext.Auth.Login | src/context/AuthContext.jsx:32-45 | On ok the password becomes the token, the session is authenticated and the result is true; otherwise false and nothing changes. |
| AuthContext.Auth.Logout | src/context/AuthContext.jsx:47-50 | Removes the token and the session. |
| AuthContext.Auth.GetToken | src/context/AuthContext.jsx:52 | The stored token. |
| AuthContext.LoginAgainstEndpoint | src/context/AuthContext.jsx:32-45 | Against the login endpoint, login succeeds iff the password is the configured one. |
| AuthContext.LogoutThenRestart | src/context/AuthContext.jsx:47-50 | After logout a restart makes no request and stays unauthenticated. |

## Left out

- Rendering, CSS, animations, Helmet, Giscus, routing and the context-only pages: they hold no statable logic.
- `fetchBookList` (src/api/github.js:189-231): it parses info.json and sorts by `new Date`, which is date parsing outside the model. Book status and rating come from that info.json through `...info`. So `Reading.ShelfBook` and `BookCard.CardBook` carry them as plain fields, and the listing's `BookSummary` does not.
- `decodeBase64`, `TextDecoder`, `Buffer`, `encodeURIComponent`, `encodeURI` and `decodeURIComponent`: foreign codecs, taken as parameters.
- `formatDate`, `fetchCommitDates`, `aggregateWeekly` and the UTC day arithmetic of the endpoints: date arithmetic. The commit dates, the weekly table and the day strings are inputs.
- ChapterIndex.ScheduleDoesNotMatter: the worker pool is run one task at a time, in claim order. The real interleaving of five workers is stated only as a multiset of entries.
- `Promise.all` fan-outs: each is a sequential loop over the same inputs, whose results the source does not order.
- The setTimeout delays in gcFetch, the toast and copy timers, and the clipboard and `window.open` calls. The footer's timer firing is an explicit event.
- Floating point: the read-progress bar, `useCountUp`, the chart and stat bar widths and the rate-limit card. Ratings are exact reals, and `ProgressWidth` is a real ratio.
- Unicode case folding: `toLowerCase` is ASCII only, so a non-ASCII upper-case letter is not folded.
- stripMarkdown: each regex pass is a hand-written matcher for that pattern, not a general regex engine.
- JavaScript object quirks: integer-like keys come first in `Object.keys`, and keys like `__proto__` behave specially. Association lists keep plain insertion order.
- AdminStats: the 500 answer after an exception inside the handler is not modelled. The handler's answer is 403 or 200.
- DevPost.ReaderSettings.constructor: a non-empty saved font size that does not parse (`parseInt` giving NaN) makes the source's size NaN; the model takes 16 there, having no NaN.
- AdminPage.HitsTableFacts: a path on which `decodeURIComponent` would throw, crashing the page, is not modelled; paths are decoded by a total function.
- The history in localStorage is kept as a value, not as a JSON string. The stringify/parse round trip is taken as exact.
- DevHome.Pager: after a reload the current page can exceed totalPages, since it is reset only when a filter changes. React also renders once with the old page before the reset effect runs. The model applies the reset at once.
- Skeleton and loading views, error banners and retry buttons: presentation.
- The guestbook's and dashboard's GraphQL and REST request bodies: the answers are inputs.
- String lengths and positions: a Dafny `string` is a sequence of code points, while JavaScript's `length`, `indexOf` and `slice` count UTF-16 code units, so a character outside the Basic Multilingual Plane (an emoji, say) counts once here and twice there.
- SearchStore.SnippetStart: the offset of 30 counts code points, not UTF-16 units; in the browser each astral character before the match uses two of the 30, so fewer characters are shown.
- SearchStore.SnippetEnd: the offset of 30 counts code points, not UTF-16 units; in the browser each astral character after the match uses two of the 30, so fewer characters are shown.
- SearchStore.SnippetFacts: the window and its bound of query + 60 characters count code points, not UTF-16 units; the browser's window can hold fewer characters and can cut an astral character in half.
- SearchStore.ShortQueryFindsNothing: "shorter than two characters" counts code points, so a single astral character, which is two UTF-16 units and does search in the browser, finds nothing here.
- Line terminators: JavaScript's `^`, `$` and `.` also treat U+2028 and U+2029 as line terminators, and `\s` covers more white space (U+00A0, U+FEFF and the Unicode space separators). The model knows '\n' and '\r' as terminators and the ASCII white space only.
- DevPost.HeadingsOfLines: a line of one to three '#' followed only by white space is excluded, because there the pattern's `\s+` runs over the line break and takes the next line as the heading text (DevPost.BareHashTakesNextLine states that case).
- DevPost.Slug: the ids the rendered h1-h3 get from `String(children)` are not modelled. They can differ from the table of contents, which slugs the raw heading text (`## **Bold**` gives "bold" there and "object-object" on the page).
- DevPosts.TextField: a front-matter value written in brackets is parsed as a list, and `meta.title || entryName` keeps that list, because a list is truthy even when empty. The model falls back to the slug (or to "" for the date and description) for any value that is not a text.
- DevPosts.PostFrom: a list-valued title, date or description is not carried into the post, so the post's fields are always texts (see `DevPosts.TextField`).
- DevPosts.LoadEntry: a list-valued title or date is read as the fallback; in the source it stays a list.
- DevPosts.FetchDevPostList: in the source a list-valued title (or date, when both posts are dated) makes the comparator's `localeCompare` throw, and the `catch` then returns an empty list. The model sorts such a post under the fallback title instead.
- DevPosts.FetchDevPost: a list-valued title, date or description reaches the page as a list in the source and as the fallback here.
- DevPosts.PostOfSource: the post is built by `DevPosts.PostFrom`, so it shares that member's treatment of list values.
- DevPosts.UntitledPostUsesSlug: states only the case of a missing title; a title that is present but empty or a list is not covered.
- Sitemap.GenerateUrls: a listing request that throws (a network error, or an answer whose body is not JSON) rejects `generateSitemap`, and `.catch(console.error)` then ends the script with no file written. Only non-ok answers, which `fetchJSON` turns into null and the script skips, are modelled, as a missing listing.
- BookDetail.FetchBookDetail: the `...info` spread, by which info.json can override any field of the detail, is not modelled, and neither is each chapter's `date`, taken from its commit history or '' when that request throws. `BookDetail.DetailOf` likewise holds the listing-derived fields only.
- GitNames.GetChapterOrder: the leading digit run is read as an exact integer; `parseInt` loses precision above 2^53.
- SearchStore.CachedIndex: a saved item with no numeric timestamp is not modelled. In the source `Date.now() - undefined` is NaN, the age test is false, and the cache is kept; the model's saved item always has an integer timestamp. A fresh saved item with no `index` field is removed as unparseable in the model, while in the source `cached.index` is undefined, the item stays in storage and the index is rebuilt.
- AdminLogin.ReadBody: the chunks are concatenated as strings. In the source each Buffer chunk is decoded on its own when appended, so a multi-byte character split across two chunks becomes U+FFFD.

## Findings

| source | as written | input that shows it | evidently intended | confidence | as-written member | corrected member |
|---|---|---|---|---|---|---|
| src/api/github.js:610-613 | The comparator uses dates only when both posts have one, and titles otherwise. This is not transitive, so `sort` may return any order. | a (title "z", 2024-02), c (title "a", 2024-01), b (title "m", undated): a before c, c before b, b before a | Dated posts newest first, then undated posts by title. This also reorders a pair of one dated and one undated post: dated "z" and undated "a" come out ["a", "z"] from the source's comparator and ["z", "a"] from the corrected one. | high; not executed | DevPosts.AsWrittenHasCycle | DevPosts.PostBeforeIsTotalPreorder |
| api/admin/stats.js:27-31 | The password is compared with `process.env.ADMIN_PASSWORD` even when that is empty. | ADMIN_PASSWORD="" and the header "Bearer " | Refuse every request when no password is configured, as the login endpoint does (api/admin/login.js:15-19) | medium; not executed | AdminStats.EmptyPasswordAcceptsBareBearer | AdminStats.VerifyPassword |
| src/api/github.js:577-580 | `findMarkdown` tests the raw, still-quoted name for ".md", so a folder post whose markdown file has a non-ASCII name is skipped from the list. | a folder "p" holding `"\352\270\200.md"` (the file 글.md) | Decode the names first, as `fetchDevPost` does (src/api/github.js:636-637) | high; not executed | DevPosts.QuotedMarkdownSkipped | DevPosts.ListAgreesWithPage |
| src/page/reading/Reading.jsx:189-197 | `counts[book.status] !== undefined` also holds for the status "all", so such a book is counted a second time on the 'all' card. | one book whose status is "all" | Count only the four statuses; 'all' stays the number of books | medium; not executed | Reading.AllCardDisagrees | Reading.CountsMatchList |
