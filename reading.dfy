/** The reading-status page (src/page/reading/Reading.jsx): the relative
    time shown for a history entry, the per-status counts on the cards and
    tabs, the status-filtered book list, and the reading history kept in
    local storage. */
module Reading {
  import opened Common
  import GitNames

  // ---------------------------------------------------------------------
  // formatRelativeTime

  /** The bucket of an elapsed time, with its whole number of units. */
  datatype Ago =
    | JustNow
    | MinutesAgo(minutes: int)
    | HoursAgo(hours: int)
    | DaysAgo(days: int)
    | WeeksAgo(weeks: int)
    | MonthsAgo(months: int)

  const MsPerMinute: int := 60 * 1000
  const MsPerHour: int := 60 * MsPerMinute
  const MsPerDay: int := 24 * MsPerHour

  /** The time since `timestamp` at `now`, both in milliseconds. Each unit
      is the floor of the previous one over its size; months are days over
      thirty. A timestamp in the future is 'just now'. */
  function RelativeTime(now: int, timestamp: int): Ago
  {
    var diff := now - timestamp;
    var seconds := diff / 1000;
    var minutes := seconds / 60;
    var hours := minutes / 60;
    var days := hours / 24;
    var weeks := days / 7;
    var months := days / 30;
    if seconds < 60 then JustNow
    else if minutes < 60 then MinutesAgo(minutes)
    else if hours < 24 then HoursAgo(hours)
    else if days < 7 then DaysAgo(days)
    else if weeks < 5 then WeeksAgo(weeks)
    else MonthsAgo(months)
  }

  /** The text of a bucket. */
  function AgoText(ago: Ago): string
  {
    match ago
    case JustNow => "방금 전"
    case MinutesAgo(n) => Numeral(n) + "분 전"
    case HoursAgo(n) => Numeral(n) + "시간 전"
    case DaysAgo(n) => Numeral(n) + "일 전"
    case WeeksAgo(n) => Numeral(n) + "주 전"
    case MonthsAgo(n) => Numeral(n) + "개월 전"
  }

  function Numeral(n: int): string
  {
    if n < 0 then "-" + GitNames.NatToString(-n) else GitNames.NatToString(n)
  }

  /** The bucket is the first whose bound the elapsed time is under, and
      its count is the elapsed time over the unit, rounded down: under a
      minute, under an hour, under a day, under a week, under five weeks,
      and otherwise months of thirty days (at least one). */
  lemma RelativeTimeBuckets(now: int, timestamp: int)
    ensures var diff, r := now - timestamp, RelativeTime(now, timestamp);
      (r.JustNow? <==> diff < MsPerMinute) &&
      (r.MinutesAgo? <==> MsPerMinute <= diff < MsPerHour) &&
      (r.HoursAgo? <==> MsPerHour <= diff < MsPerDay) &&
      (r.DaysAgo? <==> MsPerDay <= diff < 7 * MsPerDay) &&
      (r.WeeksAgo? <==> 7 * MsPerDay <= diff < 35 * MsPerDay) &&
      (r.MonthsAgo? <==> 35 * MsPerDay <= diff) &&
      (r.MinutesAgo? ==> 1 <= r.minutes < 60 && r.minutes == diff / MsPerMinute) &&
      (r.HoursAgo? ==> 1 <= r.hours < 24 && r.hours == diff / MsPerHour) &&
      (r.DaysAgo? ==> 1 <= r.days < 7 && r.days == diff / MsPerDay) &&
      (r.WeeksAgo? ==> 1 <= r.weeks < 5 && r.weeks == diff / (7 * MsPerDay)) &&
      (r.MonthsAgo? ==> r.months >= 1 && r.months == diff / (30 * MsPerDay))
  {
    var diff := now - timestamp;
    var seconds := diff / 1000;
    var minutes := seconds / 60;
    var hours := minutes / 60;
    var days := hours / 24;
    assert minutes == diff / MsPerMinute;
    assert hours == diff / MsPerHour;
    assert days == diff / MsPerDay;
    assert days / 7 == diff / (7 * MsPerDay);
    assert days / 30 == diff / (30 * MsPerDay);
  }

  // ---------------------------------------------------------------------
  // Status counts and the filtered list

  /** A book of the list with the status from its info.json ("" when it
      has none). */
  datatype ShelfBook = ShelfBook(slug: string, title: string, status: string)

  const AllStatuses: string := "all"
  const Finished: string := "완독"
  const InProgress: string := "독서중"
  const Planned: string := "예정"
  const Stopped: string := "중단"

  datatype StatusCounts = StatusCounts(all: nat, finished: nat, inProgress: nat, planned: nat, stopped: nat)

  /** `counts[book.status] += 1` for a status that is one of the keys of
      the counts object, which includes 'all' itself. */
  function BumpAsWritten(c: StatusCounts, status: string): StatusCounts
  {
    if status == AllStatuses then c.(all := c.all + 1)
    else if status == Finished then c.(finished := c.finished + 1)
    else if status == InProgress then c.(inProgress := c.inProgress + 1)
    else if status == Planned then c.(planned := c.planned + 1)
    else if status == Stopped then c.(stopped := c.stopped + 1)
    else c
  }

  /** statusCounts as written: all starts at books.length and the forEach
      bumps the key of each book's status. */
  function CountsAsWritten(books: seq<ShelfBook>): StatusCounts
  {
    TallyAsWritten(StatusCounts(|books|, 0, 0, 0, 0), books)
  }

  function TallyAsWritten(start: StatusCounts, books: seq<ShelfBook>): StatusCounts
  {
    if books == [] then start
    else BumpAsWritten(TallyAsWritten(start, books[..|books| - 1]), books[|books| - 1].status)
  }

  function HasStatus(status: string): ShelfBook -> bool
  {
    (b: ShelfBook) => b.status == status
  }

  /** As written, a book whose status is 'all' is counted a second time in
      the 'all' card. */
  lemma {:induction false} AllOverCounted(start: StatusCounts, books: seq<ShelfBook>)
    ensures TallyAsWritten(start, books).all == start.all + |Filter(books, HasStatus(AllStatuses))|
  {
    if books != [] {
      var init, last := books[..|books| - 1], books[|books| - 1];
      AllOverCounted(start, init);
      FilterAppend(init, [last], HasStatus(AllStatuses));
      assert init + [last] == books;
    }
  }

  /** The one-book shelf whose status is 'all' shows 2 on the 'all' card
      while the list filtered by 'all' holds one book. */
  lemma AllCardDisagrees()
    ensures var books := [ShelfBook("b", "B", AllStatuses)];
      CountsAsWritten(books).all == 2 && |FilteredBooks(books, AllStatuses)| == 1
  {
    var books := [ShelfBook("b", "B", AllStatuses)];
    AllOverCounted(StatusCounts(1, 0, 0, 0, 0), books);
  }

  /** `counts[book.status] += 1`, restricted to the four statuses. */
  function Bump(c: StatusCounts, status: string): StatusCounts
  {
    if status == Finished then c.(finished := c.finished + 1)
    else if status == InProgress then c.(inProgress := c.inProgress + 1)
    else if status == Planned then c.(planned := c.planned + 1)
    else if status == Stopped then c.(stopped := c.stopped + 1)
    else c
  }

  function Tally(start: StatusCounts, books: seq<ShelfBook>): StatusCounts
  {
    if books == [] then start else Bump(Tally(start, books[..|books| - 1]), books[|books| - 1].status)
  }

  /** statusCounts: the forEach over the books. */
  method CountStatuses(books: seq<ShelfBook>) returns (counts: StatusCounts)
    ensures counts == Tally(StatusCounts(|books|, 0, 0, 0, 0), books)
  {
    counts := StatusCounts(|books|, 0, 0, 0, 0);
    for i := 0 to |books|
      invariant counts == Tally(StatusCounts(|books|, 0, 0, 0, 0), books[..i])
    {
      assert books[..i + 1][..i] == books[..i];
      counts := Bump(counts, books[i].status);
    }
    TakeAll(books);
  }

  function Sum4(c: StatusCounts): nat
  {
    c.finished + c.inProgress + c.planned + c.stopped
  }

  /** The tally leaves 'all' alone and adds at most one per book across
      the four statuses. */
  lemma {:induction false} TallyBounds(start: StatusCounts, books: seq<ShelfBook>)
    ensures Tally(start, books).all == start.all
    ensures Sum4(Tally(start, books)) <= Sum4(start) + |books|
  {
    if books != [] {
      TallyBounds(start, books[..|books| - 1]);
    }
  }

  /** The tally counts the books of each of the four statuses. */
  lemma {:induction false} TallyCount(start: StatusCounts, books: seq<ShelfBook>, key: string)
    requires key in {Finished, InProgress, Planned, Stopped}
    ensures CountFor(Tally(start, books), key) == CountFor(start, key) + |Filter(books, HasStatus(key))|
  {
    if books != [] {
      var init, last := books[..|books| - 1], books[|books| - 1];
      TallyCount(start, init, key);
      assert init + [last] == books;
      FilterAppend(init, [last], HasStatus(key));
      assert |Filter([last], HasStatus(key))| == if last.status == key then 1 else 0;
      BumpCount(Tally(start, init), last.status, key);
    }
  }

  lemma BumpCount(c: StatusCounts, status: string, key: string)
    requires key in {Finished, InProgress, Planned, Stopped}
    ensures CountFor(Bump(c, status), key) == CountFor(c, key) + if status == key then 1 else 0
  {
  }

  /** filteredBooks */
  function FilteredBooks(books: seq<ShelfBook>, statusFilter: string): seq<ShelfBook>
  {
    if statusFilter == AllStatuses then books else Filter(books, HasStatus(statusFilter))
  }

  /** The count on a card or tab. */
  function CountFor(c: StatusCounts, key: string): nat
  {
    if key == AllStatuses then c.all
    else if key == Finished then c.finished
    else if key == InProgress then c.inProgress
    else if key == Planned then c.planned
    else if key == Stopped then c.stopped
    else 0
  }

  /** Each card and tab shows the number of books its filter lists; the
      four statuses together count no more than all books; the filtered
      list keeps the books' order and holds exactly those with the status. */
  lemma CountsMatchList(books: seq<ShelfBook>, key: string)
    requires key in {AllStatuses, Finished, InProgress, Planned, Stopped}
    ensures var c := Tally(StatusCounts(|books|, 0, 0, 0, 0), books);
      CountFor(c, key) == |FilteredBooks(books, key)| &&
      c.all == |books| && Sum4(c) <= c.all
    ensures IsSubsequence(FilteredBooks(books, key), books)
    ensures key != AllStatuses ==>
      forall b :: b in FilteredBooks(books, key) <==> b in books && b.status == key
  {
    TallyBounds(StatusCounts(|books|, 0, 0, 0, 0), books);
    if key == AllStatuses {
      SubsequenceOfSelf(books);
    } else {
      TallyCount(StatusCounts(|books|, 0, 0, 0, 0), books, key);
      FilterIsSubsequence(books, HasStatus(key));
    }
  }

  // ---------------------------------------------------------------------
  // The reading history

  datatype HistoryItem = HistoryItem(
    bookSlug: string,
    chapterPath: string,
    bookTitle: string,
    chapterTitle: string,
    progress: int,
    timestamp: int)

  const HistoryKey: string := "reading-history"

  predicate Matches(h: HistoryItem, bookSlug: string, chapterPath: string)
  {
    h.bookSlug == bookSlug && h.chapterPath == chapterPath
  }

  function Keeps(bookSlug: string, chapterPath: string): HistoryItem -> bool
  {
    (h: HistoryItem) => !Matches(h, bookSlug, chapterPath)
  }

  /** What removing an entry leaves: exactly the entries for other
      chapters, in their order; removing again changes nothing. */
  lemma RemovalFacts(items: seq<HistoryItem>, bookSlug: string, chapterPath: string)
    ensures var r := Filter(items, Keeps(bookSlug, chapterPath));
      IsSubsequence(r, items) &&
      (forall h :: h in r <==> h in items && !Matches(h, bookSlug, chapterPath)) &&
      Filter(r, Keeps(bookSlug, chapterPath)) == r
  {
    var r := Filter(items, Keeps(bookSlug, chapterPath));
    FilterIsSubsequence(items, Keeps(bookSlug, chapterPath));
    FilterAll(r, Keeps(bookSlug, chapterPath));
  }

  /** A row of the history list: its rank, and whether the bar and the
      label mark the chapter complete. */
  datatype Row = Row(rank: nat, barComplete: bool, text: ProgressLabel, elapsed: Ago)

  datatype ProgressLabel = Completed | Percent(progress: int)

  function RowOf(item: HistoryItem, index: nat, now: int): Row
  {
    Row(index + 1,
        item.progress >= 100,
        if item.progress >= 100 then Completed else Percent(item.progress),
        RelativeTime(now, item.timestamp))
  }

  /** The bar and the label agree, both marking progress of 100 or more;
      a percentage is always under 100. */
  lemma RowFacts(item: HistoryItem, index: nat, now: int)
    ensures var row := RowOf(item, index, now);
      (row.barComplete <==> row.text == Completed) &&
      (row.text == Completed <==> item.progress >= 100) &&
      (row.text.Percent? ==> row.text.progress < 100) &&
      row.rank >= 1
  {
  }

  /** The page's state: the history it shows, the status filter and the
      local storage the history is kept in. */
  class ReadingPage {
    var history: seq<HistoryItem>
    var statusFilter: string
    var storage: map<string, seq<HistoryItem>>

    /** Mounting: the saved history, or none. */
    constructor(stored: map<string, seq<HistoryItem>>)
      ensures storage == stored && statusFilter == AllStatuses
      ensures history == if HistoryKey in stored then stored[HistoryKey] else []
    {
      storage := stored;
      statusFilter := AllStatuses;
      history := if HistoryKey in stored then stored[HistoryKey] else [];
    }

    /** removeHistoryItem: drops the entries of that chapter and saves
        the list that remains. */
    method RemoveHistoryItem(bookSlug: string, chapterPath: string)
      modifies this
      ensures history == Filter(old(history), Keeps(bookSlug, chapterPath))
      ensures storage == old(storage)[HistoryKey := history]
      ensures statusFilter == old(statusFilter)
    {
      var updated := Filter(history, Keeps(bookSlug, chapterPath));
      history := updated;
      storage := storage[HistoryKey := updated];
    }

    /** clearAllHistory */
    method ClearAllHistory()
      modifies this
      ensures history == [] && storage == old(storage) - {HistoryKey}
      ensures statusFilter == old(statusFilter)
    {
      history := [];
      storage := storage - {HistoryKey};
    }

    method SetStatusFilter(key: string)
      modifies this
      ensures statusFilter == key && history == old(history) && storage == old(storage)
    {
      statusFilter := key;
    }
  }

  /** After a removal, a later visit reads back exactly the history shown. */
  method RemovalPersists(page: ReadingPage, bookSlug: string, chapterPath: string) returns (reloaded: ReadingPage)
    modifies page
    ensures fresh(reloaded)
    ensures reloaded.history == page.history == Filter(old(page.history), Keeps(bookSlug, chapterPath))
    ensures forall h :: h in reloaded.history ==> !Matches(h, bookSlug, chapterPath)
  {
    page.RemoveHistoryItem(bookSlug, chapterPath);
    reloaded := new ReadingPage(page.storage);
  }
}
