/** The admin page's computations (src/page/admin/Admin.jsx): the daily and
    monthly visitor totals behind the trend chart, the chart's window, the
    popular-pages table and the breakdown cards. */
module AdminPage {
  import opened Common
  import Dashboard
  import AdminStats

  /** A `[key, value]` pair of Object.entries. */
  datatype Entry = Entry(key: string, value: int)

  // ---------------------------------------------------------------------
  // Totals by key (`map[key] = (map[key] || 0) + value`, as an association
  // list in insertion order)

  function FindKey(table: seq<Entry>, key: string): (k: nat)
    ensures k <= |table|
    ensures k < |table| ==> table[k].key == key
    ensures k == |table| <==> forall i :: 0 <= i < |table| ==> table[i].key != key
  {
    if table == [] then 0
    else if table[0].key == key then 0
    else
      var k := 1 + FindKey(table[1..], key);
      assert forall i :: 1 <= i < |table| ==> table[i] == table[1..][i - 1];
      k
  }

  /** Adds `e.value` to the total of `e.key`, creating it at the end when new. */
  function Add(table: seq<Entry>, e: Entry): seq<Entry>
  {
    var k := FindKey(table, e.key);
    if k < |table| then table[k := Entry(e.key, table[k].value + e.value)] else table + [e]
  }

  function TallyOf(items: seq<Entry>): seq<Entry>
  {
    if items == [] then [] else Add(TallyOf(items[..|items| - 1]), items[|items| - 1])
  }

  /** One forEach step on the totals. */
  method Accumulate(table: seq<Entry>, key: string, value: int) returns (r: seq<Entry>)
    ensures r == Add(table, Entry(key, value))
  {
    var k := FindKey(table, key);
    if k == |table| {
      r := table + [Entry(key, 0)];
    } else {
      r := table;
    }
    r := r[k := Entry(key, r[k].value + value)];
  }

  function Keys(s: seq<Entry>): seq<string>
  {
    Map(s, (e: Entry) => e.key)
  }

  function SumValues(s: seq<Entry>): int
  {
    if s == [] then 0 else SumValues(s[..|s| - 1]) + s[|s| - 1].value
  }

  /** The total of the values under `key`. */
  function SumKey(items: seq<Entry>, key: string): int
  {
    if items == [] then 0
    else SumKey(items[..|items| - 1], key) + (if items[|items| - 1].key == key then items[|items| - 1].value else 0)
  }

  predicate DistinctKeys(s: seq<Entry>)
  {
    forall i, j :: 0 <= i < j < |s| ==> s[i].key != s[j].key
  }

  lemma {:induction false} SumValuesAppend(a: seq<Entry>, b: seq<Entry>)
    ensures SumValues(a + b) == SumValues(a) + SumValues(b)
  {
    if b != [] {
      assert (a + b)[..|a + b| - 1] == a + b[..|b| - 1];
      SumValuesAppend(a, b[..|b| - 1]);
    } else {
      assert a + b == a;
    }
  }

  lemma SumValuesUpdate(s: seq<Entry>, k: nat, e: Entry)
    requires k < |s|
    ensures SumValues(s[k := e]) == SumValues(s) - s[k].value + e.value
  {
    assert s == s[..k] + [s[k]] + s[k + 1..];
    assert s[k := e] == s[..k] + [e] + s[k + 1..];
    SumValuesAppend(s[..k] + [s[k]], s[k + 1..]);
    SumValuesAppend(s[..k] + [e], s[k + 1..]);
    SumValuesAppend(s[..k], [s[k]]);
    SumValuesAppend(s[..k], [e]);
  }

  lemma SumKeyStep(items: seq<Entry>, e: Entry, key: string)
    ensures SumKey(items + [e], key) == SumKey(items, key) + (if e.key == key then e.value else 0)
  {
    assert (items + [e])[..|items|] == items;
  }

  lemma {:induction false} SumKeyAbsent(items: seq<Entry>, key: string)
    requires key !in Keys(items)
    ensures SumKey(items, key) == 0
  {
    if items != [] {
      var init := items[..|items| - 1];
      assert Keys(items) == Keys(init) + [items[|items| - 1].key];
      SumKeyAbsent(init, key);
    }
  }

  /** The totals the table holds for `items`. */
  ghost predicate TallyInvariant(table: seq<Entry>, items: seq<Entry>)
  {
    DistinctKeys(table) &&
    (forall key :: key in Keys(table) <==> key in Keys(items)) &&
    (forall i :: 0 <= i < |table| ==> table[i].value == SumKey(items, table[i].key)) &&
    SumValues(table) == SumValues(items)
  }

  lemma AddStep(table: seq<Entry>, items: seq<Entry>, e: Entry)
    requires TallyInvariant(table, items)
    ensures TallyInvariant(Add(table, e), items + [e])
  {
    var all := items + [e];
    assert Keys(all) == Keys(items) + [e.key];
    assert all[..|items|] == items;
    assert SumValues(all) == SumValues(items) + e.value;
    AddKeys(table, e);
    AddSum(table, e);
    AddValues(table, items, e);
  }

  lemma AddKeys(table: seq<Entry>, e: Entry)
    requires DistinctKeys(table)
    ensures DistinctKeys(Add(table, e))
    ensures Keys(Add(table, e)) == if e.key in Keys(table) then Keys(table) else Keys(table) + [e.key]
  {
    var next := Add(table, e);
    var k := FindKey(table, e.key);
    if k < |table| {
      assert forall i :: 0 <= i < |table| ==> Keys(next)[i] == Keys(table)[i];
      assert Keys(table)[k] == e.key;
    } else {
      assert forall i :: 0 <= i < |table| ==> Keys(table)[i] != e.key;
      assert Keys(next) == Keys(table) + [e.key];
    }
  }

  lemma AddSum(table: seq<Entry>, e: Entry)
    ensures SumValues(Add(table, e)) == SumValues(table) + e.value
  {
    var k := FindKey(table, e.key);
    if k < |table| {
      SumValuesUpdate(table, k, Entry(e.key, table[k].value + e.value));
    } else {
      SumValuesAppend(table, [e]);
    }
  }

  lemma AddValues(table: seq<Entry>, items: seq<Entry>, e: Entry)
    requires TallyInvariant(table, items)
    ensures var next := Add(table, e);
      forall i :: 0 <= i < |next| ==> next[i].value == SumKey(items + [e], next[i].key)
  {
    var next := Add(table, e);
    var k := FindKey(table, e.key);
    if k == |table| {
      assert e.key !in Keys(items) by {
        assert forall i :: 0 <= i < |table| ==> Keys(table)[i] != e.key;
      }
      SumKeyAbsent(items, e.key);
    }
    forall i | 0 <= i < |next| ensures next[i].value == SumKey(items + [e], next[i].key) {
      SumKeyStep(items, e, next[i].key);
      if k < |table| && i != k {
        assert next[i] == table[i];
      }
    }
  }

  /** The tally holds each key once, with the total of its values, and its
      values add up to the total of the items. */
  lemma {:induction false} TallyFacts(items: seq<Entry>)
    ensures TallyInvariant(TallyOf(items), items)
  {
    if items != [] {
      var init := items[..|items| - 1];
      TallyFacts(init);
      assert init + [items[|items| - 1]] == items;
      AddStep(TallyOf(init), init, items[|items| - 1]);
    }
  }

  // ---------------------------------------------------------------------
  // Sorting by key (`sort((a, b) => a[0].localeCompare(b[0]))`)

  predicate KeyLe(a: Entry, b: Entry) { StrLe(a.key, b.key) }

  lemma KeyLeIsTotalPreorder()
    ensures TotalPreorder(KeyLe)
  {
    forall a, b ensures KeyLe(a, b) || KeyLe(b, a) { StrLeTotal(a.key, b.key); }
    forall a, b, c | KeyLe(a, b) && KeyLe(b, c) ensures KeyLe(a, c) {
      StrLeTransitive(a.key, b.key, c.key);
    }
  }

  /** The totals of `items` by key, sorted by key. */
  function Aggregated(items: seq<Entry>): seq<Entry>
  {
    SortWith(TallyOf(items), KeyLe)
  }

  lemma {:induction false} SumValuesPerm(a: seq<Entry>, b: seq<Entry>)
    requires multiset(a) == multiset(b)
    ensures SumValues(a) == SumValues(b)
    decreases |a|
  {
    if a == [] {
      assert |b| == |multiset(b)| == 0;
    } else {
      var init, x := a[..|a| - 1], a[|a| - 1];
      assert a == init + [x];
      assert x in multiset(b);
      var j :| 0 <= j < |b| && b[j] == x;
      var others := b[..j] + b[j + 1..];
      assert b == b[..j] + [x] + b[j + 1..];
      assert multiset(others) == multiset(b) - multiset{x};
      assert multiset(init) == multiset(a) - multiset{x};
      SumValuesPerm(init, others);
      SumValuesAppend(b[..j] + [x], b[j + 1..]);
      SumValuesAppend(b[..j], [x]);
      SumValuesAppend(b[..j], b[j + 1..]);
    }
  }

  lemma MultiplicityOne(a: seq<Entry>, p: nat)
    requires DistinctKeys(a) && p < |a|
    ensures multiset(a)[a[p]] == 1
  {
    var x := a[p];
    assert a == a[..p] + [x] + a[p + 1..];
    assert x !in a[..p] by {
      assert forall i :: 0 <= i < p ==> a[..p][i].key != x.key;
    }
    var rest := a[p + 1..];
    assert x !in rest by {
      forall i | 0 <= i < |rest| ensures rest[i].key != x.key {
        assert rest[i] == a[p + 1 + i];
      }
    }
  }

  lemma MultiplicityTwo(b: seq<Entry>, i: nat, j: nat)
    requires i < j < |b| && b[i] == b[j]
    ensures multiset(b)[b[i]] >= 2
  {
    assert b == b[..j] + [b[j]] + b[j + 1..];
    assert b[..j][i] == b[i];
  }

  lemma DistinctKeysPerm(a: seq<Entry>, b: seq<Entry>)
    requires multiset(a) == multiset(b) && DistinctKeys(a)
    ensures DistinctKeys(b)
  {
    forall i, j | 0 <= i < j < |b| ensures b[i].key != b[j].key {
      assert b[i] in multiset(a) && b[j] in multiset(a);
      var p :| 0 <= p < |a| && a[p] == b[i];
      var q :| 0 <= q < |a| && a[q] == b[j];
      if p == q {
        MultiplicityOne(a, p);
        if b[i] == b[j] {
          MultiplicityTwo(b, i, j);
          assert false;
        }
      }
    }
  }

  /** The aggregated entries have distinct keys in ascending order, exactly
      the keys of the items; each value is the total of the items under its
      key, and the values add up to the total of all items. */
  lemma AggregatedFacts(items: seq<Entry>)
    ensures var r := Aggregated(items);
      (forall i, j :: 0 <= i < j < |r| ==> StrLe(r[i].key, r[j].key) && r[i].key != r[j].key) &&
      (forall key :: key in Keys(r) <==> key in Keys(items)) &&
      (forall i :: 0 <= i < |r| ==> r[i].value == SumKey(items, r[i].key)) &&
      SumValues(r) == SumValues(items)
  {
    TallyFacts(items);
    KeyLeIsTotalPreorder();
    SortWithFacts(TallyOf(items), KeyLe);
    PermutedTally(TallyOf(items), Aggregated(items), items);
  }

  /** Any rearrangement of a tally is a tally of the same items. */
  lemma PermutedTally(table: seq<Entry>, r: seq<Entry>, items: seq<Entry>)
    requires TallyInvariant(table, items) && multiset(table) == multiset(r)
    ensures TallyInvariant(r, items)
  {
    DistinctKeysPerm(table, r);
    SumValuesPerm(table, r);
    forall i | 0 <= i < |r| ensures r[i].value == SumKey(items, r[i].key) {
      assert r[i] in multiset(table);
    }
    PermutedKeys(table, r);
  }

  lemma PermutedKeys(table: seq<Entry>, r: seq<Entry>)
    requires multiset(table) == multiset(r)
    ensures forall key :: key in Keys(r) <==> key in Keys(table)
  {
    forall key ensures key in Keys(r) <==> key in Keys(table) {
      if key in Keys(r) {
        var i :| 0 <= i < |r| && Keys(r)[i] == key;
        assert r[i] in multiset(table);
        var j :| 0 <= j < |table| && table[j] == r[i];
        assert Keys(table)[j] == key;
      }
      if key in Keys(table) {
        var j :| 0 <= j < |table| && Keys(table)[j] == key;
        assert table[j] in multiset(r);
        var i :| 0 <= i < |r| && r[i] == table[j];
        assert Keys(r)[i] == key;
      }
    }
  }

  // ---------------------------------------------------------------------
  // aggregateDaily and aggregateMonthly

  function StatItems(stats: seq<Dashboard.Stat>): seq<Entry>
  {
    Map(stats, (s: Dashboard.Stat) => Entry(s.day, s.daily))
  }

  function HitItems(): AdminStats.PageHit -> seq<Entry>
  {
    (h: AdminStats.PageHit) => StatItems(h.stats)
  }

  /** Every daily stat of every hit, as `[day, daily]`, in order. */
  function DailyItems(hits: seq<AdminStats.PageHit>): seq<Entry>
  {
    FlatMap(hits, HitItems())
  }

  /** aggregateDaily: visitors per day over all pages, by ascending day. */
  method AggregateDaily(hits: seq<AdminStats.PageHit>) returns (r: seq<Entry>)
    ensures r == Aggregated(DailyItems(hits))
  {
    var table: seq<Entry> := [];
    for i := 0 to |hits|
      invariant table == TallyOf(DailyItems(hits[..i]))
    {
      table := AccumulateStats(table, DailyItems(hits[..i]), hits[i].stats);
      FlatMapStep(hits, i, HitItems());
    }
    TakeAll(hits);
    r := SortByKey(table);
  }

  /** The inner forEach, over the stats of one hit. */
  method AccumulateStats(table: seq<Entry>, ghost done: seq<Entry>, stats: seq<Dashboard.Stat>)
    returns (r: seq<Entry>)
    requires table == TallyOf(done)
    ensures r == TallyOf(done + StatItems(stats))
  {
    r := table;
    assert done + StatItems(stats[..0]) == done;
    for j := 0 to |stats|
      invariant r == TallyOf(done + StatItems(stats[..j]))
    {
      r := Accumulate(r, stats[j].day, stats[j].daily);
      ghost var next := done + StatItems(stats[..j + 1]);
      assert next == done + StatItems(stats[..j]) + [Entry(stats[j].day, stats[j].daily)];
      assert next[..|next| - 1] == done + StatItems(stats[..j]);
    }
    TakeAll(stats);
  }

  /** `Object.entries(map).sort(...)` */
  method SortByKey(table: seq<Entry>) returns (r: seq<Entry>)
    ensures r == SortWith(table, KeyLe)
  {
    r := [];
    for i := 0 to |table|
      invariant r == SortWith(table[..i], KeyLe)
    {
      r := InsertWith(table[i], r, KeyLe);
      assert table[..i + 1][..i] == table[..i];
    }
    TakeAll(table);
  }

  /** `day.slice(0, 7)`: the month of a yyyy-mm-dd key. */
  function MonthOf(day: string): (m: string)
    ensures |m| == (if |day| < 7 then |day| else 7) && m == day[..|m|]
  {
    if |day| < 7 then day else day[..7]
  }

  function MonthItems(daily: seq<Entry>): seq<Entry>
  {
    Map(daily, (e: Entry) => Entry(MonthOf(e.key), e.value))
  }

  /** aggregateMonthly: the daily totals summed per month, by ascending month. */
  method AggregateMonthly(daily: seq<Entry>) returns (r: seq<Entry>)
    ensures r == Aggregated(MonthItems(daily))
  {
    var table: seq<Entry> := [];
    for i := 0 to |daily|
      invariant table == TallyOf(MonthItems(daily[..i]))
    {
      table := Accumulate(table, MonthOf(daily[i].key), daily[i].value);
      ghost var next := MonthItems(daily[..i + 1]);
      assert next[..i] == MonthItems(daily[..i]);
    }
    assert MonthItems(daily[..|daily|]) == MonthItems(daily);
    r := SortByKey(table);
  }

  lemma {:induction false} MonthItemsTotal(daily: seq<Entry>)
    ensures SumValues(MonthItems(daily)) == SumValues(daily)
  {
    if daily != [] {
      var init := daily[..|daily| - 1];
      MonthItemsTotal(init);
      assert MonthItems(daily)[..|daily| - 1] == MonthItems(init);
    }
  }

  /** The monthly totals keep the overall total, and each month's total is
      that of the days whose key starts with it. */
  lemma MonthlyFacts(daily: seq<Entry>)
    ensures var r := Aggregated(MonthItems(daily));
      SumValues(r) == SumValues(daily) &&
      (forall i, j :: 0 <= i < j < |r| ==> StrLe(r[i].key, r[j].key) && r[i].key != r[j].key) &&
      (forall i :: 0 <= i < |r| ==> r[i].value == SumKey(MonthItems(daily), r[i].key)) &&
      (forall i :: 0 <= i < |daily| ==> MonthOf(daily[i].key) in Keys(r))
  {
    AggregatedFacts(MonthItems(daily));
    MonthItemsTotal(daily);
    var r := Aggregated(MonthItems(daily));
    forall i | 0 <= i < |daily| ensures MonthOf(daily[i].key) in Keys(r) {
      assert Keys(MonthItems(daily))[i] == MonthOf(daily[i].key);
    }
  }

  // ---------------------------------------------------------------------
  // PeriodChart

  datatype Period = Daily | Weekly | Monthly

  const DailyWindow: nat := 7

  const WeeklyWindow: nat := 8

  /** The chart's rows for the selected period. The weekly totals come from
      aggregateWeekly, whose date arithmetic is a parameter here. */
  function ChartData(period: Period, dailyAll: seq<Entry>, weekly: seq<Entry>): seq<Entry>
  {
    match period
    case Weekly => TakeLast(weekly, WeeklyWindow)
    case Monthly => Aggregated(MonthItems(dailyAll))
    case Daily => TakeLast(dailyAll, DailyWindow)
  }

  /** The daily view shows the last (at most) seven days, the weekly view
      the last (at most) eight weeks, and the monthly view every month. */
  lemma ChartWindows(dailyAll: seq<Entry>, weekly: seq<Entry>)
    ensures var d := ChartData(Daily, dailyAll, weekly);
      |d| == (if |dailyAll| < DailyWindow then |dailyAll| else DailyWindow) && d == dailyAll[|dailyAll| - |d|..]
    ensures var w := ChartData(Weekly, dailyAll, weekly);
      |w| == (if |weekly| < WeeklyWindow then |weekly| else WeeklyWindow) && w == weekly[|weekly| - |w|..]
    ensures var m := ChartData(Monthly, dailyAll, weekly);
      forall i :: 0 <= i < |dailyAll| ==> MonthOf(dailyAll[i].key) in Keys(m)
  {
    MonthlyFacts(dailyAll);
  }

  /** `Math.max(...values, 1)` */
  function MaxVal(values: seq<int>): (m: int)
    ensures m >= 1
    ensures forall i :: 0 <= i < |values| ==> values[i] <= m
    ensures m == 1 || m in values
  {
    if values == [] then 1
    else
      var rest := MaxVal(values[..|values| - 1]);
      assert forall i :: 0 <= i < |values| - 1 ==> values[i] == values[..|values| - 1][i];
      if values[|values| - 1] > rest then values[|values| - 1] else rest
  }

  function Values(data: seq<Entry>): seq<int>
  {
    Map(data, (e: Entry) => e.value)
  }

  // ---------------------------------------------------------------------
  // HitsTable

  datatype PageRow = PageRow(path: string, count: int)

  const TopRows: nat := 5

  /** decodeURIComponent, as a parameter. */
  function RowOf(decode: string -> string): AdminStats.PageHit -> PageRow
  {
    (h: AdminStats.PageHit) => PageRow(decode(h.path), h.count)
  }

  function NegRowCount(): PageRow -> int
  {
    (p: PageRow) => -p.count
  }

  /** The pages, most visited first (a stable sort). */
  function Pages(hits: seq<AdminStats.PageHit>, decode: string -> string): seq<PageRow>
  {
    SortBy(Map(hits, RowOf(decode)), NegRowCount())
  }

  datatype HitsTableView = HitsTableView(top: seq<PageRow>, rest: seq<PageRow>, hasMore: bool)

  function HitsTable(hits: seq<AdminStats.PageHit>, decode: string -> string): HitsTableView
  {
    var pages := Pages(hits, decode);
    var top := Take(pages, TopRows);
    var rest := pages[|top|..];
    HitsTableView(top, rest, |rest| > 0)
  }

  /** The top rows and the rest are, together, every page sorted by count
      from most to least visited; the top holds at most five and the "more"
      toggle shows exactly when there is a rest. */
  lemma HitsTableFacts(hits: seq<AdminStats.PageHit>, decode: string -> string)
    ensures var v := HitsTable(hits, decode);
      var all := v.top + v.rest;
      |v.top| <= TopRows &&
      multiset(all) == multiset(Map(hits, RowOf(decode))) &&
      (forall i, j :: 0 <= i < j < |all| ==> all[i].count >= all[j].count) &&
      (v.hasMore <==> |hits| > TopRows) &&
      (v.hasMore <==> v.rest != [])
  {
    PagesFacts(hits, decode, Pages(hits, decode));
    assert HitsTable(hits, decode).top + HitsTable(hits, decode).rest == Pages(hits, decode);
  }

  /** The pages are every row, most visited first. */
  lemma PagesFacts(hits: seq<AdminStats.PageHit>, decode: string -> string, pages: seq<PageRow>)
    requires pages == Pages(hits, decode)
    ensures |pages| == |hits|
    ensures multiset(pages) == multiset(Map(hits, RowOf(decode)))
    ensures forall i, j :: 0 <= i < j < |pages| ==> pages[i].count >= pages[j].count
  {
    SortByFacts(Map(hits, RowOf(decode)), NegRowCount());
    assert |pages| == |multiset(pages)|;
    forall i, j | 0 <= i < j < |pages| ensures pages[i].count >= pages[j].count {
      assert NegRowCount()(pages[i]) <= NegRowCount()(pages[j]);
    }
  }

  // ---------------------------------------------------------------------
  // StatBarCard

  const MaxBars: nat := 8

  /** `item.name || item.id || item.language || 'Unknown'` */
  function ItemName(e: AdminStats.StatEntry): (r: string)
    ensures r != ""
    ensures e.name != "" ==> r == e.name
    ensures e.name == "" && e.id == "" && e.language == "" ==> r == "Unknown"
  {
    if e.name != "" then e.name else if e.id != "" then e.id else if e.language != "" then e.language else "Unknown"
  }

  datatype Card = EmptyCard | Bars(items: seq<AdminStats.StatEntry>, maxVal: int)

  function Counts(items: seq<AdminStats.StatEntry>): seq<int>
  {
    Map(items, (e: AdminStats.StatEntry) => e.count)
  }

  function StatBarCard(data: Option<seq<AdminStats.StatEntry>>): Card
  {
    var items := Take(if data.Some? then data.value else [], MaxBars);
    if items == [] then EmptyCard else Bars(items, MaxVal(Counts(items)))
  }

  /** The card shows the empty message exactly when there is no data, and
      otherwise the first (at most) eight items, scaled by a maximum of at
      least 1 that no shown count exceeds. */
  lemma StatBarCardFacts(data: Option<seq<AdminStats.StatEntry>>)
    ensures var c := StatBarCard(data);
      (c.EmptyCard? <==> data.None? || data.value == []) &&
      (c.Bars? ==> |c.items| <= MaxBars && c.items == data.value[..|c.items|] &&
                   c.maxVal >= 1 && forall i :: 0 <= i < |c.items| ==> c.items[i].count <= c.maxVal)
  {
    var c := StatBarCard(data);
    if c.Bars? {
      forall i | 0 <= i < |c.items| ensures c.items[i].count <= c.maxVal {
        assert Counts(c.items)[i] == c.items[i].count;
      }
    }
  }

  /** The four breakdown cards of the page, fed from the statistics
      response: referrers, browsers, systems, locations. */
  function Cards(stats: AdminStats.StatsResponse): seq<Card>
    requires stats.StatsOk?
  {
    [StatBarCard(None), StatBarCard(Some(stats.browsers)), StatBarCard(Some(stats.systems)),
     StatBarCard(Some(stats.locations))]
  }

  /** The referrers card reads a field the statistics response never has,
      so it always shows the empty message. */
  lemma ReferrersCardAlwaysEmpty(stats: AdminStats.StatsResponse)
    requires stats.StatsOk?
    ensures Cards(stats)[0] == EmptyCard
    ensures Cards(stats)[1].EmptyCard? <==> stats.browsers == []
  {
    StatBarCardFacts(None);
    StatBarCardFacts(Some(stats.browsers));
  }
}
