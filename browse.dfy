/** What the book store (src/store/useBookStore.js) and the dev store
    (src/store/useDevStore.js) share: the outcome of a request, the category
    chips, the category filter and prev/next navigation. */
module Browse {
  import opened Common

  /** A request that settled: its value, or the message of its error. */
  datatype Response<T> = Ok(value: T) | Failed(message: string)

  const AllCategories: string := "all"

  /** `selectedCategory === 'all' || item.category === selectedCategory` */
  predicate InCategory(category: string, selected: string)
  {
    selected == AllCategories || category == selected
  }

  // ---------------------------------------------------------------------
  // Category chips

  predicate NonEmpty(s: string) { s != "" }

  /** `['all', ...[...new Set(categories.filter(Boolean))].sort()]` */
  function CategoryList(categories: seq<string>): seq<string>
  {
    [AllCategories] + SortStrings(Distinct(Filter(categories, NonEmpty)))
  }

  /** A distinct sequence holds each element once. */
  lemma {:induction false} DistinctOnce<T>(s: seq<T>, x: T)
    requires forall i, j :: 0 <= i < j < |s| ==> s[i] != s[j]
    ensures multiset(s)[x] <= 1
  {
    if s != [] {
      var init := s[..|s| - 1];
      DistinctOnce(init, x);
      assert s == init + [s[|s| - 1]];
      if s[|s| - 1] == x {
        forall i | 0 <= i < |init| ensures init[i] != x {
          assert init[i] == s[i];
        }
      }
    }
  }

  /** An element at two positions is there at least twice. */
  lemma TwiceCounted<T>(s: seq<T>, i: nat, j: nat)
    requires i < j < |s| && s[i] == s[j]
    ensures multiset(s)[s[i]] >= 2
  {
    assert s == s[..i] + [s[i]] + s[i + 1..j] + [s[j]] + s[j + 1..];
  }

  /** Sorting a distinct sequence leaves no two equal elements. */
  lemma SortedDistinct(d: seq<string>)
    requires forall i, j :: 0 <= i < j < |d| ==> d[i] != d[j]
    ensures var sorted := SortStrings(d);
      forall i, j :: 0 <= i < j < |sorted| ==> sorted[i] != sorted[j]
  {
    var sorted := SortStrings(d);
    forall i, j | 0 <= i < j < |sorted| ensures sorted[i] != sorted[j] {
      if sorted[i] == sorted[j] {
        TwiceCounted(sorted, i, j);
        DistinctOnce(d, sorted[i]);
      }
    }
  }

  /** The chips: "all" first, then each non-empty category once, in
      increasing order; nothing else. */
  lemma CategoryListFacts(categories: seq<string>)
    ensures CategoryList(categories)[0] == AllCategories
    ensures forall c :: c in CategoryList(categories)[1..] <==> c in categories && c != ""
    ensures var r := CategoryList(categories);
      forall i, j :: 1 <= i < j < |r| ==> StrLe(r[i], r[j]) && r[i] != r[j]
  {
    var sorted := SortStrings(Distinct(Filter(categories, NonEmpty)));
    var r := CategoryList(categories);
    assert r[1..] == sorted;
    ChipMembers(categories);
    ChipOrder(categories, sorted);
    forall i, j | 1 <= i < j < |r| ensures StrLe(r[i], r[j]) && r[i] != r[j] {
      assert r[i] == sorted[i - 1] && r[j] == sorted[j - 1];
    }
  }

  /** The sorted chips after "all" are the non-empty categories. */
  lemma ChipMembers(categories: seq<string>)
    ensures forall c :: c in SortStrings(Distinct(Filter(categories, NonEmpty))) <==> c in categories && c != ""
  {
    var d := Distinct(Filter(categories, NonEmpty));
    forall c ensures c in SortStrings(d) <==> c in categories && c != "" {
      assert c in SortStrings(d) <==> c in multiset(d);
      if c in categories && c != "" {
        assert c in Filter(categories, NonEmpty);
      }
    }
  }

  /** The sorted chips after "all" increase strictly. */
  lemma ChipOrder(categories: seq<string>, sorted: seq<string>)
    requires sorted == SortStrings(Distinct(Filter(categories, NonEmpty)))
    ensures forall i, j :: 0 <= i < j < |sorted| ==> StrLe(sorted[i], sorted[j]) && sorted[i] != sorted[j]
  {
    SortedDistinct(Distinct(Filter(categories, NonEmpty)));
  }

  // ---------------------------------------------------------------------
  // Navigation

  /** Array.prototype.findIndex, with None for -1. */
  function FindIndex<T>(s: seq<T>, p: T -> bool): (r: Option<nat>)
    ensures r.Some? ==> r.value < |s| && p(s[r.value]) && forall j :: 0 <= j < r.value ==> !p(s[j])
    ensures r.None? ==> forall j :: 0 <= j < |s| ==> !p(s[j])
  {
    if s == [] then None
    else if p(s[0]) then Some(0)
    else
      var r := FindIndex(s[1..], p);
      if r.Some? then
        assert forall j :: 1 <= j <= r.value ==> s[j] == s[1..][j - 1];
        Some(r.value + 1)
      else None
  }

  /** The first index satisfying `p` is the one findIndex returns. */
  lemma FindIndexFirst<T>(s: seq<T>, p: T -> bool, i: nat)
    requires i < |s| && p(s[i]) && forall j :: 0 <= j < i ==> !p(s[j])
    ensures FindIndex(s, p) == Some(i)
  {
    var r := FindIndex(s, p);
    assert r.Some?;
    assert !(r.value < i);
    assert !(r.value > i);
  }

  /** `{ prev, next }` around the first item satisfying `p`. */
  datatype Nav<T> = Nav(prev: Option<T>, next: Option<T>)

  function NeighboursOf<T>(s: seq<T>, p: T -> bool): Nav<T>
  {
    match FindIndex(s, p)
    case None => Nav(None, None)
    case Some(i) =>
      Nav(if i > 0 then Some(s[i - 1]) else None, if i < |s| - 1 then Some(s[i + 1]) else None)
  }

  /** `nav` holds the items just before and after index `i` of `s`, and
      none past either end. */
  ghost predicate Around<T>(s: seq<T>, i: int, nav: Nav<T>)
  {
    0 <= i < |s| &&
    (nav.prev.None? <==> i == 0) && (nav.next.None? <==> i == |s| - 1) &&
    (i > 0 ==> nav.prev == Some(s[i - 1])) && (i < |s| - 1 ==> nav.next == Some(s[i + 1]))
  }

  /** No neighbours for an item that is absent; otherwise the items just
      before and after its first occurrence, none at either end. */
  lemma NeighboursFacts<T>(s: seq<T>, p: T -> bool)
    ensures (forall j :: 0 <= j < |s| ==> !p(s[j])) ==> NeighboursOf(s, p) == Nav(None, None)
    ensures forall i :: 0 <= i < |s| && p(s[i]) && (forall j :: 0 <= j < i ==> !p(s[j])) ==>
      Around(s, i, NeighboursOf(s, p))
  {
    forall i | 0 <= i < |s| && p(s[i]) && (forall j :: 0 <= j < i ==> !p(s[j]))
      ensures Around(s, i, NeighboursOf(s, p))
    {
      NeighboursAt(s, p, i);
    }
  }

  /** The neighbours of the first item satisfying `p`, at index `i`. */
  lemma NeighboursAt<T>(s: seq<T>, p: T -> bool, i: nat)
    requires i < |s| && p(s[i]) && forall j :: 0 <= j < i ==> !p(s[j])
    ensures Around(s, i, NeighboursOf(s, p))
  {
    FindIndexFirst(s, p, i);
  }
}
