/** Shared vocabulary of the model: optional values, the string primitives the
    JavaScript code relies on (ASCII case folding, indexOf, trim, split, join),
    stable sorting, filtering, and slice-based pagination. */
module Common {

  datatype Option<T> = None | Some(value: T)

  // ---------------------------------------------------------------------
  // Characters

  predicate IsDigit(c: char) { '0' <= c <= '9' }

  predicate IsAsciiUpper(c: char) { 'A' <= c <= 'Z' }

  predicate IsAsciiLetter(c: char) { 'A' <= c <= 'Z' || 'a' <= c <= 'z' }

  /** The regular-expression class \w: ASCII letters, digits and '_'. */
  predicate IsWordChar(c: char) { IsAsciiLetter(c) || IsDigit(c) || c == '_' }

  /** The regular-expression class \s, restricted to ASCII whitespace. */
  predicate IsWhitespace(c: char) {
    c == ' ' || c == '\t' || c == '\n' || c == '\r' || c == '\U{B}' || c == '\U{C}'
  }

  /** Line terminators as the multiline anchors ^ and $ and the dot see them:
      '\n' and '\r' only (JavaScript also counts U+2028 and U+2029, which
      this model does not). */
  predicate IsLineTerminator(c: char) { c == '\n' || c == '\r' }

  function LowerChar(c: char): (r: char)
    ensures !IsAsciiUpper(r)
    ensures IsAsciiUpper(c) ==> r as int == c as int + 32
    ensures !IsAsciiUpper(c) ==> r == c
  {
    if IsAsciiUpper(c) then (c as int + 32) as char else c
  }

  function UpperChar(c: char): (r: char)
    ensures 'a' <= c <= 'z' ==> r as int == c as int - 32 && IsAsciiUpper(r)
    ensures !('a' <= c <= 'z') ==> r == c
  {
    if 'a' <= c <= 'z' then (c as int - 32) as char else c
  }

  /** toLowerCase, restricted to ASCII: length-preserving, character by character. */
  function Lower(s: string): (r: string)
    ensures |r| == |s|
    ensures forall i :: 0 <= i < |s| ==> r[i] == LowerChar(s[i])
  {
    seq(|s|, i requires 0 <= i < |s| => LowerChar(s[i]))
  }

  lemma LowerAppend(a: string, b: string)
    ensures Lower(a + b) == Lower(a) + Lower(b)
  {
  }

  lemma LowerSlice(s: string, i: nat, j: nat)
    requires i <= j <= |s|
    ensures Lower(s[i..j]) == Lower(s)[i..j]
  {
  }

  // ---------------------------------------------------------------------
  // Substring search

  predicate StartsWith(s: string, p: string) { |p| <= |s| && s[..|p|] == p }

  predicate EndsWith(s: string, p: string) { |p| <= |s| && s[|s| - |p|..] == p }

  predicate OccursAt(s: string, p: string, i: int) {
    0 <= i && i + |p| <= |s| && s[i..i + |p|] == p
  }

  /** The first index at or after `from` where `p` occurs in `s`. */
  function IndexOfFrom(s: string, p: string, from: nat): (r: Option<nat>)
    requires from <= |s|
    decreases |s| - from
    ensures r.Some? ==> from <= r.value && OccursAt(s, p, r.value)
    ensures r.Some? ==> forall j :: from <= j < r.value ==> !OccursAt(s, p, j)
    ensures r.None? ==> forall j :: from <= j ==> !OccursAt(s, p, j)
  {
    if OccursAt(s, p, from) then Some(from)
    else if from == |s| then None
    else IndexOfFrom(s, p, from + 1)
  }

  /** String.prototype.indexOf, with None standing for -1. */
  function IndexOf(s: string, p: string): (r: Option<nat>)
    ensures r.Some? ==> OccursAt(s, p, r.value) && forall j :: 0 <= j < r.value ==> !OccursAt(s, p, j)
    ensures r.None? ==> forall j :: !OccursAt(s, p, j)
  {
    IndexOfFrom(s, p, 0)
  }

  /** String.prototype.includes. */
  predicate Contains(s: string, p: string) { IndexOf(s, p).Some? }

  lemma ContainsAt(s: string, p: string, i: int)
    requires OccursAt(s, p, i)
    ensures Contains(s, p)
  {
  }

  lemma EmptyOccursEverywhere(s: string)
    ensures IndexOf(s, "") == Some(0)
  {
    assert OccursAt(s, "", 0);
  }

  /** Case-insensitive containment as `a.toLowerCase().includes(b.toLowerCase())`. */
  predicate ContainsIgnoreCase(s: string, p: string) { Contains(Lower(s), Lower(p)) }

  // ---------------------------------------------------------------------
  // Trimming

  function TrimStart(s: string): (r: string)
    ensures |r| <= |s|
    ensures r == [] || !IsWhitespace(r[0])
  {
    if s != [] && IsWhitespace(s[0]) then TrimStart(s[1..]) else s
  }

  /** What TrimStart keeps is a suffix of its input. Kept out of TrimStart's
      own contract: as an automatic fact it sends the solver round in circles
      whenever it also knows that nothing was trimmed. */
  lemma {:induction false} TrimStartSuffix(s: string)
    ensures TrimStart(s) == s[|s| - |TrimStart(s)|..]
    decreases |s|
  {
    if s != [] && IsWhitespace(s[0]) {
      TrimStartSuffix(s[1..]);
    }
  }

  function TrimEnd(s: string): (r: string)
    ensures |r| <= |s| && r == s[..|r|]
    ensures r == [] || !IsWhitespace(r[|r| - 1])
  {
    if s != [] && IsWhitespace(s[|s| - 1]) then TrimEnd(s[..|s| - 1]) else s
  }

  lemma TrimStartKeeps(s: string)
    requires s == [] || !IsWhitespace(s[0])
    ensures TrimStart(s) == s
  {
  }

  lemma TrimEndKeeps(s: string)
    requires s == [] || !IsWhitespace(s[|s| - 1])
    ensures TrimEnd(s) == s
  {
  }

  lemma TrimStartSkips(c: char, s: string)
    requires IsWhitespace(c)
    ensures TrimStart([c] + s) == TrimStart(s)
  {
    assert ([c] + s)[1..] == s;
  }

  /** String.prototype.trim over ASCII whitespace. */
  function Trim(s: string): (r: string)
    ensures |r| <= |s|
    ensures r == [] || (!IsWhitespace(r[0]) && !IsWhitespace(r[|r| - 1]))
  {
    TrimEnd(TrimStart(s))
  }

  lemma TrimAllWhitespace(s: string)
    requires forall i :: 0 <= i < |s| ==> IsWhitespace(s[i])
    ensures Trim(s) == []
  {
    TrimStartAllWhitespace(s);
  }

  lemma {:induction false} TrimStartAllWhitespace(s: string)
    requires forall i :: 0 <= i < |s| ==> IsWhitespace(s[i])
    ensures TrimStart(s) == []
    decreases |s|
  {
    if s != [] {
      TrimStartAllWhitespace(s[1..]);
    }
  }

  /** Nothing but whitespace. */
  predicate Blank(s: string)
  {
    forall i :: 0 <= i < |s| ==> IsWhitespace(s[i])
  }

  lemma {:induction false} TrimStartBlank(ws: string, s: string)
    requires Blank(ws)
    ensures TrimStart(ws + s) == TrimStart(s)
    decreases |ws|
  {
    if ws == [] {
      assert ws + s == s;
    } else {
      assert ws + s == [ws[0]] + (ws[1..] + s);
      TrimStartSkips(ws[0], ws[1..] + s);
      TrimStartBlank(ws[1..], s);
    }
  }

  lemma {:induction false} TrimEndBlank(s: string, ws: string)
    requires Blank(ws)
    ensures TrimEnd(s + ws) == TrimEnd(s)
    decreases |ws|
  {
    if ws == [] {
      assert s + ws == s;
    } else {
      var init := ws[..|ws| - 1];
      assert (s + ws)[|s + ws| - 1] == ws[|ws| - 1];
      assert (s + ws)[..|s + ws| - 1] == s + init;
      TrimEndBlank(s, init);
    }
  }

  /** Trimming removes exactly the whitespace around a text whose ends are
      not whitespace. */
  lemma TrimPadded(before: string, m: string, after: string)
    requires Blank(before) && Blank(after)
    requires m == [] || (!IsWhitespace(m[0]) && !IsWhitespace(m[|m| - 1]))
    ensures Trim(before + m + after) == m
  {
    assert before + m + after == before + (m + after);
    TrimStartBlank(before, m + after);
    if m == [] {
      assert m + after == after;
      TrimStartAllWhitespace(after);
    } else {
      TrimStartKeeps(m + after);
      TrimEndBlank(m, after);
      TrimEndKeeps(m);
    }
  }

  // ---------------------------------------------------------------------
  // Splitting and joining

  /** String.prototype.split with a one-character separator. */
  function Split(s: string, sep: char): (r: seq<string>)
    ensures |r| >= 1
    ensures forall k :: 0 <= k < |r| ==> sep !in r[k]
  {
    if sep !in s then [s]
    else
      var i := FirstIndexOf(s, sep);
      [s[..i]] + Split(s[i + 1..], sep)
  }

  function FirstIndexOf(s: string, c: char): (i: nat)
    requires c in s
    ensures i < |s| && s[i] == c && c !in s[..i]
  {
    if s[0] == c then 0 else 1 + FirstIndexOf(s[1..], c)
  }

  /** `slice(1, -1)`: the string without its first and last characters,
      empty for a string of fewer than two. */
  function Inner(s: string): string
  {
    if |s| >= 2 then s[1..|s| - 1] else ""
  }

  /** Array.prototype.join. */
  function Join(parts: seq<string>, sep: string): string
  {
    if |parts| == 0 then ""
    else if |parts| == 1 then parts[0]
    else parts[0] + sep + Join(parts[1..], sep)
  }

  /** Splitting on a character and joining back with it gives the original string. */
  lemma {:induction false} JoinSplit(s: string, sep: char)
    ensures Join(Split(s, sep), [sep]) == s
  {
    if sep in s {
      var i := FirstIndexOf(s, sep);
      var rest := Split(s[i + 1..], sep);
      assert Split(s, sep) == [s[..i]] + rest;
      JoinCons(s[..i], rest, [sep]);
      JoinSplit(s[i + 1..], sep);
      assert s == s[..i] + [sep] + s[i + 1..];
    }
  }

  /** Splitting at the first separator. */
  lemma SplitAtFirst(a: string, b: string, sep: char)
    requires sep !in a
    ensures Split(a + [sep] + b, sep) == [a] + Split(b, sep)
  {
    var s := a + [sep] + b;
    assert s[..|a|] == a && s[|a|] == sep;
    FirstIndexUnique(s, sep, |a|);
    assert s[|a| + 1..] == b;
  }

  lemma JoinCons(h: string, t: seq<string>, sep: string)
    requires |t| >= 1
    ensures Join([h] + t, sep) == h + sep + Join(t, sep)
  {
    assert ([h] + t)[1..] == t;
  }

  /** Joining parts that do not contain the separator and splitting again gives the parts. */
  lemma {:induction false} SplitJoin(parts: seq<string>, sep: char)
    requires |parts| >= 1 && forall i :: 0 <= i < |parts| ==> sep !in parts[i]
    ensures Split(Join(parts, [sep]), sep) == parts
  {
    if |parts| == 1 {
    } else {
      var s := Join(parts, [sep]);
      var rest := Join(parts[1..], [sep]);
      assert s == parts[0] + [sep] + rest;
      assert s[|parts[0]|] == sep;
      assert s[..|parts[0]|] == parts[0];
      assert sep in s;
      assert FirstIndexOf(s, sep) == |parts[0]| by {
        FirstIndexUnique(s, sep, |parts[0]|);
      }
      assert s[|parts[0]| + 1..] == rest;
      SplitJoin(parts[1..], sep);
    }
  }

  lemma FirstIndexUnique(s: string, c: char, i: nat)
    requires i < |s| && s[i] == c && c !in s[..i]
    ensures FirstIndexOf(s, c) == i
  {
  }

  lemma {:induction false} JoinAppend(a: seq<string>, b: seq<string>, sep: string)
    requires |a| >= 1 && |b| >= 1
    ensures Join(a + b, sep) == Join(a, sep) + sep + Join(b, sep)
  {
    if |a| == 1 {
      assert a + b == [a[0]] + b;
    } else {
      assert (a + b)[1..] == a[1..] + b;
      JoinAppend(a[1..], b, sep);
    }
  }

  // ---------------------------------------------------------------------
  // Sequences

  function Filter<T>(s: seq<T>, p: T -> bool): (r: seq<T>)
    ensures |r| <= |s|
    ensures forall i :: 0 <= i < |r| ==> r[i] in s && p(r[i])
    ensures forall i :: 0 <= i < |s| && p(s[i]) ==> s[i] in r
  {
    if s == [] then []
    else (if p(s[0]) then [s[0]] else []) + Filter(s[1..], p)
  }

  lemma {:induction false} FilterAll<T>(s: seq<T>, p: T -> bool)
    requires forall i :: 0 <= i < |s| ==> p(s[i])
    ensures Filter(s, p) == s
  {
    if s != [] {
      FilterAll(s[1..], p);
    }
  }

  lemma {:induction false} FilterAppend<T>(a: seq<T>, b: seq<T>, p: T -> bool)
    ensures Filter(a + b, p) == Filter(a, p) + Filter(b, p)
  {
    if a == [] {
      assert a + b == b;
    } else {
      assert (a + b)[0] == a[0] && (a + b)[1..] == a[1..] + b;
      FilterAppend(a[1..], b, p);
    }
  }

  /** Filtering by a predicate and by its negation splits the sequence. */
  lemma {:induction false} FilterSplitCount<T>(s: seq<T>, p: T -> bool, q: T -> bool)
    requires forall x :: q(x) == !p(x)
    ensures |Filter(s, p)| + |Filter(s, q)| == |s|
  {
    if s != [] {
      FilterSplitCount(s[1..], p, q);
    }
  }

  /** Filtering a sequence sorted by key leaves it sorted. */
  lemma {:induction false} FilterSorted<T>(s: seq<T>, p: T -> bool, key: T -> int)
    requires SortedBy(s, key)
    ensures SortedBy(Filter(s, p), key)
  {
    if s != [] {
      var rest := s[1..];
      assert SortedBy(rest, key) by {
        forall i, j | 0 <= i < j < |rest| ensures key(rest[i]) <= key(rest[j]) {
          assert rest[i] == s[i + 1] && rest[j] == s[j + 1];
        }
      }
      FilterSorted(rest, p, key);
      var t := Filter(rest, p);
      if p(s[0]) {
        forall i | 0 <= i < |t| ensures key(s[0]) <= key(t[i]) {
          var j :| 0 <= j < |rest| && rest[j] == t[i];
          assert s[j + 1] == t[i];
        }
        var r := [s[0]] + t;
        forall i, j | 0 <= i < j < |r| ensures key(r[i]) <= key(r[j]) {
          assert r[j] == t[j - 1];
          if i > 0 { assert r[i] == t[i - 1]; }
        }
      }
    }
  }

  /** An element's multiplicity after filtering. */
  lemma {:induction false} FilterMultiplicity<T>(s: seq<T>, p: T -> bool, x: T)
    ensures multiset(Filter(s, p))[x] == if p(x) then multiset(s)[x] else 0
  {
    if s != [] {
      FilterMultiplicity(s[1..], p, x);
      assert s == [s[0]] + s[1..];
    }
  }

  /** Filtering two permutations of each other yields permutations of each other. */
  lemma FilterPermutation<T>(a: seq<T>, b: seq<T>, p: T -> bool)
    requires multiset(a) == multiset(b)
    ensures multiset(Filter(a, p)) == multiset(Filter(b, p))
  {
    forall x ensures multiset(Filter(a, p))[x] == multiset(Filter(b, p))[x] {
      FilterMultiplicity(a, p, x);
      FilterMultiplicity(b, p, x);
    }
  }

  lemma {:induction false} FilterNone<T>(s: seq<T>, p: T -> bool)
    requires forall i :: 0 <= i < |s| ==> !p(s[i])
    ensures Filter(s, p) == []
  {
    if s != [] { FilterNone(s[1..], p); }
  }

  /** Predicates that agree on every element filter alike. */
  lemma {:induction false} FilterSame<T>(s: seq<T>, p: T -> bool, q: T -> bool)
    requires forall i :: 0 <= i < |s| ==> p(s[i]) == q(s[i])
    ensures Filter(s, p) == Filter(s, q)
  {
    if s != [] {
      FilterSame(s[1..], p, q);
    }
  }

  /** The present values of `g` over `s`, in order (a filter-and-map). */
  function Collect<A, B>(s: seq<A>, g: A -> Option<B>): (r: seq<B>)
    ensures |r| <= |s|
    ensures forall i :: 0 <= i < |s| && g(s[i]).Some? ==> g(s[i]).value in r
    ensures forall y :: y in r ==> exists i :: 0 <= i < |s| && g(s[i]) == Some(y)
  {
    if s == [] then []
    else
      var rest := Collect(s[1..], g);
      assert forall y :: y in rest ==> exists i :: 0 <= i < |s| && g(s[i]) == Some(y) by {
        forall y | y in rest ensures exists i :: 0 <= i < |s| && g(s[i]) == Some(y) {
          var i :| 0 <= i < |s| - 1 && g(s[1..][i]) == Some(y);
          assert g(s[i + 1]) == Some(y);
        }
      }
      (if g(s[0]).Some? then [g(s[0]).value] else []) + rest
  }

  lemma {:induction false} CollectAppend<A, B>(a: seq<A>, b: seq<A>, g: A -> Option<B>)
    ensures Collect(a + b, g) == Collect(a, g) + Collect(b, g)
  {
    if a == [] {
      assert a + b == b;
    } else {
      assert (a + b)[0] == a[0] && (a + b)[1..] == a[1..] + b;
      CollectAppend(a[1..], b, g);
    }
  }

  lemma CollectCons<A, B>(x: A, s: seq<A>, g: A -> Option<B>)
    ensures Collect([x] + s, g) == (if g(x).Some? then [g(x).value] else []) + Collect(s, g)
  {
    assert ([x] + s)[1..] == s;
  }

  lemma CollectSingle<A, B>(x: A, g: A -> Option<B>)
    ensures Collect([x], g) == if g(x).Some? then [g(x).value] else []
  {
    assert [x][1..] == [];
  }

  lemma CollectStep<A, B>(s: seq<A>, k: nat, g: A -> Option<B>)
    requires k < |s|
    ensures Collect(s[..k + 1], g) == Collect(s[..k], g) + (if g(s[k]).Some? then [g(s[k]).value] else [])
  {
    assert s[..k + 1] == s[..k] + [s[k]];
    CollectAppend(s[..k], [s[k]], g);
  }

  /** Collecting from a rearrangement gives a rearrangement. */
  lemma {:induction false} CollectPermutation<A, B>(a: seq<A>, b: seq<A>, g: A -> Option<B>)
    requires multiset(a) == multiset(b)
    ensures multiset(Collect(a, g)) == multiset(Collect(b, g))
    decreases |a|
  {
    if a == [] {
      assert |multiset(b)| == 0;
    } else {
      var j := PermutationSplit(a, b);
      var x, b1, b2 := a[0], b[..j], b[j + 1..];
      CollectPermutation(a[1..], b1 + b2, g);
      assert Collect(b, g) == Collect(b1, g) + Collect([x], g) + Collect(b2, g) by {
        CollectAppend(b1 + [x], b2, g);
        CollectAppend(b1, [x], g);
      }
      assert Collect(b1 + b2, g) == Collect(b1, g) + Collect(b2, g) by { CollectAppend(b1, b2, g); }
      assert Collect(a, g) == Collect([x], g) + Collect(a[1..], g) by {
        assert a == [x] + a[1..];
        CollectAppend([x], a[1..], g);
      }
      MultisetMoveMiddle(Collect(b1, g), Collect([x], g), Collect(b2, g));
    }
  }

  /** Where the first element of `a` sits in a rearrangement `b` of it. */
  lemma PermutationSplit<A>(a: seq<A>, b: seq<A>) returns (j: nat)
    requires a != [] && multiset(a) == multiset(b)
    ensures j < |b| && b[j] == a[0]
    ensures b == b[..j] + [a[0]] + b[j + 1..]
    ensures multiset(a[1..]) == multiset(b[..j] + b[j + 1..])
  {
    var x := a[0];
    assert x in multiset(b);
    j :| 0 <= j < |b| && b[j] == x;
    var b1, b2 := b[..j], b[j + 1..];
    assert b == b1 + [x] + b2;
    assert a == [x] + a[1..];
    assert multiset(b) == multiset(b1 + b2) + multiset{x};
    assert multiset(a) == multiset(a[1..]) + multiset{x};
    assert multiset(b1 + b2) == multiset(b) - multiset{x};
    assert multiset(a[1..]) == multiset(a) - multiset{x};
  }

  lemma MultisetMoveMiddle<T>(p: seq<T>, q: seq<T>, r: seq<T>)
    ensures multiset(p + q + r) == multiset(q + (p + r))
  {
  }

  /** Array.prototype.map. */
  function Map<A, B>(s: seq<A>, f: A -> B): (r: seq<B>)
    ensures |r| == |s| && forall i :: 0 <= i < |s| ==> r[i] == f(s[i])
  {
    seq(|s|, i requires 0 <= i < |s| => f(s[i]))
  }

  lemma MapCons<A, B>(x: A, s: seq<A>, f: A -> B)
    ensures Map([x] + s, f) == [f(x)] + Map(s, f)
  {
  }

  /** Collecting with "f of the elements that pass p" is filtering, then mapping. */
  lemma {:induction false} CollectIsFilterMap<A, B>(s: seq<A>, g: A -> Option<B>, p: A -> bool, f: A -> B)
    requires forall x :: g(x) == if p(x) then Some(f(x)) else None
    ensures Collect(s, g) == Map(Filter(s, p), f)
  {
    if s != [] {
      CollectIsFilterMap(s[1..], g, p, f);
      var rest := Filter(s[1..], p);
      if p(s[0]) {
        assert Collect(s, g) == [f(s[0])] + Collect(s[1..], g);
        assert Filter(s, p) == [s[0]] + rest;
        MapCons(s[0], rest, f);
      } else {
        assert Collect(s, g) == Collect(s[1..], g);
        assert Filter(s, p) == rest;
      }
    }
  }

  /** Array.prototype.reverse, as a value. */
  function Reverse<T>(s: seq<T>): (r: seq<T>)
    ensures |r| == |s|
    ensures forall i :: 0 <= i < |s| ==> r[i] == s[|s| - 1 - i]
  {
    if s == [] then [] else [s[|s| - 1]] + Reverse(s[..|s| - 1])
  }

  /** One step of a loop that appends `step` to `out`, which holds `done`
      after `prefix`: afterwards it holds `done + step` after `prefix`. */
  lemma AppendStep<T>(prefix: seq<T>, out: seq<T>, done: seq<T>, step: seq<T>)
    requires out == prefix + done
    ensures out + step == prefix + (done + step)
  {
  }

  /** A slice of the middle part of a concatenation. */
  lemma MiddleSlice<T>(a: seq<T>, b: seq<T>, c: seq<T>, i: nat, j: nat)
    requires i <= j <= |b|
    ensures (a + b + c)[|a| + i..|a| + j] == b[i..j]
  {
    var s := (a + b + c)[|a| + i..|a| + j];
    forall k | 0 <= k < j - i ensures s[k] == b[i..j][k] {
      assert s[k] == (a + b + c)[|a| + i + k];
    }
  }

  /** Taking every element leaves the sequence as it was. */
  lemma TakeAll<T>(s: seq<T>)
    ensures s[..|s|] == s
  {
  }

  /** The concatenation of `f` over `s` (Array.prototype.flatMap, or a loop
      that pushes `f(x)` for each `x`). */
  function FlatMap<A, B>(s: seq<A>, f: A -> seq<B>): seq<B>
  {
    if s == [] then [] else FlatMap(s[..|s| - 1], f) + f(s[|s| - 1])
  }

  lemma FlatMapStep<A, B>(s: seq<A>, k: nat, f: A -> seq<B>)
    requires k < |s|
    ensures FlatMap(s[..k + 1], f) == FlatMap(s[..k], f) + f(s[k])
  {
    assert s[..k + 1][..k] == s[..k];
  }

  /** An element of a flat-map comes from one of the elements mapped. */
  lemma {:induction false} FlatMapMember<A, B>(s: seq<A>, f: A -> seq<B>, y: B)
    ensures y in FlatMap(s, f) <==> exists i :: 0 <= i < |s| && y in f(s[i])
  {
    if s != [] {
      var init := s[..|s| - 1];
      FlatMapMember(init, f, y);
      if y in FlatMap(s, f) && y !in FlatMap(init, f) {
        assert y in f(s[|s| - 1]);
      }
      if exists i :: 0 <= i < |s| && y in f(s[i]) {
        var i :| 0 <= i < |s| && y in f(s[i]);
        if i < |s| - 1 {
          assert init[i] == s[i];
        }
      }
    }
  }

  /** The concatenation of a sequence of sequences. */
  function Flatten<T>(ss: seq<seq<T>>): seq<T>
  {
    if ss == [] then [] else Flatten(ss[..|ss| - 1]) + ss[|ss| - 1]
  }

  /** Flattening groups of `n` elements each: group k is the slice at n * k. */
  lemma {:induction false} FlattenUniform<T>(ss: seq<seq<T>>, n: nat)
    requires forall k :: 0 <= k < |ss| ==> |ss[k]| == n
    ensures |Flatten(ss)| == n * |ss|
    ensures forall k :: 0 <= k < |ss| ==> n * k + n <= |Flatten(ss)|
    ensures forall k :: 0 <= k < |ss| && n * k + n <= |Flatten(ss)| ==> Flatten(ss)[n * k..n * k + n] == ss[k]
  {
    if ss != [] {
      var m := |ss| - 1;
      var init := ss[..m];
      FlattenUniform(init, n);
      var g := Flatten(init);
      assert Flatten(ss) == g + ss[m];
      MulSucc(n, m);
      forall k | 0 <= k < |ss| ensures GroupAt(g + ss[m], n, k, ss[k]) {
        UniformGroup(g, ss[m], n, m, k);
        if k < m {
          assert init[k] == ss[k];
        }
      }
    }
  }

  /** Group k of `s`, cut in groups of n, is `x`. */
  ghost predicate GroupAt<T>(s: seq<T>, n: nat, k: nat, x: seq<T>)
  {
    n * k + n <= |s| && s[n * k..n * k + n] == x
  }

  /** Group k of groups of n followed by one more group of n. */
  lemma UniformGroup<T>(g: seq<T>, last: seq<T>, n: nat, m: nat, k: nat)
    requires |g| == n * m && |last| == n && k <= m
    ensures n * k + n <= |g + last|
    ensures k < m ==> n * k + n <= |g| && (g + last)[n * k..n * k + n] == g[n * k..n * k + n]
    ensures k == m ==> (g + last)[n * k..n * k + n] == last
  {
    MulSucc(n, m);
    if k < m {
      MulStep(n, k, m);
      SliceLeft(g, last, n * k, n * k + n);
    } else {
      SliceRight(g, last);
    }
  }

  lemma MulStep(n: nat, k: nat, m: nat)
    requires k < m
    ensures n * k + n <= n * m
  {
    MulSucc(n, k);
    MulMonotone(k + 1, m, n);
  }

  lemma MulSucc(n: nat, k: nat)
    ensures n * (k + 1) == n * k + n
  {
  }

  lemma SliceLeft<T>(a: seq<T>, b: seq<T>, i: nat, j: nat)
    requires i <= j <= |a|
    ensures (a + b)[i..j] == a[i..j]
  {
  }

  lemma SliceRight<T>(a: seq<T>, b: seq<T>)
    ensures (a + b)[|a|..|a| + |b|] == b
  {
  }

  /** Joining joined groups is joining the flattened groups. */
  lemma {:induction false} JoinFlatten(ss: seq<seq<string>>, sep: string)
    requires |ss| >= 1 && forall k :: 0 <= k < |ss| ==> |ss[k]| >= 1
    ensures Join(seq(|ss|, k requires 0 <= k < |ss| => Join(ss[k], sep)), sep) == Join(Flatten(ss), sep)
  {
    var joined := seq(|ss|, k requires 0 <= k < |ss| => Join(ss[k], sep));
    if |ss| == 1 {
      assert Flatten(ss) == [] + ss[0];
      assert Flatten(ss) == ss[0];
    } else {
      var init := ss[..|ss| - 1];
      var last := ss[|ss| - 1];
      JoinFlatten(init, sep);
      var joinedInit := seq(|init|, k requires 0 <= k < |init| => Join(init[k], sep));
      assert joined == joinedInit + [Join(last, sep)];
      JoinAppend(joinedInit, [Join(last, sep)], sep);
      FlattenNonEmpty(init);
      JoinAppend(Flatten(init), last, sep);
    }
  }

  /** What holds of every element of every group holds of the flattening. */
  lemma {:induction false} FlattenAll<T>(ss: seq<seq<T>>, p: T -> bool)
    requires forall k, j :: 0 <= k < |ss| && 0 <= j < |ss[k]| ==> p(ss[k][j])
    ensures forall i :: 0 <= i < |Flatten(ss)| ==> p(Flatten(ss)[i])
  {
    if ss != [] {
      var init := ss[..|ss| - 1];
      assert forall k, j :: 0 <= k < |init| && 0 <= j < |init[k]| ==> p(init[k][j]) by {
        forall k, j | 0 <= k < |init| && 0 <= j < |init[k]| ensures p(init[k][j]) {
          assert init[k] == ss[k];
        }
      }
      FlattenAll(init, p);
      var last := ss[|ss| - 1];
      forall i | 0 <= i < |Flatten(ss)| ensures p(Flatten(ss)[i]) {
        if i >= |Flatten(init)| {
          assert Flatten(ss)[i] == last[i - |Flatten(init)|];
        }
      }
    }
  }

  lemma {:induction false} FlattenNonEmpty<T>(ss: seq<seq<T>>)
    requires |ss| >= 1 && forall k :: 0 <= k < |ss| ==> |ss[k]| >= 1
    ensures |Flatten(ss)| >= 1
  {
    assert |Flatten(ss)| >= |ss[|ss| - 1]|;
  }

  /** 0, 1, ..., n - 1 */
  function Range(n: nat): (r: seq<nat>)
    ensures |r| == n && forall i :: 0 <= i < n ==> r[i] == i
  {
    seq(n, i requires 0 <= i < n => i)
  }

  /** `a` is obtained from `b` by deleting elements: order is preserved. */
  predicate IsSubsequence<T(==)>(a: seq<T>, b: seq<T>)
  {
    if a == [] then true
    else if b == [] then false
    else if a[0] == b[0] then IsSubsequence(a[1..], b[1..])
    else IsSubsequence(a, b[1..])
  }

  lemma {:induction false} SubsequenceOfSelf<T>(s: seq<T>)
    ensures IsSubsequence(s, s)
  {
    if s != [] { SubsequenceOfSelf(s[1..]); }
  }

  lemma {:induction false} FilterIsSubsequence<T>(s: seq<T>, p: T -> bool)
    ensures IsSubsequence(Filter(s, p), s)
  {
    if s != [] {
      FilterIsSubsequence(s[1..], p);
      if p(s[0]) {
        assert Filter(s, p) == [s[0]] + Filter(s[1..], p);
      } else {
        assert Filter(s, p) == Filter(s[1..], p);
        SubsequenceSkip(Filter(s[1..], p), s);
      }
    }
  }

  lemma {:induction false} SubsequenceSkip<T>(a: seq<T>, b: seq<T>)
    requires b != [] && IsSubsequence(a, b[1..])
    ensures IsSubsequence(a, b)
    decreases |b|, |a|
  {
    if a != [] && a[0] == b[0] {
      SubsequenceDropHead(a, b[1..]);
    }
  }

  lemma {:induction false} SubsequenceDropHead<T>(a: seq<T>, b: seq<T>)
    requires a != [] && IsSubsequence(a, b)
    ensures IsSubsequence(a[1..], b)
    decreases |b|, |a|
  {
    if a[0] == b[0] {
      SubsequenceSkip(a[1..], b);
    } else {
      SubsequenceDropHead(a, b[1..]);
      SubsequenceSkip(a[1..], b);
    }
  }

  function Count<T>(s: seq<T>, p: T -> bool): (n: nat)
    ensures n <= |s|
  {
    |Filter(s, p)|
  }

  function Take<T>(s: seq<T>, n: nat): (r: seq<T>)
    ensures |r| <= n && |r| <= |s|
    ensures r == s[..|r|]
    ensures |s| <= n ==> r == s
  {
    if |s| <= n then s else s[..n]
  }

  /** Array.prototype.slice(-n): the last `n` elements (all when fewer). */
  function TakeLast<T>(s: seq<T>, n: nat): (r: seq<T>)
    ensures |r| <= n && |r| <= |s|
    ensures r == s[|s| - |r|..]
    ensures |s| <= n ==> r == s
  {
    if |s| <= n then s else s[|s| - n..]
  }

  // ---------------------------------------------------------------------
  // Stable sort by an integer key (Array.prototype.sort with (a, b) => key(a) - key(b))

  predicate SortedBy<T>(s: seq<T>, key: T -> int)
  {
    forall i, j :: 0 <= i < j < |s| ==> key(s[i]) <= key(s[j])
  }

  function InsertBy<T>(x: T, s: seq<T>, key: T -> int): seq<T>
  {
    if s == [] then [x]
    else if key(s[0]) <= key(x) then [s[0]] + InsertBy(x, s[1..], key)
    else [x] + s
  }

  function SortBy<T>(s: seq<T>, key: T -> int): seq<T>
  {
    if s == [] then [] else InsertBy(s[|s| - 1], SortBy(s[..|s| - 1], key), key)
  }

  /** The elements of `s` whose key is `k`, in order. */
  function WithKey<T>(s: seq<T>, key: T -> int, k: int): seq<T>
  {
    if s == [] then [] else (if key(s[0]) == k then [s[0]] else []) + WithKey(s[1..], key, k)
  }

  lemma {:induction false} InsertByFacts<T>(x: T, s: seq<T>, key: T -> int)
    requires SortedBy(s, key)
    ensures SortedBy(InsertBy(x, s, key), key)
    ensures multiset(InsertBy(x, s, key)) == multiset(s) + multiset{x}
  {
    InsertBySorted(x, s, key);
    InsertByMultiset(x, s, key);
  }

  lemma {:induction false} InsertByMultiset<T>(x: T, s: seq<T>, key: T -> int)
    ensures multiset(InsertBy(x, s, key)) == multiset(s) + multiset{x}
  {
    if s != [] && key(s[0]) <= key(x) {
      InsertByMultiset(x, s[1..], key);
      assert InsertBy(x, s, key) == [s[0]] + InsertBy(x, s[1..], key);
      assert s == [s[0]] + s[1..];
    } else if s != [] {
      assert InsertBy(x, s, key) == [x] + s;
    }
  }

  lemma {:induction false} InsertBySorted<T>(x: T, s: seq<T>, key: T -> int)
    requires SortedBy(s, key)
    ensures SortedBy(InsertBy(x, s, key), key)
  {
    if s != [] && key(s[0]) <= key(x) {
      var rest := s[1..];
      assert SortedBy(rest, key) by {
        forall i, j | 0 <= i < j < |rest| ensures key(rest[i]) <= key(rest[j]) {
          assert rest[i] == s[i + 1] && rest[j] == s[j + 1];
        }
      }
      InsertBySorted(x, rest, key);
      InsertByMultiset(x, rest, key);
      var t := InsertBy(x, rest, key);
      assert InsertBy(x, s, key) == [s[0]] + t;
      assert forall y :: y in rest ==> key(s[0]) <= key(y) by {
        forall y | y in rest ensures key(s[0]) <= key(y) {
          var j :| 0 <= j < |rest| && rest[j] == y;
          assert s[j + 1] == y;
        }
      }
      forall i | 0 <= i < |t| ensures key(s[0]) <= key(t[i]) {
        assert t[i] in multiset(t);
        assert t[i] == x || t[i] in multiset(rest);
      }
      ConsSorted(s[0], t, key);
    } else if s != [] {
      assert InsertBy(x, s, key) == [x] + s;
      forall i | 0 <= i < |s| ensures key(x) <= key(s[i]) {
        assert key(s[0]) <= key(s[i]);
      }
      ConsSorted(x, s, key);
    }
  }

  lemma ConsSorted<T>(h: T, t: seq<T>, key: T -> int)
    requires SortedBy(t, key)
    requires forall i :: 0 <= i < |t| ==> key(h) <= key(t[i])
    ensures SortedBy([h] + t, key)
  {
    var r := [h] + t;
    forall i, j | 0 <= i < j < |r| ensures key(r[i]) <= key(r[j]) {
      assert r[j] == t[j - 1];
      if i > 0 { assert r[i] == t[i - 1]; }
    }
  }

  lemma {:induction false} WithKeyAppend<T>(a: seq<T>, b: seq<T>, key: T -> int, k: int)
    ensures WithKey(a + b, key, k) == WithKey(a, key, k) + WithKey(b, key, k)
  {
    if a != [] {
      var h := if key(a[0]) == k then [a[0]] else [];
      assert (a + b)[0] == a[0];
      assert (a + b)[1..] == a[1..] + b;
      WithKeyAppend(a[1..], b, key, k);
      calc {
        WithKey(a + b, key, k);
        h + WithKey(a[1..] + b, key, k);
        h + (WithKey(a[1..], key, k) + WithKey(b, key, k));
        (h + WithKey(a[1..], key, k)) + WithKey(b, key, k);
      }
    } else {
      assert a + b == b;
    }
  }

  lemma {:induction false} WithKeyNone<T>(s: seq<T>, key: T -> int, k: int)
    requires forall i :: 0 <= i < |s| ==> key(s[i]) > k
    ensures WithKey(s, key, k) == []
  {
    if s != [] { WithKeyNone(s[1..], key, k); }
  }

  lemma {:induction false} InsertByStable<T>(x: T, s: seq<T>, key: T -> int, k: int)
    requires SortedBy(s, key)
    ensures WithKey(InsertBy(x, s, key), key, k) == WithKey(s, key, k) + (if key(x) == k then [x] else [])
  {
    var tail := if key(x) == k then [x] else [];
    if s == [] {
      assert WithKey([x], key, k) == tail + WithKey([], key, k);
    } else if key(s[0]) <= key(x) {
      var rest := s[1..];
      assert SortedBy(rest, key) by {
        forall i, j | 0 <= i < j < |rest| ensures key(rest[i]) <= key(rest[j]) {
          assert rest[i] == s[i + 1] && rest[j] == s[j + 1];
        }
      }
      InsertByStable(x, rest, key, k);
      var t := InsertBy(x, rest, key);
      var head := if key(s[0]) == k then [s[0]] else [];
      assert InsertBy(x, s, key) == [s[0]] + t;
      assert ([s[0]] + t)[0] == s[0] && ([s[0]] + t)[1..] == t;
      assert WithKey([s[0]] + t, key, k) == head + WithKey(t, key, k);
      assert WithKey(s, key, k) == head + WithKey(rest, key, k);
    } else {
      assert InsertBy(x, s, key) == [x] + s;
      assert ([x] + s)[0] == x && ([x] + s)[1..] == s;
      assert WithKey([x] + s, key, k) == tail + WithKey(s, key, k);
      if key(x) == k {
        WithKeyNone(s, key, k);
      }
    }
  }

  /** Insertion sort by key is sorted, a permutation, and stable: the elements
      sharing any one key keep their relative order. */
  lemma {:induction false} SortByFacts<T>(s: seq<T>, key: T -> int)
    ensures SortedBy(SortBy(s, key), key)
    ensures multiset(SortBy(s, key)) == multiset(s)
    ensures |SortBy(s, key)| == |s|
    ensures forall k :: WithKey(SortBy(s, key), key, k) == WithKey(s, key, k)
  {
    if s != [] {
      var init, last := s[..|s| - 1], s[|s| - 1];
      SortByFacts(init, key);
      InsertByFacts(last, SortBy(init, key), key);
      assert s == init + [last];
      forall k ensures WithKey(SortBy(s, key), key, k) == WithKey(s, key, k) {
        InsertByStable(last, SortBy(init, key), key, k);
        WithKeyAppend(init, [last], key, k);
      }
      assert |SortBy(s, key)| == |multiset(SortBy(s, key))| == |multiset(s)| == |s|;
    }
  }

  // ---------------------------------------------------------------------
  // Code-point lexicographic order on strings (the default Array.prototype.sort
  // order, and the model of localeCompare)

  predicate StrLe(a: string, b: string)
  {
    a == [] || (b != [] && (a[0] < b[0] || (a[0] == b[0] && StrLe(a[1..], b[1..]))))
  }

  lemma {:induction false} StrLeTotal(a: string, b: string)
    ensures StrLe(a, b) || StrLe(b, a)
  {
    if a != [] && b != [] && a[0] == b[0] { StrLeTotal(a[1..], b[1..]); }
  }

  lemma {:induction false} StrLeAntisymmetric(a: string, b: string)
    requires StrLe(a, b) && StrLe(b, a)
    ensures a == b
  {
    if a != [] && b != [] {
      StrLeAntisymmetric(a[1..], b[1..]);
      assert a == [a[0]] + a[1..] && b == [b[0]] + b[1..];
    }
  }

  lemma {:induction false} StrLeTransitive(a: string, b: string, c: string)
    requires StrLe(a, b) && StrLe(b, c)
    ensures StrLe(a, c)
  {
    if a != [] && b != [] && c != [] && a[0] == b[0] && b[0] == c[0] {
      StrLeTransitive(a[1..], b[1..], c[1..]);
    }
  }

  lemma StrLeReflexive(a: string)
    ensures StrLe(a, a)
  {
    StrLeTotal(a, a);
  }

  /** Three-way comparison as String.prototype.localeCompare returns it. */
  function StrCompare(a: string, b: string): (r: int)
    ensures r == 0 <==> a == b
    ensures r < 0 <==> StrLe(a, b) && a != b
    ensures r > 0 <==> StrLe(b, a) && a != b
    ensures -1 <= r <= 1
  {
    StrLeTotal(a, b);
    if a == b then (StrLeReflexive(a); 0)
    else if StrLe(a, b) then
      assert !StrLe(b, a) by { if StrLe(b, a) { StrLeAntisymmetric(a, b); } }
      -1
    else 1
  }

  /** Strings that differ only in their last character, the first smaller. */
  lemma {:induction false} StrLeSharedPrefix(p: string, x: char, y: char)
    requires x < y
    ensures StrLe(p + [x], p + [y]) && p + [x] != p + [y]
  {
    assert (p + [x])[|p|] == x && (p + [y])[|p|] == y;
    if p != [] {
      StrLeSharedPrefix(p[1..], x, y);
      assert (p + [x])[1..] == p[1..] + [x] && (p + [y])[1..] == p[1..] + [y];
    }
  }

  /** A comparator `le` ("a may come before b") that sorts consistently. */
  ghost predicate TotalPreorder<T(!new)>(le: (T, T) -> bool)
  {
    (forall a, b :: le(a, b) || le(b, a)) &&
    (forall a, b, c :: le(a, b) && le(b, c) ==> le(a, c))
  }

  predicate SortedWith<T>(s: seq<T>, le: (T, T) -> bool)
  {
    forall i, j :: 0 <= i < j < |s| ==> le(s[i], s[j])
  }

  /** Inserts `x` after every leading element that may precede it. */
  function InsertWith<T>(x: T, s: seq<T>, le: (T, T) -> bool): seq<T>
  {
    if s == [] then [x]
    else if le(s[0], x) then [s[0]] + InsertWith(x, s[1..], le)
    else [x] + s
  }

  /** Insertion sort under a comparator. */
  function SortWith<T>(s: seq<T>, le: (T, T) -> bool): seq<T>
  {
    if s == [] then [] else InsertWith(s[|s| - 1], SortWith(s[..|s| - 1], le), le)
  }

  lemma InsertWithFront<T(!new)>(x: T, s: seq<T>, le: (T, T) -> bool)
    requires TotalPreorder(le) && SortedWith(s, le)
    requires s != [] && !le(s[0], x)
    ensures SortedWith([x] + s, le)
  {
    var r := [x] + s;
    forall i, j | 0 <= i < j < |r| ensures le(r[i], r[j]) {
      assert r[j] == s[j - 1];
      if i == 0 {
        assert le(x, s[0]);
        if j > 1 { assert le(s[0], s[j - 1]); }
      } else {
        assert r[i] == s[i - 1];
      }
    }
  }

  lemma InsertWithCons<T>(h: T, t: seq<T>, le: (T, T) -> bool)
    requires SortedWith(t, le)
    requires forall i :: 0 <= i < |t| ==> le(h, t[i])
    ensures SortedWith([h] + t, le)
  {
    var r := [h] + t;
    forall i, j | 0 <= i < j < |r| ensures le(r[i], r[j]) {
      assert r[j] == t[j - 1];
      if i > 0 { assert r[i] == t[i - 1]; }
    }
  }

  lemma {:induction false} InsertWithFacts<T(!new)>(x: T, s: seq<T>, le: (T, T) -> bool)
    requires TotalPreorder(le) && SortedWith(s, le)
    ensures SortedWith(InsertWith(x, s, le), le)
    ensures multiset(InsertWith(x, s, le)) == multiset(s) + multiset{x}
  {
    InsertWithSorted(x, s, le);
    InsertWithMultiset(x, s, le);
  }

  lemma {:induction false} InsertWithMultiset<T>(x: T, s: seq<T>, le: (T, T) -> bool)
    ensures multiset(InsertWith(x, s, le)) == multiset(s) + multiset{x}
  {
    if s != [] && le(s[0], x) {
      InsertWithMultiset(x, s[1..], le);
      assert InsertWith(x, s, le) == [s[0]] + InsertWith(x, s[1..], le);
      assert s == [s[0]] + s[1..];
    } else if s != [] {
      assert InsertWith(x, s, le) == [x] + s;
    }
  }

  lemma {:induction false} InsertWithSorted<T(!new)>(x: T, s: seq<T>, le: (T, T) -> bool)
    requires TotalPreorder(le) && SortedWith(s, le)
    ensures SortedWith(InsertWith(x, s, le), le)
  {
    if s == [] {
    } else if le(s[0], x) {
      var rest := s[1..];
      assert SortedWith(rest, le) by {
        forall i, j | 0 <= i < j < |rest| ensures le(rest[i], rest[j]) {
          assert rest[i] == s[i + 1] && rest[j] == s[j + 1];
        }
      }
      InsertWithSorted(x, rest, le);
      InsertWithMultiset(x, rest, le);
      var t := InsertWith(x, rest, le);
      assert InsertWith(x, s, le) == [s[0]] + t;
      assert forall y :: y in rest ==> le(s[0], y) by {
        forall y | y in rest ensures le(s[0], y) {
          var j :| 0 <= j < |rest| && rest[j] == y;
          assert s[j + 1] == y;
        }
      }
      forall i | 0 <= i < |t| ensures le(s[0], t[i]) {
        assert t[i] in multiset(t);
        assert t[i] == x || t[i] in multiset(rest);
      }
      InsertWithCons(s[0], t, le);
    } else {
      InsertWithFront(x, s, le);
    }
  }

  /** Sorting under a consistent comparator yields a sorted permutation. */
  lemma {:induction false} SortWithFacts<T(!new)>(s: seq<T>, le: (T, T) -> bool)
    requires TotalPreorder(le)
    ensures SortedWith(SortWith(s, le), le)
    ensures multiset(SortWith(s, le)) == multiset(s)
    ensures |SortWith(s, le)| == |s|
  {
    if s != [] {
      var init := s[..|s| - 1];
      SortWithFacts(init, le);
      InsertWithFacts(s[|s| - 1], SortWith(init, le), le);
      assert s == init + [s[|s| - 1]];
      assert |SortWith(s, le)| == |multiset(SortWith(s, le))| == |multiset(s)| == |s|;
    }
  }

  /** Code-point order as a comparator on strings. */
  predicate StrOrder(a: string, b: string) { StrLe(a, b) }

  lemma StrOrderIsTotalPreorder()
    ensures TotalPreorder(StrOrder)
  {
    forall a, b ensures StrOrder(a, b) || StrOrder(b, a) { StrLeTotal(a, b); }
    forall a, b, c | StrOrder(a, b) && StrOrder(b, c) ensures StrOrder(a, c) {
      StrLeTransitive(a, b, c);
    }
  }

  /** Array.prototype.sort() on strings, modelled as code-point order. */
  function SortStrings(s: seq<string>): (r: seq<string>)
    ensures multiset(r) == multiset(s) && |r| == |s|
    ensures forall i, j :: 0 <= i < j < |r| ==> StrLe(r[i], r[j])
  {
    StrOrderIsTotalPreorder();
    SortWithFacts(s, StrOrder);
    SortWith(s, StrOrder)
  }

  /** Distinct values, in order of first appearance (the spread of a Set). */
  function Distinct<T(==)>(s: seq<T>): (r: seq<T>)
    ensures forall i :: 0 <= i < |r| ==> r[i] in s
    ensures forall i :: 0 <= i < |s| ==> s[i] in r
    ensures forall i, j :: 0 <= i < j < |r| ==> r[i] != r[j]
  {
    if s == [] then []
    else
      var rest := Distinct(s[..|s| - 1]);
      if s[|s| - 1] in rest then rest else rest + [s[|s| - 1]]
  }

  // ---------------------------------------------------------------------
  // Pagination

  function CeilDiv(n: nat, d: nat): (q: nat)
    requires d > 0
    ensures q * d >= n && (q == 0 || (q - 1) * d < n)
  {
    (n + d - 1) / d
  }

  /** `s.slice((page - 1) * size, page * size)` for a page counted from 1. */
  function PageOf<T>(s: seq<T>, page: nat, size: nat): (r: seq<T>)
    requires page >= 1 && size >= 1
    ensures |r| <= size
  {
    var lo := (page - 1) * size;
    var hi := page * size;
    if lo >= |s| then [] else s[lo..if hi <= |s| then hi else |s|]
  }

  /** Pages `from` .. `last`, concatenated. */
  function PagesFrom<T>(s: seq<T>, size: nat, from: nat, last: nat): seq<T>
    requires from >= 1 && size >= 1
    decreases last + 1 - from
  {
    if from > last then [] else PageOf(s, from, size) + PagesFrom(s, size, from + 1, last)
  }

  lemma MulMonotone(a: nat, b: nat, c: nat)
    requires a <= b
    ensures a * c <= b * c
  {
  }

  lemma {:induction false} PagesFromSuffix<T>(s: seq<T>, size: nat, from: nat)
    requires from >= 1 && size >= 1
    requires (from - 1) * size <= |s|
    ensures PagesFrom(s, size, from, CeilDiv(|s|, size)) == s[(from - 1) * size..]
    decreases |s| - (from - 1) * size
  {
    var n, last := |s|, CeilDiv(|s|, size);
    var lo := (from - 1) * size;
    var hi := from * size;
    assert hi == lo + size;
    assert last * size >= n;
    if from > last {
      MulMonotone(last, from - 1, size);
      assert lo == n;
    } else {
      assert last >= 1;
      assert (last - 1) * size < n;
      MulMonotone(from - 1, last - 1, size);
      assert lo < n;
      if hi <= n {
        PagesFromSuffix(s, size, from + 1);
        assert s[lo..] == s[lo..hi] + s[hi..];
      } else {
        if from < last {
          MulMonotone(from, last - 1, size);
          assert false;
        }
        assert PagesFrom(s, size, from + 1, last) == [];
      }
    }
  }

  /** The pages 1 .. ceil(n / size), concatenated, are exactly the sequence:
      every element appears on exactly one page, in order. */
  lemma PagesPartition<T>(s: seq<T>, size: nat)
    requires size >= 1
    ensures PagesFrom(s, size, 1, CeilDiv(|s|, size)) == s
  {
    PagesFromSuffix(s, size, 1);
  }
}
