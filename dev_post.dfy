/** The dev-post page's logic (src/page/dev/DevPost.jsx): the table of
    contents drawn from the markdown headings, the ids given to headings,
    the resolution of relative image paths, and the reader settings kept
    in local storage. */
module DevPost {
  import opened Common
  import Markdown
  import GitNames

  // ---------------------------------------------------------------------
  // extractHeadings: the global multiline pattern ^(#{1,3})\s+(.+)$

  datatype Heading = Heading(level: nat, text: string, id: string)

  /** Where a heading match found its text, and where the match ends. */
  datatype HeadingMatch = HeadingMatch(level: nat, textStart: nat, end: nat)

  /** The last position in [lo, hi) that is not a line terminator. */
  function LastOnLine(s: string, lo: nat, hi: nat): (r: Option<nat>)
    requires lo <= hi <= |s|
    decreases hi - lo
    ensures r.Some? ==> lo <= r.value < hi && !IsLineTerminator(s[r.value])
    ensures r.Some? ==> forall k :: r.value < k < hi ==> IsLineTerminator(s[k])
    ensures r.None? ==> forall k :: lo <= k < hi ==> IsLineTerminator(s[k])
  {
    if lo == hi then None
    else if !IsLineTerminator(s[hi - 1]) then Some(hi - 1)
    else LastOnLine(s, lo, hi - 1)
  }

  /** The match of the pattern at position i, if any. One to three '#'
      (followed by no fourth) and whitespace, which may run over line
      breaks; the text is the rest of the line where the whitespace ends.
      Whitespace running to the end of the content gives back characters
      until `.+` can take one. */
  function MatchHeading(s: string, i: nat): (r: Option<HeadingMatch>)
    requires i <= |s|
    ensures r.Some? ==> 1 <= r.value.level <= 3 && i + r.value.level < r.value.textStart < r.value.end <= |s|
    ensures r.Some? ==> Markdown.LineStart(s, i) && forall k :: i <= k < i + r.value.level ==> s[k] == '#'
    ensures r.Some? ==> forall k :: r.value.textStart <= k < r.value.end ==> !IsLineTerminator(s[k])
    ensures r.Some? ==> r.value.end == |s| || IsLineTerminator(s[r.value.end])
  {
    if !Markdown.LineStart(s, i) then None
    else
      var h := Markdown.Run(s, i, Markdown.IsHash);
      if h == 0 || h > 3 then None
      else
        var p := i + h;
        var w := Markdown.Run(s, p, IsWhitespace);
        if w == 0 then None
        else if p + w < |s| then
          Some(HeadingMatch(h, p + w, Markdown.LineEnd(s, p + w)))
        else
          match LastOnLine(s, p + 1, p + w)
          case None => None
          case Some(k) => Some(HeadingMatch(h, k, Markdown.LineEnd(s, k)))
  }

  function HeadingOf(s: string, m: HeadingMatch): Heading
    requires m.textStart <= m.end <= |s|
  {
    var text := Trim(s[m.textStart..m.end]);
    Heading(m.level, text, Slug(text))
  }

  /** The matches found by `exec` from position i on: each search tries
      every position in order and resumes after the match it finds. */
  function MatchesFrom(s: string, i: nat): (r: seq<HeadingMatch>)
    requires i <= |s|
    decreases |s| - i
    ensures MatchesIn(s, r)
  {
    if i == |s| then []
    else match MatchHeading(s, i)
      case Some(m) => [m] + MatchesFrom(s, m.end)
      case None => MatchesFrom(s, i + 1)
  }

  /** Matches of level 1 to 3 whose text lies inside `s`. */
  predicate MatchesIn(s: string, ms: seq<HeadingMatch>)
  {
    forall k :: 0 <= k < |ms| ==> 1 <= ms[k].level <= 3 && ms[k].textStart <= ms[k].end <= |s|
  }

  /** The heading each match gives, in order. */
  function HeadingsOf(s: string, ms: seq<HeadingMatch>): (r: seq<Heading>)
    requires MatchesIn(s, ms)
    ensures |r| == |ms|
    ensures forall k :: 0 <= k < |ms| ==> r[k] == HeadingOf(s, ms[k])
  {
    seq(|ms|, k requires 0 <= k < |ms| => HeadingOf(s, ms[k]))
  }

  /** The headings found by `exec` from position i on. */
  function HeadingsFrom(s: string, i: nat): seq<Heading>
    requires i <= |s|
  {
    HeadingsOf(s, MatchesFrom(s, i))
  }

  /** Every heading found has level 1 to 3 and trimmed text, and its id is
      the slug of its text. */
  lemma HeadingsWellFormed(s: string, i: nat)
    requires i <= |s|
    ensures AllWellFormed(HeadingsFrom(s, i))
  {
    HeadingsOfWellFormed(s, MatchesFrom(s, i));
  }

  lemma HeadingsOfWellFormed(s: string, ms: seq<HeadingMatch>)
    requires MatchesIn(s, ms)
    ensures AllWellFormed(HeadingsOf(s, ms))
  {
    forall k | 0 <= k < |ms| ensures WellFormed(HeadingsOf(s, ms)[k]) {
      HeadWellFormed(s, ms[k]);
    }
  }

  lemma MatchesStep(s: string, i: nat)
    requires i < |s|
    ensures MatchHeading(s, i).Some? ==>
      MatchesFrom(s, i) == [MatchHeading(s, i).value] + MatchesFrom(s, MatchHeading(s, i).value.end)
    ensures MatchHeading(s, i).None? ==> MatchesFrom(s, i) == MatchesFrom(s, i + 1)
  {
  }

  lemma HeadingsOfCons(s: string, m: HeadingMatch, ms: seq<HeadingMatch>)
    requires 1 <= m.level <= 3 && m.textStart <= m.end <= |s| && MatchesIn(s, ms)
    ensures MatchesIn(s, [m] + ms)
    ensures HeadingsOf(s, [m] + ms) == [HeadingOf(s, m)] + HeadingsOf(s, ms)
  {
    HeadingsOfAppend(s, [m], ms);
  }

  /** A match at i gives its heading, and the search resumes at its end. */
  lemma HeadingsAtMatch(s: string, i: nat, m: HeadingMatch)
    requires i < |s| && MatchHeading(s, i) == Some(m)
    ensures m.end <= |s| && HeadingsFrom(s, i) == [HeadingOf(s, m)] + HeadingsFrom(s, m.end)
  {
    MatchesStep(s, i);
    HeadingsOfCons(s, m, MatchesFrom(s, m.end));
  }

  lemma HeadingsStep(s: string, i: nat)
    requires i < |s|
    ensures MatchHeading(s, i).Some? ==>
      HeadingsFrom(s, i) == [HeadingOf(s, MatchHeading(s, i).value)] + HeadingsFrom(s, MatchHeading(s, i).value.end)
    ensures MatchHeading(s, i).None? ==> HeadingsFrom(s, i) == HeadingsFrom(s, i + 1)
  {
    MatchesStep(s, i);
    if MatchHeading(s, i).Some? {
      HeadingsAtMatch(s, i, MatchHeading(s, i).value);
    }
  }

  method ExtractHeadings(content: string) returns (headings: seq<Heading>)
    ensures headings == HeadingsFrom(content, 0)
  {
    headings := [];
    var pos := 0;
    while pos < |content|
      invariant pos <= |content|
      invariant headings + HeadingsFrom(content, pos) == HeadingsFrom(content, 0)
      decreases |content| - pos
    {
      var found, next := ExecAt(content, pos);
      assert HeadingsFrom(content, pos) == found + HeadingsFrom(content, next);
      headings := headings + found;
      pos := next;
    }
  }

  /** One `exec` attempt at position pos: the heading it finds there, if
      any, and where the next attempt starts. */
  method ExecAt(content: string, pos: nat) returns (found: seq<Heading>, next: nat)
    requires pos < |content|
    ensures pos < next <= |content| && |found| <= 1
    ensures HeadingsFrom(content, pos) == found + HeadingsFrom(content, next)
  {
    var m := MatchHeading(content, pos);
    HeadingsStep(content, pos);
    if m.Some? {
      found := [HeadingOf(content, m.value)];
      next := m.value.end;
    } else {
      found := [];
      next := pos + 1;
    }
  }

  /** A heading of level 1 to 3 with trimmed text and the id the slug of
      its text gives. */
  predicate WellFormed(h: Heading)
  {
    1 <= h.level <= 3 && Trimmed(h.text) && h.id == Slug(h.text)
  }

  /** No whitespace at either end. */
  predicate Trimmed(t: string)
  {
    t == [] || (!IsWhitespace(t[0]) && !IsWhitespace(t[|t| - 1]))
  }

  predicate AllWellFormed(r: seq<Heading>)
  {
    forall k :: 0 <= k < |r| ==> WellFormed(r[k])
  }

  lemma HeadWellFormed(s: string, m: HeadingMatch)
    requires 1 <= m.level <= 3 && m.textStart <= m.end <= |s|
    ensures WellFormed(HeadingOf(s, m))
  {
  }

  /** A content that is one heading line, `#`, `##` or `###`, a space and a
      text, gives exactly that heading. */
  lemma SingleHeadingLine(level: nat, text: string)
    requires 1 <= level <= 3
    requires text != [] && !IsWhitespace(text[0])
    requires forall k :: 0 <= k < |text| ==> !IsLineTerminator(text[k])
    ensures var hashes := seq(level, _ => '#');
      HeadingsFrom(hashes + " " + text, 0) == [Heading(level, Trim(text), Slug(Trim(text)))]
  {
    SingleHeadingMatch(level, text);
    SingleHeadingText(level, text);
  }

  lemma SingleHeadingText(level: nat, text: string)
    ensures var s := seq(level, _ => '#') + " " + text;
      HeadingOf(s, HeadingMatch(level, level + 1, |s|)) == Heading(level, Trim(text), Slug(Trim(text)))
  {
    var s := seq(level, _ => '#') + " " + text;
    assert s[level + 1..|s|] == text;
  }

  lemma SingleHeadingMatch(level: nat, text: string)
    requires 1 <= level <= 3
    requires text != [] && !IsWhitespace(text[0])
    requires forall k :: 0 <= k < |text| ==> !IsLineTerminator(text[k])
    ensures var s := seq(level, _ => '#') + " " + text;
      HeadingsFrom(s, 0) == [HeadingOf(s, HeadingMatch(level, level + 1, |s|))]
  {
    var s := seq(level, _ => '#') + " " + text;
    assert s[level] == ' ' && s[level + 1] == text[0];
    RunIs(s, 0, level, Markdown.IsHash);
    RunIs(s, level, 1, IsWhitespace);
    LineEndIs(s, level + 1);
    assert MatchHeading(s, 0) == Some(HeadingMatch(level, level + 1, |s|));
    HeadingsStep(s, 0);
    assert HeadingsFrom(s, |s|) == [];
  }

  lemma {:induction false} RunIs(s: string, i: nat, n: nat, p: char -> bool)
    requires i + n <= |s|
    requires forall k :: i <= k < i + n ==> p(s[k])
    requires i + n == |s| || !p(s[i + n])
    ensures Markdown.Run(s, i, p) == n
    decreases n
  {
    if n > 0 {
      RunIs(s, i + 1, n - 1, p);
    }
  }

  lemma {:induction false} LineEndIs(s: string, i: nat)
    requires i <= |s|
    requires forall k :: i <= k < |s| ==> !IsLineTerminator(s[k])
    ensures Markdown.LineEnd(s, i) == |s|
    decreases |s| - i
  {
    if i < |s| {
      LineEndIs(s, i + 1);
    }
  }

  /** The converse of MatchHeading's contract: at a line start, one to
      three '#', then whitespace, then a character that is not whitespace,
      the pattern matches with that level, and its text runs from that
      character to the end of its line. */
  lemma MatchHeadingAt(s: string, i: nat, h: nat, w: nat)
    requires i + h + w < |s| && Markdown.LineStart(s, i)
    requires 1 <= h <= 3 && forall k :: i <= k < i + h ==> s[k] == '#'
    requires 1 <= w && forall k :: i + h <= k < i + h + w ==> IsWhitespace(s[k])
    requires !IsWhitespace(s[i + h + w])
    ensures MatchHeading(s, i) == Some(HeadingMatch(h, i + h + w, Markdown.LineEnd(s, i + h + w)))
  {
    RunIs(s, i, h, Markdown.IsHash);
    RunIs(s, i + h, w, IsWhitespace);
    var m := HeadingMatch(h, i + h + w, Markdown.LineEnd(s, i + h + w));
    assert Markdown.Run(s, i, Markdown.IsHash) == h;
    assert Markdown.Run(s, i + h, IsWhitespace) == w;
    assert MatchHeading(s, i) == Some(m);
  }

  /** A bare `#` line takes the next line as its text: the whitespace of
      the pattern runs over the line break. */
  lemma BareHashTakesNextLine(text: string)
    requires text != [] && !IsWhitespace(text[0]) && OneLine(text)
    ensures HeadingsFrom("#\n" + text, 0) == [Heading(1, Trim(text), Slug(Trim(text)))]
  {
    var s := ['#', '\n'] + text;
    assert s == "#\n" + text;
    BareHashHeading(s, text);
  }

  lemma BareHashHeading(s: string, text: string)
    requires s == ['#', '\n'] + text
    requires text != [] && !IsWhitespace(text[0]) && OneLine(text)
    ensures HeadingsFrom(s, 0) == [Heading(1, Trim(text), Slug(Trim(text)))]
  {
    assert s[0] == '#' && s[1] == '\n' && s[2] == text[0];
    MatchHeadingAt(s, 0, 1, 1);
    LineEndIs(s, 2);
    var m := HeadingMatch(1, 2, |s|);
    assert MatchHeading(s, 0) == Some(m);
    assert s[2..|s|] == text;
    assert HeadingOf(s, m) == Heading(1, Trim(text), Slug(Trim(text)));
    HeadingsStep(s, 0);
    assert HeadingsFrom(s, |s|) == [];
  }

  /** A line with no line terminator in it. */
  predicate OneLine(line: string)
  {
    forall k :: 0 <= k < |line| ==> !IsLineTerminator(line[k])
  }

  /** One to three '#' and nothing but whitespace after them: on such a line
      the pattern runs on into the next line (BareHashTakesNextLine). */
  predicate DanglingHashes(line: string)
  {
    var h := Markdown.Run(line, 0, Markdown.IsHash);
    1 <= h <= 3 && h + Markdown.Run(line, h, IsWhitespace) == |line|
  }

  /** The heading a line gives when it is matched on its own. */
  function LineHeading(line: string): Option<Heading>
  {
    match MatchHeading(line, 0)
    case Some(m) => Some(HeadingOf(line, m))
    case None => None
  }

  /** A line gives a heading exactly when it is one to three '#' (its
      first `h` characters), whitespace (the next `w`), and a text; the
      heading has that level and that text, trimmed. */
  lemma LineHeadingFacts(line: string, h: nat, w: nat)
    requires OneLine(line) && !DanglingHashes(line)
    requires h == Markdown.Run(line, 0, Markdown.IsHash) && w == Markdown.Run(line, h, IsWhitespace)
    ensures LineHeading(line).Some? <==> 1 <= h <= 3 && 1 <= w
    ensures LineHeading(line).Some? ==>
      h + w < |line| && LineHeading(line).value == Heading(h, Trim(line[h + w..]), Slug(Trim(line[h + w..])))
  {
    if 1 <= h <= 3 && 1 <= w {
      HeadingLineMatch(line, h, w);
    } else {
      NoHeadingLine(line, h, w);
    }
  }

  lemma HeadingLineMatch(line: string, h: nat, w: nat)
    requires OneLine(line) && !DanglingHashes(line) && 1 <= h <= 3 && 1 <= w
    requires h == Markdown.Run(line, 0, Markdown.IsHash) && w == Markdown.Run(line, h, IsWhitespace)
    ensures h + w < |line| && MatchHeading(line, 0) == Some(HeadingMatch(h, h + w, |line|))
    ensures LineHeading(line) == Some(Heading(h, Trim(line[h + w..]), Slug(Trim(line[h + w..]))))
  {
    MatchHeadingAt(line, 0, h, w);
    LineEndIs(line, h + w);
    var m := HeadingMatch(h, h + w, |line|);
    assert MatchHeading(line, 0) == Some(m);
    LineHeadingOfMatch(line, m);
    HeadingOfTail(line, m, h + w);
  }

  lemma LineHeadingOfMatch(line: string, m: HeadingMatch)
    requires MatchHeading(line, 0) == Some(m)
    ensures m.textStart <= m.end <= |line| && LineHeading(line) == Some(HeadingOf(line, m))
  {
  }

  lemma HeadingOfTail(line: string, m: HeadingMatch, a: nat)
    requires m.textStart == a && a <= m.end == |line|
    ensures HeadingOf(line, m) == Heading(m.level, Trim(line[a..]), Slug(Trim(line[a..])))
  {
    assert line[a..|line|] == line[a..];
    HeadingOfText(line, m, line[a..]);
  }

  lemma NoHeadingLine(line: string, h: nat, w: nat)
    requires !(1 <= h <= 3 && 1 <= w)
    requires h == Markdown.Run(line, 0, Markdown.IsHash) && w == Markdown.Run(line, h, IsWhitespace)
    ensures MatchHeading(line, 0).None? && LineHeading(line).None?
  {
  }

  /** `line` sits in `s` from position `off` on, checked from its k-th
      character on. */
  ghost predicate EmbedsFrom(s: string, off: nat, line: string, k: nat)
    requires k <= |line|
    decreases |line| - k
  {
    off + |line| <= |s| && (k == |line| || (s[off + k] == line[k] && EmbedsFrom(s, off, line, k + 1)))
  }

  /** `line` sits in `s` from position `off` on. */
  ghost predicate Embeds(s: string, off: nat, line: string)
  {
    EmbedsFrom(s, off, line, 0)
  }

  lemma {:induction false} EmbedsFromAt(s: string, off: nat, line: string, k: nat, j: nat)
    requires k <= j < |line| && EmbedsFrom(s, off, line, k)
    ensures off + |line| <= |s| && s[off + j] == line[j]
    decreases j - k
  {
    if k < j {
      EmbedsFromAt(s, off, line, k + 1, j);
    }
  }

  lemma EmbedsAt(s: string, off: nat, line: string, j: nat)
    requires j < |line| && Embeds(s, off, line)
    ensures off + |line| <= |s| && s[off + j] == line[j]
  {
    EmbedsFromAt(s, off, line, 0, j);
  }

  lemma {:induction false} EmbedsFromSlice(s: string, off: nat, line: string, k: nat)
    requires off + |line| <= |s| && s[off..off + |line|] == line && k <= |line|
    ensures EmbedsFrom(s, off, line, k)
    decreases |line| - k
  {
    if k < |line| {
      assert s[off + k] == line[k];
      EmbedsFromSlice(s, off, line, k + 1);
    }
  }

  lemma EmbedsOfSlice(s: string, off: nat, line: string)
    requires off + |line| <= |s| && s[off..off + |line|] == line
    ensures Embeds(s, off, line)
  {
    EmbedsFromSlice(s, off, line, 0);
  }

  /** A run inside a line of a text is the run in the line itself, when it
      stops inside the line or the text's next character stops it. */
  lemma RunInSlice(s: string, off: nat, line: string, a: nat, p: char -> bool, t: nat)
    requires off + |line| <= |s| && Embeds(s, off, line) && a <= |line| && t == off + a
    requires off + |line| == |s| || !p(s[off + |line|]) || a + Markdown.Run(line, a, p) < |line|
    ensures Markdown.Run(s, t, p) == Markdown.Run(line, a, p)
  {
    RunInSliceFrom(s, off, line, a, p);
  }

  lemma {:induction false} RunInSliceFrom(s: string, off: nat, line: string, a: nat, p: char -> bool)
    requires off + |line| <= |s| && Embeds(s, off, line) && a <= |line|
    requires off + |line| == |s| || !p(s[off + |line|]) || a + Markdown.Run(line, a, p) < |line|
    ensures Markdown.Run(s, off + a, p) == Markdown.Run(line, a, p)
    decreases |line| - a
  {
    if a < |line| {
      EmbedsAt(s, off, line, a);
      if p(line[a]) {
        RunInSliceFrom(s, off, line, a + 1, p);
      }
    }
  }

  /** The end of a line of a text, seen from inside it. */
  lemma LineEndInSlice(s: string, off: nat, line: string, a: nat, t: nat)
    requires off + |line| <= |s| && Embeds(s, off, line) && a <= |line| && OneLine(line) && t == off + a
    requires off + |line| == |s| || IsLineTerminator(s[off + |line|])
    ensures Markdown.LineEnd(s, t) == off + |line|
  {
    LineEndInSliceFrom(s, off, line, a);
  }

  lemma {:induction false} LineEndInSliceFrom(s: string, off: nat, line: string, a: nat)
    requires off + |line| <= |s| && Embeds(s, off, line) && a <= |line| && OneLine(line)
    requires off + |line| == |s| || IsLineTerminator(s[off + |line|])
    ensures Markdown.LineEnd(s, off + a) == off + |line|
    decreases |line| - a
  {
    if a < |line| {
      EmbedsAt(s, off, line, a);
      LineEndInSliceFrom(s, off, line, a + 1);
    }
  }

  /** Positions inside a line are not line starts, so no search finds a
      heading there. */
  lemma {:induction false} SkipInsideLine(s: string, lo: nat, k: nat, e: nat)
    requires lo < k <= e <= |s|
    requires forall j :: lo <= j < e ==> !IsLineTerminator(s[j])
    ensures MatchesFrom(s, k) == MatchesFrom(s, e)
    decreases e - k
  {
    if k < e {
      NotLineStart(s, k);
      SkipInsideLine(s, lo, k + 1, e);
    }
  }

  /** After a character that is not a line terminator, nothing matches. */
  lemma NotLineStart(s: string, k: nat)
    requires 0 < k < |s| && !IsLineTerminator(s[k - 1])
    ensures MatchesFrom(s, k) == MatchesFrom(s, k + 1)
  {
    MatchesStep(s, k);
  }

  /** No heading starts at a line break. */
  lemma NewlineSkipped(s: string, e: nat)
    requires e < |s| && s[e] == '\n'
    ensures MatchesFrom(s, e) == MatchesFrom(s, e + 1)
  {
    MatchesStep(s, e);
  }

  /** `line` is a whole line of `s` starting at `off`: it starts a line,
      holds no line terminator, and a '\n' or the end of `s` follows it. */
  ghost predicate LineAt(s: string, off: nat, line: string)
  {
    off + |line| <= |s| && Embeds(s, off, line) && Markdown.LineStart(s, off) &&
    (off + |line| == |s| || s[off + |line|] == '\n') && OneLine(line)
  }

  /** `h` '#' open the line, then `w` whitespace characters. */
  ghost predicate LineRuns(line: string, h: nat, w: nat)
  {
    h == Markdown.Run(line, 0, Markdown.IsHash) && h <= |line| && w == Markdown.Run(line, h, IsWhitespace)
  }

  /** The match a line at `off` gives in its text, as a list of none or one. */
  function LineMatches(off: nat, line: string): (r: seq<HeadingMatch>)
    ensures |r| <= 1
  {
    var h := Markdown.Run(line, 0, Markdown.IsHash);
    var w := Markdown.Run(line, h, IsWhitespace);
    if 1 <= h <= 3 && 1 <= w && h + w < |line| then [HeadingMatch(h, off + h + w, off + |line|)] else []
  }

  /** Within a text, a line that starts a line and ends at a '\n' or at the
      end gives its own match, and the search resumes at its end. */
  lemma LineInText(s: string, off: nat, line: string)
    requires LineAt(s, off, line) && !DanglingHashes(line)
    ensures off + |line| <= |s|
    ensures MatchesFrom(s, off) == LineMatches(off, line) + MatchesFrom(s, off + |line|)
  {
    var h := Markdown.Run(line, 0, Markdown.IsHash);
    var w := Markdown.Run(line, h, IsWhitespace);
    if 1 <= h <= 3 && 1 <= w && line != [] {
      HeadingLineMatches(s, off, line, h, w);
    } else {
      OtherLineMatches(s, off, line, h, w);
    }
  }

  lemma HeadingLineMatches(s: string, off: nat, line: string, h: nat, w: nat)
    requires LineAt(s, off, line) && !DanglingHashes(line) && LineRuns(line, h, w)
    requires 1 <= h <= 3 && 1 <= w && line != []
    ensures off + |line| <= |s|
    ensures MatchesFrom(s, off) == LineMatches(off, line) + MatchesFrom(s, off + |line|)
  {
    assert h + w < |line|;
    HeadingLineInText(s, off, line, h, w);
    LineMatchesGlue(off, line, h, w, MatchesFrom(s, off), MatchesFrom(s, off + |line|));
  }

  lemma OtherLineMatches(s: string, off: nat, line: string, h: nat, w: nat)
    requires LineAt(s, off, line) && !DanglingHashes(line) && LineRuns(line, h, w)
    requires !(1 <= h <= 3 && 1 <= w && line != [])
    ensures off + |line| <= |s|
    ensures MatchesFrom(s, off) == LineMatches(off, line) + MatchesFrom(s, off + |line|)
  {
    if line != [] {
      NoMatchOnLine(s, off, line, h, w);
      SkipLine(s, off, |line|);
    }
    LineMatchesGlue(off, line, h, w, MatchesFrom(s, off), MatchesFrom(s, off + |line|));
  }

  /** The matches of a line, stated over the runs that open it. */
  lemma LineMatchesGlue(off: nat, line: string, h: nat, w: nat, all: seq<HeadingMatch>, rest: seq<HeadingMatch>)
    requires LineRuns(line, h, w)
    requires 1 <= h <= 3 && 1 <= w && h + w < |line| ==> all == [HeadingMatch(h, off + h + w, off + |line|)] + rest
    requires !(1 <= h <= 3 && 1 <= w && h + w < |line|) ==> all == rest
    ensures all == LineMatches(off, line) + rest
  {
    if !(1 <= h <= 3 && 1 <= w && h + w < |line|) {
      assert [] + rest == rest;
    }
  }


  lemma HeadingLineInText(s: string, off: nat, line: string, h: nat, w: nat)
    requires LineAt(s, off, line) && LineRuns(line, h, w) && 1 <= h <= 3 && 1 <= w && h + w < |line|
    ensures off + |line| <= |s|
    ensures MatchesFrom(s, off) == [HeadingMatch(h, off + h + w, off + |line|)] + MatchesFrom(s, off + |line|)
  {
    var m := HeadingMatch(h, off + h + w, off + |line|);
    LineMatchInText(s, off, line, h, w);
    MatchesAt(s, off, m);
    assert m.end == off + |line|;
  }

  lemma MatchesAt(s: string, i: nat, m: HeadingMatch)
    requires i < |s| && MatchHeading(s, i) == Some(m)
    ensures m.end <= |s| && MatchesFrom(s, i) == [m] + MatchesFrom(s, m.end)
  {
  }

  lemma NoMatchOnLine(s: string, off: nat, line: string, h: nat, w: nat)
    requires LineAt(s, off, line) && LineRuns(line, h, w) && line != []
    requires !DanglingHashes(line) && !(1 <= h <= 3 && 1 <= w)
    ensures off + |line| <= |s| && MatchHeading(s, off).None?
    ensures NoTerminatorIn(s, off, off + |line|)
  {
    LineNoMatchInText(s, off, line, h, w);
    OneLineInText(s, off, line);
  }

  /** A position where nothing matches, inside a line: the search moves on
      to the line's end. */
  lemma SkipLine(s: string, off: nat, n: nat)
    requires 0 < n && off + n <= |s| && MatchHeading(s, off).None?
    requires NoTerminatorIn(s, off, off + n)
    ensures MatchesFrom(s, off) == MatchesFrom(s, off + n)
  {
    MatchesStep(s, off);
    SkipInsideLine(s, off, off + 1, off + n);
    SameMatches(MatchesFrom(s, off), MatchesFrom(s, off + 1), MatchesFrom(s, off + n));
  }

  /** No line terminator in `s[lo..hi]`. */
  ghost predicate NoTerminatorIn(s: string, lo: nat, hi: nat)
    requires lo <= hi <= |s|
  {
    forall j :: lo <= j < hi ==> !IsLineTerminator(s[j])
  }

  lemma SameMatches(a: seq<HeadingMatch>, b: seq<HeadingMatch>, c: seq<HeadingMatch>)
    requires a == b && b == c
    ensures a == c
  {
  }

  lemma OneLineInText(s: string, off: nat, line: string)
    requires LineAt(s, off, line)
    ensures off + |line| <= |s|
    ensures forall j :: off <= j < off + |line| ==> !IsLineTerminator(s[j])
  {
    forall j | off <= j < off + |line| ensures !IsLineTerminator(s[j]) {
      EmbedsAt(s, off, line, j - off);
    }
  }

  lemma LineMatchInText(s: string, off: nat, line: string, h: nat, w: nat)
    requires LineAt(s, off, line) && LineRuns(line, h, w) && 1 <= h <= 3 && 1 <= w && h + w < |line|
    ensures off + |line| <= |s|
    ensures MatchHeading(s, off) == Some(HeadingMatch(h, off + h + w, off + |line|))
  {
    RunInSlice(s, off, line, 0, Markdown.IsHash, off);
    RunInSlice(s, off, line, h, IsWhitespace, off + h);
    LineEndInSlice(s, off, line, h + w, off + h + w);
    MatchFromRuns(s, off, h, w, off + |line|);
  }

  lemma MatchFromRuns(s: string, i: nat, h: nat, w: nat, e: nat)
    requires i + h + w < |s| && Markdown.LineStart(s, i) && 1 <= h <= 3 && 1 <= w
    requires h == Markdown.Run(s, i, Markdown.IsHash) && w == Markdown.Run(s, i + h, IsWhitespace)
    requires e == Markdown.LineEnd(s, i + h + w)
    ensures MatchHeading(s, i) == Some(HeadingMatch(h, i + h + w, e))
  {
  }

  lemma LineNoMatchInText(s: string, off: nat, line: string, h: nat, w: nat)
    requires LineAt(s, off, line) && LineRuns(line, h, w)
    requires !DanglingHashes(line) && !(1 <= h <= 3 && 1 <= w)
    ensures off <= |s| && MatchHeading(s, off).None?
  {
    RunInSlice(s, off, line, 0, Markdown.IsHash, off);
    if 1 <= h <= 3 {
      RunInSlice(s, off, line, h, IsWhitespace, off + h);
    }
  }

  lemma SliceTail(s: string, off: nat, line: string, a: nat, t: nat)
    requires off + |line| <= |s| && Embeds(s, off, line) && a <= |line| && t == off + a
    ensures s[t..off + |line|] == line[a..]
  {
    forall j | 0 <= j < |line| - a ensures s[t..off + |line|][j] == line[a..][j] {
      EmbedsAt(s, off, line, a + j);
    }
  }

  lemma HeadingOfText(s: string, m: HeadingMatch, text: string)
    requires m.textStart <= m.end <= |s| && s[m.textStart..m.end] == text
    ensures HeadingOf(s, m) == Heading(m.level, Trim(text), Slug(Trim(text)))
  {
  }

  /** The match of a line gives the heading the line gives on its own. */
  lemma LineMatchHeading(s: string, off: nat, line: string)
    requires off + |line| <= |s| && Embeds(s, off, line) && OneLine(line) && !DanglingHashes(line)
    ensures MatchesIn(s, LineMatches(off, line))
    ensures HeadingsOf(s, LineMatches(off, line)) == Collect([line], LineHeading)
  {
    var h := Markdown.Run(line, 0, Markdown.IsHash);
    var w := Markdown.Run(line, h, IsWhitespace);
    if 1 <= h <= 3 && 1 <= w {
      HeadingLineHeading(s, off, line, h, w);
    } else {
      OtherLineHeading(s, off, line, h, w);
    }
  }

  lemma HeadingLineHeading(s: string, off: nat, line: string, h: nat, w: nat)
    requires off + |line| <= |s| && Embeds(s, off, line) && OneLine(line) && !DanglingHashes(line)
    requires LineRuns(line, h, w) && 1 <= h <= 3 && 1 <= w
    ensures MatchesIn(s, LineMatches(off, line))
    ensures HeadingsOf(s, LineMatches(off, line)) == Collect([line], LineHeading)
  {
    LineHeadingList(line, h, w);
    SliceTail(s, off, line, h + w, off + h + w);
    MatchedLineHeading(s, off, line, h, w);
    LineMatchesOne(off, line, h, w);
  }

  lemma LineHeadingList(line: string, h: nat, w: nat)
    requires OneLine(line) && !DanglingHashes(line) && LineRuns(line, h, w) && 1 <= h <= 3 && 1 <= w
    ensures h + w < |line|
    ensures Collect([line], LineHeading) == [Heading(h, Trim(line[h + w..]), Slug(Trim(line[h + w..])))]
  {
    LineHeadingFacts(line, h, w);
    CollectSingle(line, LineHeading);
  }

  lemma LineMatchesOne(off: nat, line: string, h: nat, w: nat)
    requires LineRuns(line, h, w) && 1 <= h <= 3 && 1 <= w && h + w < |line|
    ensures LineMatches(off, line) == [HeadingMatch(h, off + h + w, off + |line|)]
  {
  }

  lemma OtherLineHeading(s: string, off: nat, line: string, h: nat, w: nat)
    requires OneLine(line) && !DanglingHashes(line)
    requires LineRuns(line, h, w) && !(1 <= h <= 3 && 1 <= w)
    ensures MatchesIn(s, LineMatches(off, line))
    ensures HeadingsOf(s, LineMatches(off, line)) == Collect([line], LineHeading)
  {
    LineHeadingFacts(line, h, w);
    CollectSingle(line, LineHeading);
    assert LineMatches(off, line) == [];
  }

  lemma MatchedLineHeading(s: string, off: nat, line: string, h: nat, w: nat)
    requires 1 <= h <= 3 && h + w < |line| && off + |line| <= |s|
    requires s[off + h + w..off + |line|] == line[h + w..]
    ensures var m := HeadingMatch(h, off + h + w, off + |line|);
      MatchesIn(s, [m]) && HeadingsOf(s, [m]) == [Heading(h, Trim(line[h + w..]), Slug(Trim(line[h + w..])))]
  {
    HeadingsOfSingle(s, HeadingMatch(h, off + h + w, off + |line|), line[h + w..]);
  }

  /** One match whose text is `text` gives the heading of `text`. */
  lemma HeadingsOfSingle(s: string, m: HeadingMatch, text: string)
    requires 1 <= m.level <= 3 && m.textStart <= m.end <= |s| && s[m.textStart..m.end] == text
    ensures MatchesIn(s, [m]) && HeadingsOf(s, [m]) == [Heading(m.level, Trim(text), Slug(Trim(text)))]
  {
    HeadingOfText(s, m, text);
  }

  lemma HeadingsOfAppend(s: string, a: seq<HeadingMatch>, b: seq<HeadingMatch>)
    requires MatchesIn(s, a) && MatchesIn(s, b)
    ensures MatchesIn(s, a + b) && HeadingsOf(s, a + b) == HeadingsOf(s, a) + HeadingsOf(s, b)
  {
    var ab := a + b;
    forall k | 0 <= k < |ab| ensures 1 <= ab[k].level <= 3 && ab[k].textStart <= ab[k].end <= |s| {
      if k >= |a| {
        assert ab[k] == b[k - |a|];
      }
    }
    var l, l1, l2 := HeadingsOf(s, ab), HeadingsOf(s, a), HeadingsOf(s, b);
    forall k | 0 <= k < |l| ensures l[k] == (l1 + l2)[k] {
      if k >= |a| {
        assert ab[k] == b[k - |a|];
      }
    }
  }

  /** The last line of a joined text sits at its end. */
  lemma LastLinePart(s: string, off: nat, line: string)
    requires off <= |s| && s[off..] == line
    ensures off + |line| == |s| && Embeds(s, off, line)
  {
    assert s[off..off + |line|] == line;
    EmbedsOfSlice(s, off, line);
  }

  /** A line followed by more lines sits before a '\n' and the rest. */
  lemma FirstLinePart(s: string, off: nat, line: string, rest: seq<string>)
    requires off <= |s| && s[off..] == Join([line] + rest, "\n") && rest != []
    ensures off + |line| < |s| && Embeds(s, off, line) && s[off + |line|] == '\n'
    ensures s[off + |line| + 1..] == Join(rest, "\n")
  {
    var e := off + |line|;
    JoinCons(line, rest, "\n");
    assert s[off..] == line + "\n" + Join(rest, "\n");
    assert s[off..e] == line by {
      assert s[off..e] == s[off..][..|line|];
    }
    EmbedsOfSlice(s, off, line);
    assert s[e] == s[off..][|line|] == '\n';
    assert s[e + 1..] == Join(rest, "\n") by {
      assert s[e + 1..] == s[off..][|line| + 1..];
    }
  }

  /** The headings of a text made of lines joined by '\n' are the headings
      of its lines, each taken on its own, in line order, when no line is
      just one to three '#' and whitespace. */
  lemma {:induction false} HeadingsOfLinesFrom(s: string, off: nat, lines: seq<string>)
    requires off <= |s| && s[off..] == Join(lines, "\n") && Markdown.LineStart(s, off) && |lines| >= 1
    requires forall k :: 0 <= k < |lines| ==> OneLine(lines[k]) && !DanglingHashes(lines[k])
    ensures HeadingsFrom(s, off) == Collect(lines, LineHeading)
    decreases |lines|
  {
    var line := lines[0];
    if |lines| == 1 {
      assert Join(lines, "\n") == line;
      LastLinePart(s, off, line);
      assert lines == [line] + [];
      LastLineHeadings(s, off, line);
    } else {
      var rest := lines[1..];
      assert lines == [line] + rest;
      FirstLinePart(s, off, line, rest);
      HeadingsOfLinesFrom(s, off + |line| + 1, rest);
      FirstLineHeadings(s, off, line, rest);
    }
  }

  lemma LastLineHeadings(s: string, off: nat, line: string)
    requires off + |line| == |s| && Embeds(s, off, line) && Markdown.LineStart(s, off)
    requires OneLine(line) && !DanglingHashes(line)
    ensures HeadingsFrom(s, off) == Collect([line] + [], LineHeading)
  {
    assert LineAt(s, off, line);
    LineInText(s, off, line);
    LineMatchHeading(s, off, line);
    assert LineMatches(off, line) + [] == LineMatches(off, line);
    assert [line] + [] == [line];
  }

  lemma FirstLineHeadings(s: string, off: nat, line: string, rest: seq<string>)
    requires off + |line| < |s| && Embeds(s, off, line) && s[off + |line|] == '\n' && Markdown.LineStart(s, off)
    requires OneLine(line) && !DanglingHashes(line)
    requires HeadingsFrom(s, off + |line| + 1) == Collect(rest, LineHeading)
    ensures HeadingsFrom(s, off) == Collect([line] + rest, LineHeading)
  {
    FirstLineMatches(s, off, line);
    LineMatchHeading(s, off, line);
    HeadingsOfAppend(s, LineMatches(off, line), MatchesFrom(s, off + |line| + 1));
    CollectAppend([line], rest, LineHeading);
  }

  /** The matches from a line's start: those of the line, then those after
      the '\n' that ends it. */
  lemma FirstLineMatches(s: string, off: nat, line: string)
    requires off + |line| < |s| && Embeds(s, off, line) && s[off + |line|] == '\n' && Markdown.LineStart(s, off)
    requires OneLine(line) && !DanglingHashes(line)
    ensures MatchesFrom(s, off) == LineMatches(off, line) + MatchesFrom(s, off + |line| + 1)
  {
    assert LineAt(s, off, line);
    LineInText(s, off, line);
    NewlineSkipped(s, off + |line|);
    AppendSame(MatchesFrom(s, off), LineMatches(off, line), MatchesFrom(s, off + |line|), MatchesFrom(s, off + |line| + 1));
  }

  lemma AppendSame(all: seq<HeadingMatch>, a: seq<HeadingMatch>, r1: seq<HeadingMatch>, r2: seq<HeadingMatch>)
    requires all == a + r1 && r1 == r2
    ensures all == a + r2
  {
  }

  /** extractHeadings lists the heading lines of the content in document
      order: for a content that is its lines joined by '\n', where no line
      is just one to three '#' and whitespace, the headings are those of
      its lines taken one by one. */
  lemma HeadingsOfLines(lines: seq<string>)
    requires forall k :: 0 <= k < |lines| ==> OneLine(lines[k]) && !DanglingHashes(lines[k])
    ensures HeadingsFrom(Join(lines, "\n"), 0) == Collect(lines, LineHeading)
  {
    if lines != [] {
      HeadingsOfLinesFrom(Join(lines, "\n"), 0, lines);
    }
  }

  // ---------------------------------------------------------------------
  // Heading ids: toLowerCase, drop [^\w\s가-힣-], each whitespace run to '-'

  predicate IsHangulSyllable(c: char) { '\U{AC00}' <= c <= '\U{D7A3}' }

  predicate IsIdChar(c: char) { IsWordChar(c) || IsWhitespace(c) || IsHangulSyllable(c) || c == '-' }

  function DashSpaces(s: string): (r: string)
    ensures forall k :: 0 <= k < |r| ==> !IsWhitespace(r[k])
    ensures forall k :: 0 <= k < |r| ==> r[k] == '-' || r[k] in s
    decreases |s|
  {
    if s == [] then []
    else if IsWhitespace(s[0]) then
      var rest := TrimStart(s);
      TrimStartSuffix(s);
      "-" + DashSpaces(rest)
    else
      var r := [s[0]] + DashSpaces(s[1..]);
      assert forall k :: 1 <= k < |s| ==> s[k] == s[1..][k - 1];
      r
  }

  /** The id of a heading with text `text`, for the table of contents and
      for the rendered h1, h2 and h3 alike. */
  function Slug(text: string): (id: string)
    ensures forall k :: 0 <= k < |id| ==> !IsWhitespace(id[k]) && !IsAsciiUpper(id[k]) && IsIdChar(id[k])
  {
    var kept := Filter(Lower(text), IsIdChar);
    var id := DashSpaces(kept);
    assert forall k :: 0 <= k < |kept| ==> !IsAsciiUpper(kept[k]) && IsIdChar(kept[k]) by {
      forall k | 0 <= k < |kept| ensures !IsAsciiUpper(kept[k]) && IsIdChar(kept[k]) {
        var j :| 0 <= j < |Lower(text)| && Lower(text)[j] == kept[k];
      }
    }
    id
  }

  lemma {:induction false} DashSpacesPlain(s: string)
    requires forall k :: 0 <= k < |s| ==> !IsWhitespace(s[k])
    ensures DashSpaces(s) == s
  {
    if s != [] {
      DashSpacesPlain(s[1..]);
    }
  }

  /** An id is its own slug: slugging is idempotent. */
  lemma SlugIdempotent(text: string)
    ensures Slug(Slug(text)) == Slug(text)
  {
    var id := Slug(text);
    assert Lower(id) == id;
    FilterAll(id, IsIdChar);
    DashSpacesPlain(id);
  }

  // ---------------------------------------------------------------------
  // Image sources

  predicate IsAbsoluteUrl(src: string)
  {
    StartsWith(src, "http://") || StartsWith(src, "https://")
  }

  /** One part of a relative path applied to the directory stack. */
  function Step(stack: seq<string>, part: string): seq<string>
  {
    if part == ".." then (if stack == [] then [] else stack[..|stack| - 1])
    else if part == "." then stack
    else stack + [part]
  }

  function ResolveParts(base: seq<string>, parts: seq<string>): seq<string>
  {
    if parts == [] then base else Step(ResolveParts(base, parts[..|parts| - 1]), parts[|parts| - 1])
  }

  /** The for loop over the parts of `src`. */
  method ResolvePath(base: seq<string>, parts: seq<string>) returns (resolved: seq<string>)
    ensures resolved == ResolveParts(base, parts)
  {
    resolved := base;
    for i := 0 to |parts|
      invariant resolved == ResolveParts(base, parts[..i])
    {
      if parts[i] == ".." {
        if resolved != [] {
          resolved := resolved[..|resolved| - 1];
        }
      } else if parts[i] != "." {
        resolved := resolved + [parts[i]];
      }
      assert parts[..i + 1][..i] == parts[..i];
    }
    TakeAll(parts);
  }

  /** The image source used for `src` in a post of `category`; `rawBase` is
      the raw-content URL of the repository. */
  function ResolveSrc(src: string, category: string, rawBase: string): string
  {
    if src == "" || IsAbsoluteUrl(src) then src
    else rawBase + "/" + Join(ResolveParts(Split("dev/" + category, '/'), Split(src, '/')), "/")
  }

  /** Parts with neither "." nor ".." are appended to the directory. */
  lemma {:induction false} PlainPartsAppend(base: seq<string>, parts: seq<string>)
    requires forall k :: 0 <= k < |parts| ==> parts[k] != "." && parts[k] != ".."
    ensures ResolveParts(base, parts) == base + parts
  {
    if parts != [] {
      var init := parts[..|parts| - 1];
      PlainPartsAppend(base, init);
      assert base + parts == base + init + [parts[|parts| - 1]];
    }
  }

  /** ".." undoes the part before it, and "." changes nothing. */
  lemma DotDotCancels(base: seq<string>, parts: seq<string>, p: string)
    requires p != "." && p != ".."
    ensures ResolveParts(base, parts + [p, ".."]) == ResolveParts(base, parts)
    ensures ResolveParts(base, parts + ["."]) == ResolveParts(base, parts)
  {
    var a := parts + [p, ".."];
    assert a[..|a| - 1] == parts + [p];
    assert (parts + [p])[..|parts|] == parts;
    assert (parts + ["."])[..|parts|] == parts;
  }

  /** Every resolved part comes from the directory or is a part of the
      source other than "." and "..". */
  lemma {:induction false} ResolvedParts(base: seq<string>, parts: seq<string>)
    ensures forall x :: x in ResolveParts(base, parts) ==>
      x in base || (x in parts && x != "." && x != "..")
  {
    if parts != [] {
      var init := parts[..|parts| - 1];
      ResolvedParts(base, init);
      forall x | x in ResolveParts(base, parts)
        ensures x in base || (x in parts && x != "." && x != "..")
      {
        var prev := ResolveParts(base, init);
        if x in prev {
          if x in init {
            var k :| 0 <= k < |init| && init[k] == x;
            assert parts[k] == x;
          }
        } else {
          assert x == parts[|parts| - 1];
        }
      }
    }
  }

  /** Empty and absolute sources are kept as they are; any other is a
      path under the raw-content URL. */
  lemma ResolveSrcFacts(src: string, category: string, rawBase: string)
    ensures src == "" || IsAbsoluteUrl(src) ==> ResolveSrc(src, category, rawBase) == src
    ensures src != "" && !IsAbsoluteUrl(src) ==> StartsWith(ResolveSrc(src, category, rawBase), rawBase + "/")
  {
    if src != "" && !IsAbsoluteUrl(src) {
      var r := ResolveSrc(src, category, rawBase);
      assert r[..|rawBase + "/"|] == rawBase + "/";
    }
  }

  /** Resolving two runs of parts is resolving the second from where the
      first left off. */
  lemma {:induction false} ResolvePartsAppend(base: seq<string>, a: seq<string>, b: seq<string>)
    ensures ResolveParts(base, a + b) == ResolveParts(ResolveParts(base, a), b)
  {
    if b == [] {
      assert a + b == a;
    } else {
      var init := b[..|b| - 1];
      ResolvePartsAppend(base, a, init);
      assert (a + b)[..|a + b| - 1] == a + init;
    }
  }

  /** A relative source with neither "." nor ".." parts lies in the post's
      folder: `img.png` in category c is `<rawBase>/dev/c/img.png`. */
  lemma ResolveSrcPlain(src: string, category: string, rawBase: string)
    requires src != "" && !IsAbsoluteUrl(src)
    requires forall k :: 0 <= k < |Split(src, '/')| ==> Split(src, '/')[k] != "." && Split(src, '/')[k] != ".."
    ensures ResolveSrc(src, category, rawBase) == rawBase + "/dev/" + category + "/" + src
  {
    var dir := "dev/" + category;
    JoinPlainParts(dir, src);
    assert ResolveSrc(src, category, rawBase) == rawBase + "/" + (dir + "/" + src);
    CategoryPathUnder(rawBase, category, src);
  }

  lemma CategoryPathUnder(rawBase: string, category: string, src: string)
    ensures rawBase + "/" + ("dev/" + category + "/" + src) == rawBase + "/dev/" + category + "/" + src
  {
    assert "/" + "dev/" == "/dev/";
  }

  lemma JoinPlainParts(dir: string, src: string)
    requires forall k :: 0 <= k < |Split(src, '/')| ==> Split(src, '/')[k] != "." && Split(src, '/')[k] != ".."
    ensures Join(ResolveParts(Split(dir, '/'), Split(src, '/')), "/") == dir + "/" + src
  {
    var base := Split(dir, '/');
    var parts := Split(src, '/');
    PlainPartsAppend(base, parts);
    JoinAppend(base, parts, "/");
    JoinSplit(dir, '/');
    JoinSplit(src, '/');
  }

  /** A source starting with "../" climbs out of the post's folder into
      `dev`: `../shared/a.png` in category c is `<rawBase>/dev/shared/a.png`. */
  lemma ResolveSrcParent(rest: string, category: string, rawBase: string)
    requires '/' !in category
    requires forall k :: 0 <= k < |Split(rest, '/')| ==> Split(rest, '/')[k] != "." && Split(rest, '/')[k] != ".."
    ensures ResolveSrc("../" + rest, category, rawBase) == rawBase + "/dev/" + rest
  {
    var src := "../" + rest;
    ParentSrcParts(rest);
    var parts := Split(src, '/');
    DevDirParts(category);
    var base := Split("dev/" + category, '/');
    ParentParts(category, rest);
    var joined := Join(ResolveParts(base, parts), "/");
    assert joined == "dev" + "/" + rest;
    assert ResolveSrc(src, category, rawBase) == rawBase + "/" + joined;
    PrefixUnder(rawBase, rest);
  }

  lemma PrefixUnder(rawBase: string, rest: string)
    ensures rawBase + "/" + ("dev" + "/" + rest) == rawBase + "/dev/" + rest
  {
    assert "dev" + "/" == "dev/";
    assert "/" + "dev/" == "/dev/";
  }

  lemma ParentSrcParts(rest: string)
    ensures "../" + rest != "" && !IsAbsoluteUrl("../" + rest)
    ensures Split("../" + rest, '/') == [".."] + Split(rest, '/')
  {
    var src := "../" + rest;
    assert src == ".." + ['/'] + rest;
    assert src[0] == '.';
    SplitAtFirst("..", rest, '/');
  }

  lemma DevDirParts(category: string)
    requires '/' !in category
    ensures Split("dev/" + category, '/') == ["dev", category]
  {
    assert "dev/" + category == "dev" + ['/'] + category;
    SplitAtFirst("dev", category, '/');
    assert Split(category, '/') == [category];
  }

  lemma ParentParts(category: string, rest: string)
    requires forall k :: 0 <= k < |Split(rest, '/')| ==> Split(rest, '/')[k] != "." && Split(rest, '/')[k] != ".."
    ensures Join(ResolveParts(["dev", category], [".."] + Split(rest, '/')), "/") == "dev" + "/" + rest
  {
    var parts := Split(rest, '/');
    var base := ["dev", category];
    ResolvePartsAppend(base, [".."], parts);
    assert ResolveParts(base, [".."]) == ["dev"] by {
      assert [".."][..0] == [];
    }
    PlainPartsAppend(["dev"], parts);
    JoinCons("dev", parts, "/");
    JoinSplit(rest, '/');
  }

  // ---------------------------------------------------------------------
  // Reader settings

  const MinFontSize: int := 14

  const MaxFontSize: int := 22

  const DefaultFontSize: int := 16

  const FontSizeKey: string := "chapter-font-size"

  const FontFamilyKey: string := "chapter-font-family"

  const SepiaKey: string := "chapter-sepia-mode"

  /** `Math.min(Math.max(size + delta, 14), 22)` */
  function ClampFontSize(size: int, delta: int): (r: int)
    ensures MinFontSize <= r <= MaxFontSize
    ensures MinFontSize <= size + delta <= MaxFontSize ==> r == size + delta
    ensures size + delta < MinFontSize ==> r == MinFontSize
    ensures size + delta > MaxFontSize ==> r == MaxFontSize
  {
    var up := if size + delta > MinFontSize then size + delta else MinFontSize;
    if up < MaxFontSize then up else MaxFontSize
  }

  function BoolString(b: bool): string
  {
    if b then "true" else "false"
  }

  /** The font size, font family and sepia flag of the reader, and the
      local storage they are saved in. */
  class ReaderSettings {
    var fontSize: int
    var fontFamily: string
    var sepia: bool
    var storage: map<string, string>

    /** The initial state: the saved values, or 16, 'default' and off. The
        saved font size is read with `parseInt(saved, 10)`. */
    constructor(stored: map<string, string>)
      ensures storage == stored
      ensures fontSize == (if FontSizeKey in stored && stored[FontSizeKey] != "" && GitNames.ParseDecimal(stored[FontSizeKey]).Some?
                           then GitNames.ParseDecimal(stored[FontSizeKey]).value else DefaultFontSize)
      ensures fontFamily == (if FontFamilyKey in stored && stored[FontFamilyKey] != "" then stored[FontFamilyKey] else "default")
      ensures sepia == (SepiaKey in stored && stored[SepiaKey] == "true")
    {
      storage := stored;
      var saved := if FontSizeKey in stored then stored[FontSizeKey] else "";
      var parsed := GitNames.ParseDecimal(saved);
      fontSize := if saved != "" && parsed.Some? then parsed.value else DefaultFontSize;
      fontFamily := if FontFamilyKey in stored && stored[FontFamilyKey] != "" then stored[FontFamilyKey] else "default";
      sepia := SepiaKey in stored && stored[SepiaKey] == "true";
    }

    /** changeFontSize: the size moves by `delta` but stays within 14..22,
        and is saved. */
    method ChangeFontSize(delta: int)
      modifies this
      ensures fontSize == ClampFontSize(old(fontSize), delta)
      ensures MinFontSize <= fontSize <= MaxFontSize
      ensures storage == old(storage)[FontSizeKey := GitNames.NatToString(fontSize)]
      ensures fontFamily == old(fontFamily) && sepia == old(sepia)
    {
      var next := ClampFontSize(fontSize, delta);
      storage := storage[FontSizeKey := GitNames.NatToString(next)];
      fontSize := next;
    }

    method ChangeFontFamily(family: string)
      modifies this
      ensures fontFamily == family && storage == old(storage)[FontFamilyKey := family]
      ensures fontSize == old(fontSize) && sepia == old(sepia)
    {
      fontFamily := family;
      storage := storage[FontFamilyKey := family];
    }

    /** toggleSepiaMode: flips the flag and saves the new value. */
    method ToggleSepia()
      modifies this
      ensures sepia == !old(sepia)
      ensures storage == old(storage)[SepiaKey := BoolString(sepia)]
      ensures fontSize == old(fontSize) && fontFamily == old(fontFamily)
    {
      var next := !sepia;
      storage := storage[SepiaKey := BoolString(next)];
      sepia := next;
    }
  }

  /** Toggling sepia twice restores the flag, and the saved value then
      agrees with it. */
  method ToggleTwice(settings: ReaderSettings)
    modifies settings
    ensures settings.sepia == old(settings.sepia)
    ensures SepiaKey in settings.storage && settings.storage[SepiaKey] == BoolString(settings.sepia)
    ensures settings.fontSize == old(settings.fontSize)
  {
    settings.ToggleSepia();
    settings.ToggleSepia();
  }

  /** After a change the saved font size reads back as the new size. */
  method SavedSizeReadsBack(settings: ReaderSettings, delta: int)
    modifies settings
    ensures settings.fontSize >= MinFontSize
    ensures FontSizeKey in settings.storage && settings.storage[FontSizeKey] == GitNames.NatToString(settings.fontSize)
    ensures GitNames.DigitsValue(GitNames.NatToString(settings.fontSize)) == settings.fontSize
  {
    settings.ChangeFontSize(delta);
    var size: nat := settings.fontSize;
    GitNames.DigitsValueOfNat(size);
  }

  /** A size change survives a reload: settings read back from the saved
      storage have the new font size. */
  method ReloadKeepsFontSize(settings: ReaderSettings, delta: int) returns (reloaded: ReaderSettings)
    modifies settings
    ensures reloaded.storage == settings.storage
    ensures reloaded.fontSize == settings.fontSize == ClampFontSize(old(settings.fontSize), delta)
  {
    settings.ChangeFontSize(delta);
    var size: nat := settings.fontSize;
    GitNames.ParseDecimalOfNat(size, "");
    assert GitNames.NatToString(size) + "" == GitNames.NatToString(size);
    reloaded := new ReaderSettings(settings.storage);
  }
}
