/** The markdown-to-plain-text pipeline that feeds the search index
    (stripMarkdown in src/api/github.js): twelve global regular-expression
    replacements followed by trim. Each pattern is modelled by the match it
    finds at a position, and a global replacement scans left to right,
    replacing each leftmost match and resuming after it. */
module Markdown {
  import opened Common

  /** A match: where it ends, and the text that replaces it. */
  datatype Hit = Hit(end: nat, replacement: string)

  datatype Pattern =
    | CodeBlock       // /```[\s\S]*?```/g            -> ''
    | InlineCode      // /`[^`]+`/g                    -> ''
    | Image           // /!\[.*?\]\(.*?\)/g            -> ''
    | Link            // /\[([^\]]+)\]\(.*?\)/g        -> '$1'
    | Heading         // /#{1,6}\s+/g                  -> ''
    | Emphasis        // /[*_~]{1,3}(.*?)[*_~]{1,3}/g  -> '$1'
    | ListMarker      // /^\s*[-*+]\s+/gm              -> ''
    | OrderedMarker   // /^\s*\d+\.\s+/gm              -> ''
    | Blockquote      // /^\s*>\s+/gm                  -> ''
    | TableRow        // /\|.*\|/g                     -> ''
    | Rule            // /[-=]{3,}/g                   -> ''
    | BlankLines      // /\n{2,}/g                     -> '\n'

  // ---------------------------------------------------------------------
  // Scanning helpers

  predicate IsHash(c: char) { c == '#' }
  predicate IsNewline(c: char) { c == '\n' }
  predicate IsBacktick(c: char) { c == '`' }
  predicate IsCloseBracket(c: char) { c == ']' }
  predicate IsCloseParen(c: char) { c == ')' }
  predicate IsPipe(c: char) { c == '|' }
  predicate IsEmphasisMarker(c: char) { c == '*' || c == '_' || c == '~' }
  predicate IsBulletMarker(c: char) { c == '-' || c == '*' || c == '+' }
  predicate IsRuleChar(c: char) { c == '-' || c == '=' }

  /** Length of the run of characters satisfying `p` that starts at `i`. */
  function Run(s: string, i: nat, p: char -> bool): (n: nat)
    requires i <= |s|
    decreases |s| - i
    ensures i + n <= |s|
    ensures forall k :: i <= k < i + n ==> p(s[k])
    ensures i + n == |s| || !p(s[i + n])
  {
    if i < |s| && p(s[i]) then 1 + Run(s, i + 1, p) else 0
  }

  /** The first position at or after `i` holding a character that satisfies `p`;
      with `sameLine`, the search stops at the first line terminator (the dot). */
  function FindFrom(s: string, i: nat, p: char -> bool, sameLine: bool): (r: Option<nat>)
    requires i <= |s|
    decreases |s| - i
    ensures r.Some? ==> i <= r.value < |s| && p(s[r.value])
    ensures r.Some? ==> forall k :: i <= k < r.value ==> !p(s[k]) && !(sameLine && IsLineTerminator(s[k]))
  {
    if i == |s| then None
    else if p(s[i]) then Some(i)
    else if sameLine && IsLineTerminator(s[i]) then None
    else FindFrom(s, i + 1, p, sameLine)
  }

  /** The first `](` at or after `i` on the same line. */
  function FindBracketParen(s: string, i: nat): (r: Option<nat>)
    requires i <= |s|
    decreases |s| - i
    ensures r.Some? ==> i <= r.value && r.value + 1 < |s| && s[r.value] == ']' && s[r.value + 1] == '('
  {
    if i == |s| || IsLineTerminator(s[i]) then None
    else if s[i] == ']' && i + 1 < |s| && s[i + 1] == '(' then Some(i)
    else FindBracketParen(s, i + 1)
  }

  /** The end of the line that contains position i. */
  function LineEnd(s: string, i: nat): (e: nat)
    requires i <= |s|
    decreases |s| - i
    ensures i <= e <= |s|
    ensures forall k :: i <= k < e ==> !IsLineTerminator(s[k])
    ensures e == |s| || IsLineTerminator(s[e])
  {
    if i == |s| || IsLineTerminator(s[i]) then i else LineEnd(s, i + 1)
  }

  /** The last position in [lo, hi) holding `c`. */
  function LastIn(s: string, lo: nat, hi: nat, c: char): (r: Option<nat>)
    requires lo <= hi <= |s|
    decreases hi - lo
    ensures r.Some? ==> lo <= r.value < hi && s[r.value] == c
  {
    if lo == hi then None
    else if s[hi - 1] == c then Some(hi - 1)
    else LastIn(s, lo, hi - 1, c)
  }

  predicate LineStart(s: string, i: nat)
    requires i <= |s|
  {
    i == 0 || IsLineTerminator(s[i - 1])
  }

  // ---------------------------------------------------------------------
  // One match per pattern

  function MatchCodeBlock(s: string, i: nat): (r: Option<Hit>)
    requires i < |s|
    ensures r.Some? ==> i < r.value.end <= |s|
  {
    if !OccursAt(s, "```", i) then None
    else match IndexOfFrom(s, "```", i + 3)
      case Some(j) => Some(Hit(j + 3, ""))
      case None => None
  }

  function MatchInlineCode(s: string, i: nat): (r: Option<Hit>)
    requires i < |s|
    ensures r.Some? ==> i < r.value.end <= |s|
  {
    if s[i] != '`' || i + 1 == |s| || s[i + 1] == '`' then None
    else match FindFrom(s, i + 1, IsBacktick, false)
      case Some(k) => Some(Hit(k + 1, ""))
      case None => None
  }

  function MatchImage(s: string, i: nat): (r: Option<Hit>)
    requires i < |s|
    ensures r.Some? ==> i < r.value.end <= |s|
  {
    if s[i] != '!' || i + 1 == |s| || s[i + 1] != '[' then None
    else match FindBracketParen(s, i + 2)
      case None => None
      case Some(j) =>
        match FindFrom(s, j + 2, IsCloseParen, true)
        case Some(k) => Some(Hit(k + 1, ""))
        case None => None
  }

  function MatchLink(s: string, i: nat): (r: Option<Hit>)
    requires i < |s|
    ensures r.Some? ==> i < r.value.end <= |s|
  {
    if s[i] != '[' then None
    else match FindFrom(s, i + 1, IsCloseBracket, false)
      case None => None
      case Some(k) =>
        if k == i + 1 || k + 1 == |s| || s[k + 1] != '(' then None
        else match FindFrom(s, k + 2, IsCloseParen, true)
          case Some(m) => Some(Hit(m + 1, s[i + 1..k]))
          case None => None
  }

  function MatchHeading(s: string, i: nat): (r: Option<Hit>)
    requires i < |s|
    ensures r.Some? ==> i < r.value.end <= |s|
  {
    var hashes := Run(s, i, IsHash);
    var j := i + hashes;
    if hashes == 0 || hashes > 6 || j == |s| || !IsWhitespace(s[j]) then None
    else Some(Hit(j + Run(s, j, IsWhitespace), ""))
  }

  /** The opener takes up to three markers; the lazy group then stops at the
      first marker on the line, and the closer takes up to three markers. With
      no closer on the line, the opener gives one marker back to the closer. */
  function MatchEmphasis(s: string, i: nat): (r: Option<Hit>)
    requires i < |s|
    ensures r.Some? ==> i < r.value.end <= |s|
  {
    var run := Run(s, i, IsEmphasisMarker);
    if run == 0 then None
    else if run > 3 then
      var closer := if run - 3 > 3 then 3 else run - 3;
      Some(Hit(i + 3 + closer, ""))
    else match FindFrom(s, i + run, IsEmphasisMarker, true)
      case Some(j) =>
        var c := Run(s, j, IsEmphasisMarker);
        Some(Hit(j + (if c > 3 then 3 else c), s[i + run..j]))
      case None =>
        if run >= 2 then Some(Hit(i + run, "")) else None
  }

  /** `^\s*`, then a marker `marker` characters wide (0 when the line has none),
      then `\s+`. */
  function MatchLinePrefix(s: string, i: nat, marker: nat): (r: Option<Hit>)
    requires i < |s| && i + Run(s, i, IsWhitespace) + marker <= |s|
    ensures r.Some? ==> i < r.value.end <= |s|
  {
    var q := i + Run(s, i, IsWhitespace) + marker;
    if !LineStart(s, i) || marker == 0 || q == |s| || !IsWhitespace(s[q]) then None
    else Some(Hit(q + Run(s, q, IsWhitespace), ""))
  }

  function MatchListMarker(s: string, i: nat): (r: Option<Hit>)
    requires i < |s|
    ensures r.Some? ==> i < r.value.end <= |s|
  {
    var q := i + Run(s, i, IsWhitespace);
    MatchLinePrefix(s, i, if q < |s| && IsBulletMarker(s[q]) then 1 else 0)
  }

  function MatchOrderedMarker(s: string, i: nat): (r: Option<Hit>)
    requires i < |s|
    ensures r.Some? ==> i < r.value.end <= |s|
  {
    var q := i + Run(s, i, IsWhitespace);
    var d := Run(s, q, IsDigit);
    MatchLinePrefix(s, i, if d > 0 && q + d < |s| && s[q + d] == '.' then d + 1 else 0)
  }

  function MatchBlockquote(s: string, i: nat): (r: Option<Hit>)
    requires i < |s|
    ensures r.Some? ==> i < r.value.end <= |s|
  {
    var q := i + Run(s, i, IsWhitespace);
    MatchLinePrefix(s, i, if q < |s| && s[q] == '>' then 1 else 0)
  }

  /** From a pipe to the last pipe on the same line. */
  function MatchTableRow(s: string, i: nat): (r: Option<Hit>)
    requires i < |s|
    ensures r.Some? ==> i < r.value.end <= |s|
  {
    if s[i] != '|' then None
    else match LastIn(s, i + 1, LineEnd(s, i + 1), '|')
      case Some(k) => Some(Hit(k + 1, ""))
      case None => None
  }

  function MatchRule(s: string, i: nat): (r: Option<Hit>)
    requires i < |s|
    ensures r.Some? ==> i < r.value.end <= |s|
  {
    var n := Run(s, i, IsRuleChar);
    if n >= 3 then Some(Hit(i + n, "")) else None
  }

  function MatchBlankLines(s: string, i: nat): (r: Option<Hit>)
    requires i < |s|
    ensures r.Some? ==> i < r.value.end <= |s|
    ensures r.Some? ==> r.value.replacement == "\n" && (r.value.end == |s| || s[r.value.end] != '\n')
    ensures r.None? ==> s[i] != '\n' || i + 1 == |s| || s[i + 1] != '\n'
  {
    var n := Run(s, i, IsNewline);
    if n >= 2 then Some(Hit(i + n, "\n")) else None
  }

  function MatchAt(p: Pattern, s: string, i: nat): (r: Option<Hit>)
    requires i < |s|
    ensures r.Some? ==> i < r.value.end <= |s|
  {
    match p
    case CodeBlock => MatchCodeBlock(s, i)
    case InlineCode => MatchInlineCode(s, i)
    case Image => MatchImage(s, i)
    case Link => MatchLink(s, i)
    case Heading => MatchHeading(s, i)
    case Emphasis => MatchEmphasis(s, i)
    case ListMarker => MatchListMarker(s, i)
    case OrderedMarker => MatchOrderedMarker(s, i)
    case Blockquote => MatchBlockquote(s, i)
    case TableRow => MatchTableRow(s, i)
    case Rule => MatchRule(s, i)
    case BlankLines => MatchBlankLines(s, i)
  }

  // ---------------------------------------------------------------------
  // Global replacement and the pipeline

  /** `s.replace(p, …)` with the g flag, from position i on. */
  function ReplaceFrom(p: Pattern, s: string, i: nat): string
    requires i <= |s|
    decreases |s| - i
  {
    if i == |s| then ""
    else match MatchAt(p, s, i)
      case Some(h) => h.replacement + ReplaceFrom(p, s, h.end)
      case None => [s[i]] + ReplaceFrom(p, s, i + 1)
  }

  function ReplaceAll(p: Pattern, s: string): string
  {
    ReplaceFrom(p, s, 0)
  }

  /** The passes, in the order stripMarkdown applies them. */
  const Passes: seq<Pattern> := [CodeBlock, InlineCode, Image, Link, Heading, Emphasis,
                                 ListMarker, OrderedMarker, Blockquote, TableRow, Rule, BlankLines]

  function ApplyPasses(ps: seq<Pattern>, s: string): string
  {
    if ps == [] then s else ApplyPasses(ps[1..], ReplaceAll(ps[0], s))
  }

  predicate NoBlankLine(s: string)
  {
    forall k :: 0 <= k < |s| - 1 ==> !(s[k] == '\n' && s[k + 1] == '\n')
  }

  /** Plain text of a markdown document: no surrounding whitespace and no two
      newlines in a row. */
  function StripMarkdown(content: string): (r: string)
    ensures r == [] || (!IsWhitespace(r[0]) && !IsWhitespace(r[|r| - 1]))
    ensures NoBlankLine(r)
  {
    var collapsed := ApplyPasses(Passes, content);
    LastPassCollapses(Passes, content);
    TrimKeepsNoBlankLine(collapsed);
    Trim(collapsed)
  }

  // ---------------------------------------------------------------------
  // Properties

  /** After the blank-line pass no two newlines are adjacent, and the output
      starts with a newline only where the input does. */
  lemma {:induction false} CollapseFrom(s: string, i: nat)
    requires i <= |s|
    decreases |s| - i
    ensures NoBlankLine(ReplaceFrom(BlankLines, s, i))
    ensures var r := ReplaceFrom(BlankLines, s, i); r != [] && r[0] == '\n' ==> s[i] == '\n'
  {
    if i < |s| {
      var r := ReplaceFrom(BlankLines, s, i);
      match MatchBlankLines(s, i)
      case Some(h) =>
        CollapseFrom(s, h.end);
        var rest := ReplaceFrom(BlankLines, s, h.end);
        assert r == "\n" + rest;
        assert rest == [] || rest[0] != '\n';
      case None =>
        CollapseFrom(s, i + 1);
        var rest := ReplaceFrom(BlankLines, s, i + 1);
        assert r == [s[i]] + rest;
        assert s[i] == '\n' ==> rest == [] || rest[0] != '\n';
    }
  }

  lemma LastPassCollapses(ps: seq<Pattern>, s: string)
    requires ps != [] && ps[|ps| - 1] == BlankLines
    ensures NoBlankLine(ApplyPasses(ps, s))
    decreases |ps|
  {
    if |ps| == 1 {
      CollapseFrom(s, 0);
      assert ApplyPasses(ps[1..], ReplaceAll(BlankLines, s)) == ReplaceAll(BlankLines, s);
    } else {
      LastPassCollapses(ps[1..], ReplaceAll(ps[0], s));
    }
  }

  lemma NoBlankLineSlice(s: string, a: nat, b: nat)
    requires a <= b <= |s| && NoBlankLine(s)
    ensures NoBlankLine(s[a..b])
  {
    var t := s[a..b];
    forall k | 0 <= k < |t| - 1 ensures !(t[k] == '\n' && t[k + 1] == '\n') {
      assert t[k] == s[a + k] && t[k + 1] == s[a + k + 1];
    }
  }

  lemma TrimKeepsNoBlankLine(s: string)
    requires NoBlankLine(s)
    ensures NoBlankLine(Trim(s))
  {
    var t := TrimStart(s);
    TrimStartSuffix(s);
    NoBlankLineSlice(s, |s| - |t|, |s|);
    NoBlankLineSlice(t, 0, |TrimEnd(t)|);
  }

  /** A link is replaced by its text: `[text](target)` becomes `text`. */
  lemma LinkBecomesText(text: string, target: string)
    requires text != [] && ']' !in text
    requires ')' !in target && forall k :: 0 <= k < |target| ==> !IsLineTerminator(target[k])
    ensures ReplaceAll(Link, "[" + text + "](" + target + ")") == text
  {
    var s := "[" + text + "](" + target + ")";
    var k := |text| + 1;
    assert s[k] == ']' && s[k + 1] == '(';
    assert forall j :: 1 <= j < k ==> s[j] == text[j - 1];
    FindFromFirst(s, 1, k, IsCloseBracket, false);
    assert forall j :: k + 2 <= j < |s| - 1 ==> s[j] == target[j - k - 2];
    FindFromFirst(s, k + 2, |s| - 1, IsCloseParen, true);
    assert s[1..k] == text;
    assert MatchLink(s, 0) == Some(Hit(|s|, text));
    assert ReplaceFrom(Link, s, 0) == text + ReplaceFrom(Link, s, |s|);
  }

  /** Inline code is dropped: `` `code` `` disappears entirely. */
  lemma InlineCodeDropped(code: string)
    requires code != [] && '`' !in code
    ensures ReplaceAll(InlineCode, "`" + code + "`") == ""
  {
    var s := "`" + code + "`";
    assert forall j :: 1 <= j < |s| - 1 ==> s[j] == code[j - 1];
    FindFromFirst(s, 1, |s| - 1, IsBacktick, false);
    assert MatchInlineCode(s, 0) == Some(Hit(|s|, ""));
    assert ReplaceFrom(InlineCode, s, 0) == "" + ReplaceFrom(InlineCode, s, |s|);
  }

  /** FindFrom returns the first match when nothing before it stops the search. */
  lemma {:induction false} FindFromFirst(s: string, i: nat, k: nat, p: char -> bool, sameLine: bool)
    requires i <= k < |s| && p(s[k])
    requires forall j :: i <= j < k ==> !p(s[j]) && !(sameLine && IsLineTerminator(s[j]))
    ensures FindFrom(s, i, p, sameLine) == Some(k)
    decreases k - i
  {
    if i < k {
      FindFromFirst(s, i + 1, k, p, sameLine);
    }
  }
}
