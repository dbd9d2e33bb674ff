/** The YAML-like front matter of a dev post (parseFrontmatter in
    src/api/github.js): a `---` header of `key: value` lines, where a value is
    a string, optionally quoted, or a bracketed, comma-separated list. */
module Frontmatter {
  import opened Common

  datatype MetaValue = Text(text: string) | List(items: seq<string>)

  type Meta = map<string, MetaValue>

  // ---------------------------------------------------------------------
  // The header

  /** Where the header's closing `\n---` starts: the content must open with
      `---\n`, and the lazy block ends at the first `\n---` after it. */
  function HeaderEnd(content: string): (r: Option<nat>)
    ensures r.Some? ==> StartsWith(content, "---\n") && 4 <= r.value && OccursAt(content, "\n---", r.value)
    ensures r.Some? ==> forall j :: 4 <= j < r.value ==> !OccursAt(content, "\n---", j)
    ensures r.None? ==> !StartsWith(content, "---\n") || forall j :: 4 <= j ==> !OccursAt(content, "\n---", j)
  {
    if StartsWith(content, "---\n") then IndexOfFrom(content, "\n---", 4) else None
  }

  /** The YAML block between the two fences. */
  function Block(content: string, k: nat): string
    requires 4 <= k <= |content|
  {
    content[4..k]
  }

  /** What follows the closing fence, less one optional newline. */
  function Body(content: string, k: nat): (r: string)
    requires k + 4 <= |content|
    ensures r == content[k + 4..] || (k + 5 <= |content| && r == content[k + 5..])
  {
    if k + 4 < |content| && content[k + 4] == '\n' then content[k + 5..] else content[k + 4..]
  }

  // ---------------------------------------------------------------------
  // One line

  predicate IsQuoteChar(c: char) { c == '"' || c == '\'' }

  /** A value that starts and ends with the same kind of quote (a lone quote
      counts, as it both starts and ends the value). */
  predicate QuotedValue(v: string)
  {
    v != [] && IsQuoteChar(v[0]) && v[|v| - 1] == v[0]
  }

  /** Removes the quotes around a value that starts and ends with the same kind of quote. */
  function Unquote(v: string): (r: string)
    ensures |r| <= |v|
    ensures QuotedValue(v) && |v| >= 2 ==> v == [v[0]] + r + [v[0]]
    ensures QuotedValue(v) && |v| < 2 ==> r == []
    ensures !QuotedValue(v) ==> r == v
  {
    if (StartsWith(v, "\"") && EndsWith(v, "\"")) || (StartsWith(v, "'") && EndsWith(v, "'"))
    then Inner(v) else v
  }

  /** `v.startsWith('[') && v.endsWith(']')` */
  predicate IsBracketed(v: string)
  {
    |v| >= 2 && v[0] == '[' && v[|v| - 1] == ']'
  }

  /** `s.trim().replace(/^["']|["']$/g, '')`: trims, then drops one leading and
      one trailing quote of either kind. */
  function CleanItem(item: string): (r: string)
    ensures |r| <= |item|
    ensures ',' !in item ==> ',' !in r
  {
    TrimIsSlice(item);
    var t := Trim(item);
    var a := if |t| > 0 && IsQuoteChar(t[0]) then 1 else 0;
    var b := if |t| > a && IsQuoteChar(t[|t| - 1]) then |t| - 1 else |t|;
    t[a..b]
  }

  predicate NonEmpty(s: string) { s != [] }

  function CleanAll(parts: seq<string>): (r: seq<string>)
    ensures |r| == |parts|
    ensures forall i :: 0 <= i < |r| && ',' !in parts[i] ==> ',' !in r[i]
  {
    if parts == [] then []
    else
      [CleanItem(parts[0])] + CleanAll(parts[1..])
  }

  /** The items of a bracketed list: split on commas, cleaned, empties dropped. */
  function ListItems(v: string): (r: seq<string>)
    requires IsBracketed(v)
    ensures forall i :: 0 <= i < |r| ==> r[i] != [] && ',' !in r[i]
  {
    var cleaned := CleanAll(Split(v[1..|v| - 1], ','));
    Filter(cleaned, NonEmpty)
  }

  /** A text between a matching pair of quotes comes out as that text. */
  lemma UnquoteMatched(q: char, x: string)
    requires IsQuoteChar(q)
    ensures Unquote([q] + x + [q]) == x
  {
    var v := [q] + x + [q];
    assert QuotedValue(v) && |v| >= 2;
    assert v[1..|v| - 1] == x;
  }

  lemma TrimIsSlice(s: string)
    ensures forall c :: c in Trim(s) ==> c in s
  {
    var t := TrimStart(s);
    TrimStartSuffix(s);
    assert TrimEnd(t) == t[..|TrimEnd(t)|];
  }

  function ParseValue(raw: string): MetaValue
  {
    var v := Unquote(Trim(raw));
    if IsBracketed(v) then List(ListItems(v)) else Text(v)
  }

  /** A line with a colon: the trimmed text before the first colon is the key,
      the rest is the value. A line without a colon yields nothing. */
  function ParseLine(line: string): (r: Option<(string, MetaValue)>)
    ensures r.None? <==> ':' !in line
  {
    if ':' !in line then None
    else
      var c := FirstIndexOf(line, ':');
      Some((Trim(line[..c]), ParseValue(line[c + 1..])))
  }

  type LineEntry = Option<(string, MetaValue)>

  function ParseLines(lines: seq<string>): (r: seq<LineEntry>)
    ensures |r| == |lines|
    ensures forall i :: 0 <= i < |lines| ==> r[i] == ParseLine(lines[i])
  {
    seq(|lines|, i requires 0 <= i < |lines| => ParseLine(lines[i]))
  }

  predicate Assigns(e: LineEntry, key: string)
  {
    e.Some? && e.value.0 == key
  }

  /** The map the parsed lines build, each line assigning its key in turn. */
  function MetaOf(entries: seq<LineEntry>): Meta
  {
    if entries == [] then map[]
    else
      var m := MetaOf(entries[..|entries| - 1]);
      match entries[|entries| - 1]
      case None => m
      case Some((k, v)) => m[k := v]
  }

  lemma MetaOfPrefix(entries: seq<LineEntry>, i: nat)
    requires i < |entries|
    ensures entries[i].None? ==> MetaOf(entries[..i + 1]) == MetaOf(entries[..i])
    ensures entries[i].Some? ==>
      MetaOf(entries[..i + 1]) == MetaOf(entries[..i])[entries[i].value.0 := entries[i].value.1]
  {
    assert entries[..i + 1][..i] == entries[..i];
  }

  /** What the parser returns for `content`. */
  function FrontmatterOf(content: string): (Meta, string)
  {
    match HeaderEnd(content)
    case None => (map[], content)
    case Some(k) => (MetaOf(ParseLines(Split(Block(content, k), '\n'))), Body(content, k))
  }

  /** Splits the header into lines and fills `meta` line by line. */
  method ParseFrontmatter(content: string) returns (meta: Meta, body: string)
    ensures HeaderEnd(content).None? ==> meta == map[] && body == content
    ensures HeaderEnd(content).Some? ==>
      var k := HeaderEnd(content).value;
      meta == MetaOf(ParseLines(Split(Block(content, k), '\n'))) && body == Body(content, k)
    ensures (meta, body) == FrontmatterOf(content)
  {
    var header := HeaderEnd(content);
    if header.None? {
      return map[], content;
    }
    var k := header.value;
    var lines := Split(Block(content, k), '\n');
    ghost var entries := ParseLines(lines);
    meta := map[];
    for i := 0 to |lines|
      invariant meta == MetaOf(entries[..i])
    {
      MetaOfPrefix(entries, i);
      var line := lines[i];
      if ':' in line {
        var c := FirstIndexOf(line, ':');
        var key := Trim(line[..c]);
        var value := ParseValue(line[c + 1..]);
        assert ParseLine(line) == Some((key, value));
        meta := meta[key := value];
      }
    }
    assert entries[..|lines|] == entries;
    body := Body(content, k);
  }

  // ---------------------------------------------------------------------
  // Properties

  /** Every key of the result is assigned by some line. */
  lemma {:induction false} MetaKeysFromLines(entries: seq<LineEntry>, key: string)
    requires key in MetaOf(entries)
    ensures exists i :: 0 <= i < |entries| && Assigns(entries[i], key)
  {
    var init := entries[..|entries| - 1];
    if !Assigns(entries[|entries| - 1], key) {
      MetaKeysFromLines(init, key);
      var i :| 0 <= i < |init| && Assigns(init[i], key);
      assert entries[i] == init[i];
    }
  }

  /** A key's value is the one on the last line that assigns it: a later
      duplicate overwrites an earlier one. */
  lemma {:induction false} MetaLastWins(entries: seq<LineEntry>, i: nat, key: string, value: MetaValue)
    requires i < |entries| && entries[i] == Some((key, value))
    requires forall j :: i < j < |entries| ==> !Assigns(entries[j], key)
    ensures key in MetaOf(entries) && MetaOf(entries)[key] == value
  {
    var n := |entries| - 1;
    var init := entries[..n];
    assert entries[..n + 1] == entries;
    MetaOfPrefix(entries, n);
    if i < n {
      assert forall j :: i < j < |init| ==> init[j] == entries[j];
      MetaLastWins(init, i, key, value);
    }
  }

  /** Lines without a colon assign nothing. */
  lemma {:induction false} MetaSkipsPlainLines(lines: seq<string>)
    requires forall i :: 0 <= i < |lines| ==> ':' !in lines[i]
    ensures MetaOf(ParseLines(lines)) == map[]
  {
    if lines != [] {
      var init := lines[..|lines| - 1];
      MetaSkipsPlainLines(init);
      assert ParseLines(lines)[..|lines| - 1] == ParseLines(init);
    }
  }

  // ---------------------------------------------------------------------
  // Lists round-trip

  /** An item that needs no cleaning: non-empty, no comma, no quote or
      whitespace at either end. */
  predicate CleanListItem(item: string)
  {
    item != [] && ',' !in item &&
    !IsWhitespace(item[0]) && !IsWhitespace(item[|item| - 1]) &&
    !IsQuoteChar(item[0]) && !IsQuoteChar(item[|item| - 1])
  }

  lemma CleanItemKeeps(item: string)
    requires CleanListItem(item)
    ensures CleanItem(item) == item
  {
    TrimStartKeeps(item);
    TrimEndKeeps(item);
  }

  lemma {:induction false} CleanAllKeeps(items: seq<string>)
    requires forall i :: 0 <= i < |items| ==> CleanListItem(items[i])
    ensures CleanAll(items) == items
  {
    if items != [] {
      CleanItemKeeps(items[0]);
      CleanAllKeeps(items[1..]);
    }
  }

  /** What may surround an item in a written list: whitespace, and an
      optional quote of either kind on each side. */
  datatype Padding = Padding(before: string, open: string, close: string, after: string)

  predicate QuoteMark(q: string)
  {
    q == [] || (|q| == 1 && IsQuoteChar(q[0]))
  }

  predicate PaddingOk(p: Padding)
  {
    Blank(p.before) && QuoteMark(p.open) && QuoteMark(p.close) && Blank(p.after)
  }

  function Pad(p: Padding, x: string): string
  {
    p.before + p.open + x + p.close + p.after
  }

  /** An item as it may appear padded: empty, or with neither whitespace nor
      a quote at its ends, and with no comma. */
  predicate BareItem(x: string)
  {
    ',' !in x &&
    (x == [] || (!IsWhitespace(x[0]) && !IsWhitespace(x[|x| - 1]) &&
                 !IsQuoteChar(x[0]) && !IsQuoteChar(x[|x| - 1])))
  }

  /** Cleaning strips the whitespace around an item and one quote on each
      side: `  "x" ` and `'x` both clean to x. */
  lemma CleanItemPadded(p: Padding, x: string)
    requires PaddingOk(p) && BareItem(x)
    ensures CleanItem(Pad(p, x)) == x
  {
    var m := p.open + x + p.close;
    QuotedCore(p, x, m);
    TrimPadded(p.before, m, p.after);
    var a, b := StripQuoteMarks(m, p.open, x, p.close);
    CleanItemFromTrim(Pad(p, x), m, a, b, x);
  }

  /** The quoted item between the whitespace has no whitespace at its ends. */
  lemma QuotedCore(p: Padding, x: string, m: string)
    requires PaddingOk(p) && BareItem(x) && m == p.open + x + p.close
    ensures Pad(p, x) == p.before + m + p.after
    ensures m == [] || (!IsWhitespace(m[0]) && !IsWhitespace(m[|m| - 1]))
  {
    if m != [] {
      assert m[0] == if p.open != [] then p.open[0] else if x != [] then x[0] else p.close[0];
      assert m[|m| - 1] == if p.close != [] then p.close[0] else if x != [] then x[|x| - 1] else p.open[0];
    }
  }

  /** Dropping one quote at each end of the trimmed item leaves the bare item. */
  lemma StripQuoteMarks(t: string, open: string, x: string, close: string) returns (a: nat, b: nat)
    requires QuoteMark(open) && QuoteMark(close) && BareItem(x) && t == open + x + close
    ensures a == if |t| > 0 && IsQuoteChar(t[0]) then 1 else 0
    ensures b == if |t| > a && IsQuoteChar(t[|t| - 1]) then |t| - 1 else |t|
    ensures a <= b <= |t| && t[a..b] == x
  {
    a := if |t| > 0 && IsQuoteChar(t[0]) then 1 else 0;
    b := if |t| > a && IsQuoteChar(t[|t| - 1]) then |t| - 1 else |t|;
    if x == [] {
      assert |t| <= 2 && forall i :: 0 <= i < |t| ==> IsQuoteChar(t[i]);
    } else {
      assert a == |open| by {
        if open == [] { assert t[0] == x[0]; }
      }
      assert b == |t| - |close| by {
        if close == [] { assert t[|t| - 1] == x[|x| - 1]; }
      }
      assert t[a..b] == x;
    }
  }

  /** CleanItem in terms of the trimmed item and the bounds of its quotes. */
  lemma CleanItemFromTrim(item: string, t: string, a: nat, b: nat, x: string)
    requires t == Trim(item)
    requires a == if |t| > 0 && IsQuoteChar(t[0]) then 1 else 0
    requires b == if |t| > a && IsQuoteChar(t[|t| - 1]) then |t| - 1 else |t|
    requires a <= b <= |t| && t[a..b] == x
    ensures CleanItem(item) == x
  {
  }

  function PadAll(pads: seq<Padding>, items: seq<string>): (r: seq<string>)
    requires |pads| == |items|
    ensures |r| == |items|
  {
    seq(|items|, i requires 0 <= i < |items| => Pad(pads[i], items[i]))
  }

  lemma {:induction false} CleanAllPadded(pads: seq<Padding>, items: seq<string>)
    requires |pads| == |items|
    requires forall i :: 0 <= i < |items| ==> PaddingOk(pads[i]) && BareItem(items[i])
    ensures CleanAll(PadAll(pads, items)) == items
  {
    if items != [] {
      CleanItemPadded(pads[0], items[0]);
      assert PadAll(pads, items)[1..] == PadAll(pads[1..], items[1..]);
      CleanAllPadded(pads[1..], items[1..]);
    }
  }

  /** A list written with whitespace and quotes around its items, and with
      empty pieces, parses to its non-empty items in order: `[ "a" , 'b' ,, ]`
      gives a and b. */
  lemma ListItemsPadded(pads: seq<Padding>, items: seq<string>)
    requires |pads| == |items| >= 1
    requires forall i :: 0 <= i < |items| ==> PaddingOk(pads[i]) && BareItem(items[i])
    ensures ListItems("[" + Join(PadAll(pads, items), ",") + "]") == Filter(items, NonEmpty)
  {
    var pieces := PadAll(pads, items);
    var v := "[" + Join(pieces, ",") + "]";
    assert v[1..|v| - 1] == Join(pieces, ",");
    forall i | 0 <= i < |pieces| ensures ',' !in pieces[i] {
      var p := pads[i];
      assert pieces[i] == p.before + p.open + items[i] + p.close + p.after;
      assert ',' !in p.before && ',' !in p.open && ',' !in p.close && ',' !in p.after;
    }
    SplitJoin(pieces, ',');
    CleanAllPadded(pads, items);
  }

  /** The list `[ "a" , 'b' ,, ]` holds a and b. */
  lemma ExamplePaddedList()
    ensures ListItems("[ \"a\" , 'b' ,, ]") == ["a", "b"]
  {
    var pads := [Padding(" ", "\"", "\"", " "), Padding(" ", "'", "'", " "), Padding("", "", "", ""), Padding(" ", "", "", "")];
    var items := ["a", "b", "", ""];
    var pieces := [" \"a\" ", " 'b' ", "", " "];
    ExamplePieces(pads, items, pieces);
    ExampleJoin(pieces);
    ListItemsPadded(pads, items);
    ExampleBrackets(Join(pieces, ","));
    ExampleFilter(items);
  }

  lemma ExamplePieces(pads: seq<Padding>, items: seq<string>, pieces: seq<string>)
    requires pads == [Padding(" ", "\"", "\"", " "), Padding(" ", "'", "'", " "), Padding("", "", "", ""), Padding(" ", "", "", "")]
    requires items == ["a", "b", "", ""] && pieces == [" \"a\" ", " 'b' ", "", " "]
    ensures PadAll(pads, items) == pieces
  {
    assert Pad(pads[0], items[0]) == pieces[0];
    assert Pad(pads[1], items[1]) == pieces[1];
    assert Pad(pads[2], items[2]) == pieces[2];
    assert Pad(pads[3], items[3]) == pieces[3];
  }

  lemma ExampleJoin(pieces: seq<string>)
    requires pieces == [" \"a\" ", " 'b' ", "", " "]
    ensures Join(pieces, ",") == " \"a\" , 'b' ,, "
  {
    assert Join(pieces[3..], ",") == " ";
    assert Join(pieces[2..], ",") == ", ";
    assert Join(pieces[1..], ",") == " 'b' ,, ";
  }

  lemma ExampleFilter(items: seq<string>)
    requires items == ["a", "b", "", ""]
    ensures Filter(items, NonEmpty) == ["a", "b"]
  {
    assert Filter(items[2..], NonEmpty) == [];
  }

  lemma ExampleBrackets(w: string)
    requires w == " \"a\" , 'b' ,, "
    ensures "[" + w + "]" == "[ \"a\" , 'b' ,, ]"
  {
  }

  /** A list written `[a,b,c]` of clean items parses back to exactly those items. */
  lemma ListItemsRoundTrip(items: seq<string>)
    requires |items| >= 1 && forall i :: 0 <= i < |items| ==> CleanListItem(items[i])
    ensures ListItems("[" + Join(items, ",") + "]") == items
  {
    var v := "[" + Join(items, ",") + "]";
    assert v[1..|v| - 1] == Join(items, ",");
    SplitJoin(items, ',');
    CleanAllKeeps(items);
    FilterAll(items, NonEmpty);
  }

  // ---------------------------------------------------------------------
  // A one-line header round-trip

  /** A key that parses back as itself. */
  predicate PlainKey(key: string)
  {
    key != [] && ':' !in key && '\n' !in key &&
    !IsWhitespace(key[0]) && !IsWhitespace(key[|key| - 1])
  }

  /** A text value that parses back as itself: one line, trimmed, not quoted
      and not a list. */
  predicate PlainText(v: string)
  {
    v != [] && '\n' !in v &&
    !IsWhitespace(v[0]) && !IsWhitespace(v[|v| - 1]) && !IsQuoteChar(v[0]) && v[0] != '['
  }

  lemma TrimPlain(s: string)
    requires s != [] && !IsWhitespace(s[0]) && !IsWhitespace(s[|s| - 1])
    ensures Trim(s) == s && Trim(" " + s) == s
  {
    TrimStartKeeps(s);
    TrimEndKeeps(s);
    TrimStartSkips(' ', s);
  }

  lemma ParseValuePlain(value: string)
    requires PlainText(value)
    ensures ParseValue(" " + value) == Text(value)
  {
    TrimPlain(value);
    assert !StartsWith(value, "\"") && !StartsWith(value, "'");
    assert Unquote(value) == value;
    assert !IsBracketed(value);
  }

  /** The line `key: value` parses to that key and value. */
  lemma ParseLinePlain(key: string, value: string)
    requires PlainKey(key) && PlainText(value)
    ensures ParseLine(key + ": " + value) == Some((key, Text(value)))
  {
    var line := key + ": " + value;
    assert line[..|key|] == key;
    assert line[|key|] == ':';
    FirstIndexUnique(line, ':', |key|);
    var c := FirstIndexOf(line, ':');
    assert line[c + 1..] == " " + value;
    TrimPlain(key);
    ParseValuePlain(value);
  }

  lemma MetaOfSingle(key: string, value: MetaValue)
    ensures MetaOf([Some((key, value))]) == map[key := value]
  {
    var entries: seq<LineEntry> := [Some((key, value))];
    MetaOfPrefix(entries, 0);
    assert entries[..1] == entries && entries[..0] == [];
  }

  /** The header of such a content closes right after its one line. */
  lemma HeaderEndAfterLine(line: string, body: string)
    requires '\n' !in line
    ensures var content := "---\n" + line + "\n---\n" + body;
      HeaderEnd(content) == Some(4 + |line|) &&
      Block(content, 4 + |line|) == line && Body(content, 4 + |line|) == body
  {
    var content := "---\n" + line + "\n---\n" + body;
    var k := 4 + |line|;
    assert content[..4] == "---\n";
    assert content[k..k + 4] == "\n---";
    forall j | 4 <= j < k ensures !OccursAt(content, "\n---", j) {
      assert content[j] == line[j - 4];
    }
    assert OccursAt(content, "\n---", k);
    assert content[4..k] == line;
    assert content[k + 4] == '\n';
    assert content[k + 5..] == body;
  }

  lemma NoNewlineInLine(key: string, value: string)
    requires PlainKey(key) && PlainText(value)
    ensures '\n' !in key + ": " + value
  {
    var line := key + ": " + value;
    forall i | 0 <= i < |line| ensures line[i] != '\n' {
      if i < |key| { assert line[i] == key[i]; }
      else if i >= |key| + 2 { assert line[i] == value[i - |key| - 2]; }
    }
  }

  /** A header of one `key: value` line followed by a body parses back to
      that key and value, and the body. */
  lemma HeaderRoundTrip(key: string, value: string, body: string)
    requires PlainKey(key) && PlainText(value)
    ensures FrontmatterOf("---\n" + key + ": " + value + "\n---\n" + body) == (map[key := Text(value)], body)
  {
    var line := key + ": " + value;
    var content := "---\n" + key + ": " + value + "\n---\n" + body;
    var k := 4 + |line|;
    assert content == "---\n" + line + "\n---\n" + body;
    NoNewlineInLine(key, value);
    HeaderEndAfterLine(line, body);
    assert ParseLines(Split(Block(content, k), '\n')) == [Some((key, Text(value)))] by {
      assert Split(line, '\n') == [line];
      ParseLinePlain(key, value);
    }
    MetaOfSingle(key, Text(value));
  }
}
