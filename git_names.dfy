/** File names as the GitHub contents API reports them: Git's quoted-octal
    escaping of non-ASCII names, the cover-image lookup, and the chapter title
    and chapter order that a markdown file name yields (src/api/github.js). */
module GitNames {
  import opened Common

  type Byte = x: int | 0 <= x < 256

  // ---------------------------------------------------------------------
  // Directory listings

  /** The `type` of a contents-API entry; "symlink" and "submodule" are `Other`. */
  datatype EntryKind = File | Dir | Other

  /** One entry of a contents-API listing. A null `download_url` is "". */
  datatype Entry = Entry(name: string, kind: EntryKind, downloadUrl: string)

  // ---------------------------------------------------------------------
  // Git quoted names

  predicate IsOctalDigit(c: char) { '0' <= c <= '7' }

  function OctalDigit(c: char): (d: nat)
    requires IsOctalDigit(c)
    ensures d < 8
  {
    c as int - '0' as int
  }

  /** parseInt(s, 8) of three octal digits. */
  function OctalValue(a: char, b: char, c: char): (v: nat)
    requires IsOctalDigit(a) && IsOctalDigit(b) && IsOctalDigit(c)
    ensures v < 512
  {
    64 * OctalDigit(a) + 8 * OctalDigit(b) + OctalDigit(c)
  }

  /** The UTF-16 code units of a character, as `charCodeAt` sees them. */
  function CodeUnits(c: char): (u: seq<nat>)
    ensures 1 <= |u| <= 2
    ensures c as int < 0x1_0000 <==> u == [c as int]
  {
    var v := c as int;
    if v < 0x1_0000 then [v]
    else [0xD800 + (v - 0x1_0000) / 0x400, 0xDC00 + (v - 0x1_0000) % 0x400]
  }

  /** Stores into a Uint8Array keep the low 8 bits. */
  function LowBytes(u: seq<nat>): (r: seq<Byte>)
    ensures |r| == |u|
    ensures forall i :: 0 <= i < |u| ==> r[i] == u[i] % 256
  {
    if u == [] then [] else [u[0] % 256] + LowBytes(u[1..])
  }

  predicate EscapeAt(s: string)
  {
    |s| > 3 && s[0] == '\\' && IsOctalDigit(s[1]) && IsOctalDigit(s[2]) && IsOctalDigit(s[3])
  }

  /** The bytes a quoted name's inner text stands for: each backslash followed
      by three octal digits is one byte, every other character its code units. */
  function QuotedBytes(s: string): seq<Byte>
  {
    if s == [] then []
    else if EscapeAt(s) then [OctalValue(s[1], s[2], s[3]) % 256] + QuotedBytes(s[4..])
    else LowBytes(CodeUnits(s[0])) + QuotedBytes(s[1..])
  }

  predicate IsQuoted(name: string)
  {
    |name| >= 1 && name[0] == '"' && name[|name| - 1] == '"'
  }

  /** The decoded name, with UTF-8 decoding of the bytes as a parameter. */
  function Decoded(name: string, utf8: seq<Byte> -> string): string
  {
    if IsQuoted(name) then utf8(QuotedBytes(Inner(name))) else name
  }

  /** One step of the decoding loop: the bytes of `s[i..]` are `piece` followed
      by the bytes of what comes after its `width` characters. */
  lemma QuotedBytesStep(s: string, i: nat, piece: seq<Byte>, width: nat)
    requires i < |s|
    requires EscapeAt(s[i..]) ==> piece == [OctalValue(s[i + 1], s[i + 2], s[i + 3]) % 256] && width == 4
    requires !EscapeAt(s[i..]) ==> piece == LowBytes(CodeUnits(s[i])) && width == 1
    ensures i + width <= |s|
    ensures QuotedBytes(s[i..]) == piece + QuotedBytes(s[i + width..])
  {
    var rest := s[i..];
    assert rest[width..] == s[i + width..];
  }

  /** Walks the inner text with an index, pushing one byte per escape or per
      code unit, and decodes the bytes at the end. */
  method DecodeGitQuotedName(name: string, utf8: seq<Byte> -> string) returns (r: string)
    ensures !IsQuoted(name) ==> r == name
    ensures IsQuoted(name) ==> r == utf8(QuotedBytes(Inner(name)))
  {
    if !IsQuoted(name) {
      return name;
    }
    var inner := Inner(name);
    var bytes: seq<Byte> := [];
    var i := 0;
    while i < |inner|
      invariant 0 <= i <= |inner|
      invariant bytes + QuotedBytes(inner[i..]) == QuotedBytes(inner)
    {
      var piece: seq<Byte>;
      var width: nat;
      if EscapeAt(inner[i..]) {
        piece, width := [OctalValue(inner[i + 1], inner[i + 2], inner[i + 3]) % 256], 4;
      } else {
        piece, width := LowBytes(CodeUnits(inner[i])), 1;
      }
      QuotedBytesStep(inner, i, piece, width);
      bytes := bytes + piece;
      i := i + width;
    }
    assert inner[i..] == [];
    assert bytes == QuotedBytes(inner);
    r := utf8(bytes);
  }

  const OctalDigits: string := "01234567"

  /** Git's escape of one byte: a backslash and three octal digits. */
  function EscapeByte(b: Byte): (r: string)
    ensures |r| == 4 && EscapeAt(r)
  {
    ['\\', OctalDigits[b / 64], OctalDigits[b / 8 % 8], OctalDigits[b % 8]]
  }

  lemma EscapeByteValue(b: Byte)
    ensures OctalValue(EscapeByte(b)[1], EscapeByte(b)[2], EscapeByte(b)[3]) == b
  {
    var e := EscapeByte(b);
    assert forall k :: 0 <= k < 8 ==> OctalDigit(OctalDigits[k]) == k;
    assert OctalDigit(e[1]) == b / 64 && OctalDigit(e[2]) == b / 8 % 8 && OctalDigit(e[3]) == b % 8;
  }

  function EscapeBytes(bs: seq<Byte>): string
  {
    if bs == [] then [] else EscapeByte(bs[0]) + EscapeBytes(bs[1..])
  }

  /** Decoding undoes Git's escaping: the bytes come back unchanged. */
  lemma {:induction false} QuotedBytesEscape(bs: seq<Byte>)
    ensures QuotedBytes(EscapeBytes(bs)) == bs
  {
    if bs != [] {
      var e := EscapeByte(bs[0]);
      var t := EscapeBytes(bs[1..]);
      assert (e + t)[..4] == e && (e + t)[4..] == t;
      assert EscapeAt(e + t);
      EscapeByteValue(bs[0]);
      QuotedBytesEscape(bs[1..]);
      assert QuotedBytes(e + t) == [bs[0]] + QuotedBytes(t);
    }
  }

  /** A name Git quoted entirely in escapes decodes to the UTF-8 decoding of its bytes. */
  lemma DecodeEscapedName(bs: seq<Byte>, utf8: seq<Byte> -> string)
    ensures Decoded("\"" + EscapeBytes(bs) + "\"", utf8) == utf8(bs)
  {
    var name := "\"" + EscapeBytes(bs) + "\"";
    assert Inner(name) == EscapeBytes(bs);
    QuotedBytesEscape(bs);
  }

  /** Inner text without backslashes and with only Latin-1 characters is its own byte string. */
  lemma {:induction false} QuotedBytesPlain(s: string)
    requires forall i :: 0 <= i < |s| ==> s[i] != '\\' && s[i] as int < 256
    ensures |QuotedBytes(s)| == |s|
    ensures forall i :: 0 <= i < |s| ==> QuotedBytes(s)[i] == s[i] as int
  {
    if s != [] {
      QuotedBytesPlain(s[1..]);
    }
  }

  /** The entries under their decoded names. */
  function DecodedEntries(entries: seq<Entry>, utf8: seq<Byte> -> string): (r: seq<Entry>)
    ensures |r| == |entries|
    ensures forall i :: 0 <= i < |r| ==>
      r[i].name == Decoded(entries[i].name, utf8) && r[i].kind == entries[i].kind
  {
    seq(|entries|, i requires 0 <= i < |entries| =>
      Entry(Decoded(entries[i].name, utf8), entries[i].kind, entries[i].downloadUrl))
  }

  // ---------------------------------------------------------------------
  // Cover image

  /** /^cover\.(png|jpe?g|webp|gif|svg)$/i */
  predicate IsCoverName(name: string)
  {
    Lower(name) in ["cover.png", "cover.jpg", "cover.jpeg", "cover.webp", "cover.gif", "cover.svg"]
  }

  predicate IsCover(e: Entry) { e.kind == File && IsCoverName(e.name) }

  predicate FirstCoverAt(files: seq<Entry>, i: nat)
    requires i <= |files|
  {
    forall j :: 0 <= j < i ==> !IsCover(files[j])
  }

  /** The download URL of the first cover-image file, or "" when there is none. */
  function FindCover(files: seq<Entry>): (r: string)
    ensures (forall i :: 0 <= i < |files| ==> !IsCover(files[i])) ==> r == ""
    ensures forall i :: 0 <= i < |files| && IsCover(files[i]) && FirstCoverAt(files, i) ==>
      r == files[i].downloadUrl
  {
    if files == [] then ""
    else if IsCover(files[0]) then files[0].downloadUrl
    else FindCover(files[1..])
  }

  // ---------------------------------------------------------------------
  // Chapter titles

  predicate IsSeparator(c: char) { c == '_' || c == '-' }

  /** `replace(/\.md$/, '')` */
  function StripMd(s: string): (r: string)
    ensures EndsWith(s, ".md") ==> r + ".md" == s
    ensures !EndsWith(s, ".md") ==> r == s
  {
    if EndsWith(s, ".md") then s[..|s| - 3] else s
  }

  /** Length of the run of decimal digits at the start of `s`. */
  function DigitRun(s: string): (n: nat)
    ensures n <= |s|
    ensures forall i :: 0 <= i < n ==> IsDigit(s[i])
    ensures n == |s| || !IsDigit(s[n])
  {
    if s != [] && IsDigit(s[0]) then 1 + DigitRun(s[1..]) else 0
  }

  /** `replace(/^\d+-?/, '')` */
  function StripNumbering(s: string): (r: string)
  {
    var n := DigitRun(s);
    if n == 0 then s
    else if n < |s| && s[n] == '-' then s[n + 1..]
    else s[n..]
  }

  /** Word boundary before position i, for a word character at i (\b\w). */
  predicate WordStart(s: string, i: nat)
    requires i < |s|
  {
    IsWordChar(s[i]) && (i == 0 || !IsWordChar(s[i - 1]))
  }

  /** `replace(/[_-]/g, ' ').replace(/\b\w/g, c => c.toUpperCase())` */
  function TitleCase(s: string): (r: string)
    ensures |r| == |s|
    ensures forall i :: 0 <= i < |s| && IsSeparator(s[i]) ==> r[i] == ' '
    ensures forall i :: 0 <= i < |s| && !IsSeparator(s[i]) ==> LowerChar(r[i]) == LowerChar(s[i])
    ensures forall i :: 0 <= i < |r| ==> !IsSeparator(r[i])
    ensures forall i :: 0 <= i < |r| && WordStart(r, i) ==> !('a' <= r[i] <= 'z')
    ensures forall i :: 0 <= i < |s| && WordStart(r, i) ==> r[i] == UpperChar(s[i])
    ensures forall i :: 0 <= i < |s| && !IsSeparator(s[i]) && !WordStart(r, i) ==> r[i] == s[i]
  {
    var spaced := seq(|s|, i requires 0 <= i < |s| => if IsSeparator(s[i]) then ' ' else s[i]);
    var r := seq(|s|, i requires 0 <= i < |s| => if WordStart(spaced, i) then UpperChar(spaced[i]) else spaced[i]);
    UpperKeepsWordStarts(spaced, r);
    r
  }

  /** Upper-casing the word starts leaves the word starts where they were. */
  lemma UpperKeepsWordStarts(spaced: string, r: string)
    requires |r| == |spaced|
    requires forall i :: 0 <= i < |r| ==> r[i] == if WordStart(spaced, i) then UpperChar(spaced[i]) else spaced[i]
    ensures forall i :: 0 <= i < |r| ==> (WordStart(r, i) <==> WordStart(spaced, i))
  {
    forall i | 0 <= i < |r| ensures IsWordChar(r[i]) == IsWordChar(spaced[i]) {
    }
  }

  /** What formatChapterName reduces a file name to before falling back. */
  function ChapterStem(filename: string): string
  {
    StripNumbering(StripMd(filename))
  }

  /** The display title of a chapter file; the file name itself when nothing is left. */
  function FormatChapterName(filename: string): (r: string)
    ensures r == "" <==> filename == ""
    ensures ChapterStem(filename) == "" ==> r == filename
    ensures ChapterStem(filename) != "" ==> r == TitleCase(ChapterStem(filename))
  {
    var name := TitleCase(ChapterStem(filename));
    if name == "" then filename else name
  }

  // ---------------------------------------------------------------------
  // Chapter order

  function DigitValue(c: char): (d: nat)
    requires IsDigit(c)
    ensures d < 10
  {
    c as int - '0' as int
  }

  /** parseInt(s, 10) of a string of decimal digits. */
  function DigitsValue(s: string): nat
    requires forall i :: 0 <= i < |s| ==> IsDigit(s[i])
  {
    if s == [] then 0 else 10 * DigitsValue(s[..|s| - 1]) + DigitValue(s[|s| - 1])
  }

  /** The decimal representation of n, without leading zeros. */
  function NatToString(n: nat): (r: string)
    ensures |r| >= 1 && forall i :: 0 <= i < |r| ==> IsDigit(r[i])
  {
    var d := ['0' + (n % 10) as char];
    if n < 10 then d else NatToString(n / 10) + d
  }

  const NoOrder: nat := 999

  /** The number a chapter file name starts with, or 999 when it starts with no digit. */
  function GetChapterOrder(filename: string): (r: nat)
    ensures DigitRun(filename) == 0 ==> r == NoOrder
    ensures DigitRun(filename) > 0 ==> r == DigitsValue(filename[..DigitRun(filename)])
  {
    var n := DigitRun(filename);
    if n == 0 then NoOrder else DigitsValue(filename[..n])
  }

  lemma {:induction false} DigitsValueOfNat(n: nat)
    ensures DigitsValue(NatToString(n)) == n
  {
    if n >= 10 {
      DigitsValueOfNat(n / 10);
      var r := NatToString(n);
      assert r[..|r| - 1] == NatToString(n / 10);
    }
  }

  lemma {:induction false} DigitRunPrefix(digits: string, rest: string)
    requires forall i :: 0 <= i < |digits| ==> IsDigit(digits[i])
    requires rest == [] || !IsDigit(rest[0])
    ensures DigitRun(digits + rest) == |digits|
  {
    if digits != [] {
      assert (digits + rest)[1..] == digits[1..] + rest;
      DigitRunPrefix(digits[1..], rest);
    } else {
      assert digits + rest == rest;
    }
  }

  /** `parseInt(s, 10)`: leading whitespace, an optional sign, then the
      longest run of decimal digits; None where it gives NaN. */
  function ParseDecimal(s: string): Option<int>
  {
    var t := TrimStart(s);
    var signed := t != [] && (t[0] == '-' || t[0] == '+');
    var u := if signed then t[1..] else t;
    var n := DigitRun(u);
    if n == 0 then None
    else if signed && t[0] == '-' then Some(-(DigitsValue(u[..n]) as int))
    else Some(DigitsValue(u[..n]) as int)
  }

  /** The decimal form of n, followed by anything that does not start with
      a digit, parses back as n. */
  lemma ParseDecimalOfNat(n: nat, rest: string)
    requires rest == [] || !IsDigit(rest[0])
    ensures ParseDecimal(NatToString(n) + rest) == Some(n)
  {
    var digits := NatToString(n);
    var s := digits + rest;
    assert s[0] == digits[0] && !IsWhitespace(s[0]) && s[0] != '-' && s[0] != '+';
    TrimStartKeeps(s);
    DigitRunPrefix(digits, rest);
    assert s[..|digits|] == digits;
    DigitsValueOfNat(n);
  }

    /** A file named `<n><rest>` has order n whenever `rest` does not start with a digit. */
  lemma ChapterOrderOfNumbered(n: nat, rest: string)
    requires rest == [] || !IsDigit(rest[0])
    ensures GetChapterOrder(NatToString(n) + rest) == n
  {
    var f := NatToString(n) + rest;
    DigitRunPrefix(NatToString(n), rest);
    assert f[..|NatToString(n)|] == NatToString(n);
    DigitsValueOfNat(n);
  }

  /** `<n>-<title>.md` is titled by the words of `title` alone. */
  lemma ChapterNameOfNumbered(n: nat, title: string)
    requires title != []
    ensures FormatChapterName(NatToString(n) + "-" + title + ".md") == TitleCase(title)
  {
    var f := NatToString(n) + "-" + title + ".md";
    assert EndsWith(f, ".md");
    var g := StripMd(f);
    assert g == NatToString(n) + "-" + title;
    DigitRunPrefix(NatToString(n), "-" + title);
    assert g[|NatToString(n)|] == '-';
    assert g[|NatToString(n)| + 1..] == title;
  }
}
