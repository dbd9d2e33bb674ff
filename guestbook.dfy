/** The guestbook endpoint (api/guestbook.js): the comments of the
    discussion titled "guestbook", newest first, ten to a page. The GraphQL
    request is an outcome given as a parameter. */
module Guestbook {
  import opened Common
  import opened GitNames

  const PageSize: nat := 10

  const GuestbookTitle: string := "guestbook"

  const Anonymous: string := "anonymous"

  // ---------------------------------------------------------------------
  // parseInt

  predicate IsHexDigit(c: char)
  {
    IsDigit(c) || 'a' <= c <= 'f' || 'A' <= c <= 'F'
  }

  function HexDigitValue(c: char): (d: nat)
    requires IsHexDigit(c)
    ensures d < 16
  {
    if IsDigit(c) then c as int - '0' as int
    else if 'a' <= c <= 'f' then c as int - 'a' as int + 10
    else c as int - 'A' as int + 10
  }

  function HexRun(s: string): (n: nat)
    ensures n <= |s| && forall i :: 0 <= i < n ==> IsHexDigit(s[i])
  {
    if s != [] && IsHexDigit(s[0]) then 1 + HexRun(s[1..]) else 0
  }

  function HexValue(s: string): nat
    requires forall i :: 0 <= i < |s| ==> IsHexDigit(s[i])
  {
    if s == [] then 0 else 16 * HexValue(s[..|s| - 1]) + HexDigitValue(s[|s| - 1])
  }

  /** The magnitude parseInt reads after the sign: hexadecimal after "0x" or
      "0X", decimal otherwise; None when no digit follows. */
  function ParseMagnitude(u: string): Option<nat>
  {
    if |u| >= 2 && u[0] == '0' && (u[1] == 'x' || u[1] == 'X') then
      var h := HexRun(u[2..]);
      if h == 0 then None else Some(HexValue(u[2..][..h]))
    else
      var n := DigitRun(u);
      if n == 0 then None else Some(DigitsValue(u[..n]))
  }

  /** parseInt with no radix: leading whitespace, an optional sign, then the
      longest run of digits; None where it gives NaN. */
  function ParseInt(s: string): Option<int>
  {
    var t := TrimStart(s);
    var signed := t != [] && (t[0] == '-' || t[0] == '+');
    var u := if signed then t[1..] else t;
    match ParseMagnitude(u)
    case None => None
    case Some(m) => Some(if signed && t[0] == '-' then -(m as int) else m as int)
  }

  /** `Math.max(1, parseInt(page) || 1)`; an absent parameter parses as NaN. */
  function RequestedPage(page: Option<string>): (r: int)
    ensures r >= 1
    ensures page.Some? && ParseInt(page.value).Some? && ParseInt(page.value).value >= 1 ==>
      r == ParseInt(page.value).value
    ensures page.None? || ParseInt(page.value).None? || ParseInt(page.value).value < 1 ==> r == 1
  {
    var parsed := if page.Some? then ParseInt(page.value) else None;
    var p := if parsed.None? || parsed.value == 0 then 1 else parsed.value;
    if p < 1 then 1 else p
  }

  /** A string that starts with a decimal digit, not as "0x", is read in
      decimal up to its first non-digit. */
  lemma ParseIntDecimal(s: string)
    requires s != [] && IsDigit(s[0])
    requires !(|s| >= 2 && s[0] == '0' && (s[1] == 'x' || s[1] == 'X'))
    ensures ParseInt(s) == Some(DigitsValue(s[..DigitRun(s)]) as int)
  {
    NoLeadingSpace(s);
    assert s[0] != '-' && s[0] != '+';
    DecimalMagnitude(s);
  }

  lemma NoLeadingSpace(s: string)
    requires s != [] && IsDigit(s[0])
    ensures TrimStart(s) == s
  {
    assert !IsWhitespace(s[0]);
  }

  lemma DecimalMagnitude(u: string)
    requires u != [] && IsDigit(u[0])
    requires !(|u| >= 2 && u[0] == '0' && (u[1] == 'x' || u[1] == 'X'))
    ensures ParseMagnitude(u) == Some(DigitsValue(u[..DigitRun(u)]))
  {
  }

  /** A page number written in decimal is read back as that page. */
  lemma RequestedPageOfNumeral(n: nat, rest: string)
    requires n >= 1 && (rest == [] || !IsDigit(rest[0]))
    ensures RequestedPage(Some(NatToString(n) + rest)) == n
  {
    var digits := NatToString(n);
    var s := digits + rest;
    assert s[0] == digits[0];
    if |digits| == 1 {
      assert digits == ['0' + (n % 10) as char];
    } else {
      assert s[1] == digits[1];
    }
    ParseIntDecimal(s);
    DigitRunPrefix(digits, rest);
    assert s[..|digits|] == digits;
    DigitsValueOfNat(n);
  }

  // ---------------------------------------------------------------------
  // Comments

  datatype Author = Author(login: Option<string>, avatarUrl: Option<string>)

  datatype RawComment = RawComment(author: Option<Author>, body: Option<string>, createdAt: string)

  datatype Discussion = Discussion(title: string, comments: Option<seq<RawComment>>)

  datatype Comment = Comment(author: string, avatar: string, body: string, createdAt: string)

  /** `x || fallback` for an optional string: the fallback for a missing or
      empty one. */
  function OrElse(x: Option<string>, fallback: string): (r: string)
    ensures x.Some? && x.value != "" ==> r == x.value
    ensures x.None? || x.value == "" ==> r == fallback
  {
    if x.Some? && x.value != "" then x.value else fallback
  }

  function CommentOf(c: RawComment): Comment
  {
    Comment(
      OrElse(if c.author.Some? then c.author.value.login else None, Anonymous),
      OrElse(if c.author.Some? then c.author.value.avatarUrl else None, ""),
      OrElse(c.body, ""),
      c.createdAt)
  }

  function CommentFrom(): RawComment -> Comment
  {
    (c: RawComment) => CommentOf(c)
  }

  /** Comments without an author are anonymous with no avatar; a missing
      body is empty; the date is kept. */
  lemma CommentDefaults(c: RawComment)
    ensures c.author.None? ==> CommentOf(c).author == Anonymous && CommentOf(c).avatar == ""
    ensures c.body.None? ==> CommentOf(c).body == ""
    ensures CommentOf(c).createdAt == c.createdAt
    ensures c.author.Some? && c.author.value.login.Some? && c.author.value.login.value != "" ==>
      CommentOf(c).author == c.author.value.login.value
  {
  }

  /** The guestbook's comments, newest first. */
  function AllComments(guestbook: Discussion): (r: seq<Comment>)
    ensures var raw := if guestbook.comments.Some? then guestbook.comments.value else [];
      |r| == |raw| && forall i :: 0 <= i < |r| ==> r[i] == CommentOf(raw[|raw| - 1 - i])
  {
    Reverse(Map(if guestbook.comments.Some? then guestbook.comments.value else [], CommentFrom()))
  }

  // ---------------------------------------------------------------------
  // Pages

  datatype PageResponse = PageResponse(comments: seq<Comment>, page: int, totalPages: nat)

  const EmptyResponse: PageResponse := PageResponse([], 1, 0)

  function TotalPages(n: nat): nat
  {
    CeilDiv(n, PageSize)
  }

  /** The page served: the requested one, or the last one when it is past
      the end (page 1 when there are none). */
  function SafePage(requested: int, totalPages: nat): (r: int)
    requires requested >= 1
    ensures 1 <= r <= (if totalPages > 1 then totalPages else 1)
    ensures requested <= totalPages ==> r == requested
  {
    var upper := if totalPages > 1 then totalPages else 1;
    if requested < upper then requested else upper
  }

  /** The response for the comments `all` and a requested page. */
  function Serve(all: seq<Comment>, requested: int): PageResponse
    requires requested >= 1
  {
    var totalPages := TotalPages(|all|);
    var safePage := SafePage(requested, totalPages);
    var start := (safePage - 1) * PageSize;
    var end := start + PageSize;
    PageResponse(
      if start >= |all| then [] else all[start..if end <= |all| then end else |all|],
      safePage,
      totalPages)
  }

  /** The served page is between 1 and the number of pages (1 when there is
      none); it holds at most ten comments, those of that page. */
  lemma ServeFacts(all: seq<Comment>, requested: int)
    requires requested >= 1
    ensures var r := Serve(all, requested);
      r.totalPages == TotalPages(|all|) &&
      1 <= r.page <= (if r.totalPages > 1 then r.totalPages else 1) &&
      (requested <= r.totalPages ==> r.page == requested) &&
      r.comments == PageOf(all, r.page, PageSize) && |r.comments| <= PageSize
  {
  }

  /** Reading pages 1 to totalPages, in order, gives every comment once,
      newest first. */
  lemma PagesGiveEveryComment(all: seq<Comment>)
    ensures var n := TotalPages(|all|);
      (forall p :: 1 <= p <= n ==> Serve(all, p).comments == PageOf(all, p, PageSize)) &&
      PagesFrom(all, PageSize, 1, n) == all
  {
    PagesPartition(all, PageSize);
  }

  // ---------------------------------------------------------------------
  // The handler

  /** How the GraphQL request ended: it threw, answered with a non-ok
      status, or answered with the discussions (none when the data is
      missing). */
  datatype Outcome = Threw | NotOk | Answered(discussions: seq<Discussion>)

  function FindGuestbook(discussions: seq<Discussion>): (r: Option<Discussion>)
    ensures r.None? <==> forall i :: 0 <= i < |discussions| ==> discussions[i].title != GuestbookTitle
    ensures r.Some? ==> r.value.title == GuestbookTitle && r.value in discussions
  {
    if discussions == [] then None
    else if discussions[0].title == GuestbookTitle then Some(discussions[0])
    else
      var r := FindGuestbook(discussions[1..]);
      assert forall i :: 1 <= i < |discussions| ==> discussions[i] == discussions[1..][i - 1];
      r
  }

  function Handle(hasToken: bool, page: Option<string>, outcome: Outcome): PageResponse
  {
    if !hasToken then EmptyResponse
    else
      var requested := RequestedPage(page);
      match outcome
      case Threw => EmptyResponse
      case NotOk => EmptyResponse
      case Answered(discussions) =>
        match FindGuestbook(discussions)
        case None => EmptyResponse
        case Some(guestbook) => Serve(AllComments(guestbook), requested)
  }

  /** Without a token, on an error or a non-ok answer, and when no
      discussion is titled "guestbook", the response is the empty one;
      otherwise it is the requested page of the guestbook's comments. */
  lemma HandleFacts(hasToken: bool, page: Option<string>, outcome: Outcome)
    ensures !hasToken || outcome.Threw? || outcome.NotOk? ==> Handle(hasToken, page, outcome) == EmptyResponse
    ensures (hasToken && outcome.Answered? &&
      forall i :: 0 <= i < |outcome.discussions| ==> outcome.discussions[i].title != GuestbookTitle) ==>
      Handle(hasToken, page, outcome) == EmptyResponse
    ensures hasToken && outcome.Answered? && FindGuestbook(outcome.discussions).Some? ==>
      var all := AllComments(FindGuestbook(outcome.discussions).value);
      var r := Handle(hasToken, page, outcome);
      r.totalPages == TotalPages(|all|) && r.comments == PageOf(all, r.page, PageSize) &&
      (RequestedPage(page) <= r.totalPages ==> r.page == RequestedPage(page))
  {
    if hasToken && outcome.Answered? && FindGuestbook(outcome.discussions).Some? {
      ServeFacts(AllComments(FindGuestbook(outcome.discussions).value), RequestedPage(page));
    }
  }

  /** The first comment of page 1 is the newest comment. */
  lemma NewestFirst(guestbook: Discussion)
    requires guestbook.comments.Some? && guestbook.comments.value != []
    ensures var raw := guestbook.comments.value;
      Serve(AllComments(guestbook), 1).comments[0] == CommentOf(raw[|raw| - 1])
  {
    var all := AllComments(guestbook);
    ServeFacts(all, 1);
  }
}
