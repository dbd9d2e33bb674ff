/** Comment counts from the blog's discussion threads (fetchDiscussionCounts
    and fetchDevDiscussionCounts in src/api/github.js). A thread is titled
    with the page path it belongs to; the counts of the threads of one book,
    or of the dev posts, are summed per page path. The GraphQL response is an
    input; `decodeUri` stands for decodeURIComponent, None when it throws. */
module Discussions {
  import opened Common

  datatype Discussion = Discussion(title: string, comments: nat)

  type Counts = map<string, nat>

  /** `replace(/^\//, '')` */
  function DropLeadingSlash(t: string): (r: string)
    ensures StartsWith(t, "/") ==> "/" + r == t
    ensures !StartsWith(t, "/") ==> r == t
  {
    if StartsWith(t, "/") then t[1..] else t
  }

  /** The page path a thread belongs to: its title less one leading slash,
      URI-decoded when that succeeds. */
  function PagePath(d: Discussion, decodeUri: string -> Option<string>): string
  {
    var raw := DropLeadingSlash(d.title);
    match decodeUri(raw)
    case Some(decoded) => decoded
    case None => raw
  }

  /** The counts the loop builds: each thread whose page path starts with
      `prefix` adds its comments under the rest of the path. */
  function Tally(ds: seq<Discussion>, prefix: string, decodeUri: string -> Option<string>): Counts
  {
    if ds == [] then map[]
    else
      var m := Tally(ds[..|ds| - 1], prefix, decodeUri);
      var d := ds[|ds| - 1];
      var title := PagePath(d, decodeUri);
      if StartsWith(title, prefix) then
        var key := title[|prefix|..];
        m[key := (if key in m then m[key] else 0) + d.comments]
      else m
  }

  method TallyComments(discussions: seq<Discussion>, prefix: string, decodeUri: string -> Option<string>)
    returns (counts: Counts)
    ensures counts == Tally(discussions, prefix, decodeUri)
  {
    counts := map[];
    for i := 0 to |discussions|
      invariant counts == Tally(discussions[..i], prefix, decodeUri)
    {
      assert discussions[..i + 1][..i] == discussions[..i];
      var d := discussions[i];
      var raw := DropLeadingSlash(d.title);
      var decoded := decodeUri(raw);
      var title := if decoded.Some? then decoded.value else raw;
      if StartsWith(title, prefix) {
        var key := title[|prefix|..];
        counts := counts[key := (if key in counts then counts[key] else 0) + d.comments];
      }
    }
    assert discussions[..|discussions|] == discussions;
  }

  function BookPrefix(bookSlug: string): string
  {
    "book/" + bookSlug + "/read/"
  }

  const DevPrefix: string := "post/"

  /** Counts per chapter path of one book. Nothing without a token, and
      nothing when the query fails (`response` None). */
  method FetchDiscussionCounts(bookSlug: string, hasToken: bool, response: Option<seq<Discussion>>,
                               decodeUri: string -> Option<string>) returns (counts: Counts)
    ensures !hasToken || response.None? ==> counts == map[]
    ensures hasToken && response.Some? ==> counts == Tally(response.value, BookPrefix(bookSlug), decodeUri)
  {
    if !hasToken || response.None? {
      return map[];
    }
    counts := TallyComments(response.value, BookPrefix(bookSlug), decodeUri);
  }

  /** Counts per dev-post key. */
  method FetchDevDiscussionCounts(hasToken: bool, response: Option<seq<Discussion>>,
                                  decodeUri: string -> Option<string>) returns (counts: Counts)
    ensures !hasToken || response.None? ==> counts == map[]
    ensures hasToken && response.Some? ==> counts == Tally(response.value, DevPrefix, decodeUri)
  {
    if !hasToken || response.None? {
      return map[];
    }
    counts := TallyComments(response.value, DevPrefix, decodeUri);
  }

  // ---------------------------------------------------------------------
  // Properties

  /** The comments of the threads whose page path is exactly `path`. */
  function CommentsOn(ds: seq<Discussion>, path: string, decodeUri: string -> Option<string>): nat
  {
    if ds == [] then 0
    else
      var d := ds[|ds| - 1];
      CommentsOn(ds[..|ds| - 1], path, decodeUri) + (if PagePath(d, decodeUri) == path then d.comments else 0)
  }

  lemma PrefixSplit(title: string, prefix: string, key: string)
    ensures (StartsWith(title, prefix) && title[|prefix|..] == key) <==> title == prefix + key
  {
    if title == prefix + key {
      assert title[..|prefix|] == prefix;
    }
    if StartsWith(title, prefix) && title[|prefix|..] == key {
      assert title == title[..|prefix|] + title[|prefix|..];
    }
  }

  /** A key is counted exactly when some thread is on `prefix + key`, and its
      count is the sum of those threads' comments. */
  lemma {:induction false} TallySums(ds: seq<Discussion>, prefix: string, decodeUri: string -> Option<string>, key: string)
    ensures key in Tally(ds, prefix, decodeUri) <==>
      exists i :: 0 <= i < |ds| && PagePath(ds[i], decodeUri) == prefix + key
    ensures key in Tally(ds, prefix, decodeUri) ==>
      Tally(ds, prefix, decodeUri)[key] == CommentsOn(ds, prefix + key, decodeUri)
    ensures key !in Tally(ds, prefix, decodeUri) ==> CommentsOn(ds, prefix + key, decodeUri) == 0
  {
    if ds != [] {
      var init, d := ds[..|ds| - 1], ds[|ds| - 1];
      TallySums(init, prefix, decodeUri, key);
      PrefixSplit(PagePath(d, decodeUri), prefix, key);
      if exists i :: 0 <= i < |init| && PagePath(init[i], decodeUri) == prefix + key {
        var i :| 0 <= i < |init| && PagePath(init[i], decodeUri) == prefix + key;
        assert ds[i] == init[i];
      }
      if exists i :: 0 <= i < |ds| && PagePath(ds[i], decodeUri) == prefix + key {
        var i :| 0 <= i < |ds| && PagePath(ds[i], decodeUri) == prefix + key;
        if i < |init| {
          assert init[i] == ds[i];
        }
      }
    }
  }

  /** Threads outside the prefix change nothing. */
  lemma OtherThreadsIgnored(ds: seq<Discussion>, d: Discussion, prefix: string, decodeUri: string -> Option<string>)
    requires !StartsWith(PagePath(d, decodeUri), prefix)
    ensures Tally(ds + [d], prefix, decodeUri) == Tally(ds, prefix, decodeUri)
  {
    assert (ds + [d])[..|ds|] == ds;
  }

  /** A thread titled with a leading slash counts like one without. */
  lemma LeadingSlashIgnored(title: string, comments: nat, decodeUri: string -> Option<string>)
    requires !StartsWith(title, "/")
    ensures PagePath(Discussion("/" + title, comments), decodeUri) == PagePath(Discussion(title, comments), decodeUri)
  {
    assert ("/" + title)[1..] == title;
  }
}
