/** The search dropdown (src/page/home/_components/SearchResults.jsx): the
    highlighted first match of the query in a title or snippet, which
    sections and messages appear, and the indexing progress bar. */
module SearchResults {
  import opened Common

  // ---------------------------------------------------------------------
  // HighlightText

  /** The text as given, or split around the highlighted match. */
  datatype Highlighted = Plain(text: string) | Marked(before: string, mark: string, after: string)

  function Highlight(text: string, query: string): Highlighted
  {
    if query == "" || text == "" then Plain(text)
    else match IndexOf(Lower(text), Lower(query))
      case None => Plain(text)
      case Some(idx) => Marked(text[..idx], text[idx..idx + |query|], text[idx + |query|..])
  }

  /** The text is left whole when the query or the text is empty, or when
      the query does not occur in it ignoring case. Otherwise the three
      parts put back together are the text, and the mark is the first
      occurrence of the query ignoring case, as long as the query. */
  lemma HighlightFacts(text: string, query: string)
    ensures var h := Highlight(text, query);
      (h.Plain? <==> query == "" || text == "" || !ContainsIgnoreCase(text, query)) &&
      (h.Plain? ==> h.text == text) &&
      (h.Marked? ==>
        h.before + h.mark + h.after == text &&
        |h.mark| == |query| && Lower(h.mark) == Lower(query) &&
        forall j :: 0 <= j < |h.before| ==> !OccursAt(Lower(text), Lower(query), j))
  {
    var h := Highlight(text, query);
    if h.Marked? {
      var idx := IndexOf(Lower(text), Lower(query)).value;
      assert text == text[..idx] + text[idx..idx + |query|] + text[idx + |query|..];
      LowerSlice(text, idx, idx + |query|);
    }
  }

  /** A text is marked only when it contains the query ignoring case, and
      the mark itself then matches the query ignoring case. */
  lemma MarkedIsMatch(text: string, query: string)
    requires Highlight(text, query).Marked?
    ensures ContainsIgnoreCase(text, query)
    ensures ContainsIgnoreCase(Highlight(text, query).mark, query)
  {
    HighlightFacts(text, query);
    var h := Highlight(text, query);
    assert OccursAt(Lower(h.mark), Lower(query), 0);
  }

  // ---------------------------------------------------------------------
  // Sections and messages

  datatype EmptyLabel = NothingFound | NoContentResults

  datatype Dropdown = Dropdown(
    bookSection: bool,
    indexingLabel: bool,
    progressBar: bool,
    contentItems: bool,
    emptyLabel: Option<EmptyLabel>)

  /** `!hasBooks && !hasContent && !indexing` */
  predicate ShowEmpty(bookCount: nat, contentCount: nat, indexing: bool)
  {
    bookCount == 0 && contentCount == 0 && !indexing
  }

  function DropdownOf(bookCount: nat, contentCount: nat, indexing: bool): Dropdown
  {
    Dropdown(
      bookCount > 0,
      indexing,
      indexing,
      contentCount > 0,
      if !indexing && contentCount == 0 then
        Some(if ShowEmpty(bookCount, contentCount, indexing) then NothingFound else NoContentResults)
      else None)
  }

  /** 'nothing found' appears exactly when there are no books, no content
      results and no indexing; the content-empty label appears only when
      indexing is over and no content matched, and says 'no content results'
      exactly when some book matched. Content items and the empty label
      never appear together. */
  lemma DropdownFacts(bookCount: nat, contentCount: nat, indexing: bool)
    ensures var d := DropdownOf(bookCount, contentCount, indexing);
      (d.emptyLabel == Some(NothingFound) <==> bookCount == 0 && contentCount == 0 && !indexing) &&
      (d.emptyLabel.Some? <==> !indexing && contentCount == 0) &&
      (d.emptyLabel == Some(NoContentResults) <==> !indexing && contentCount == 0 && bookCount > 0) &&
      !(d.contentItems && d.emptyLabel.Some?) &&
      (d.progressBar <==> indexing)
  {
  }

  // ---------------------------------------------------------------------
  // The progress bar

  /** The bar's width in percent: `done / total * 100`, or 0 with no total. */
  function ProgressWidth(done: nat, total: nat): real
  {
    if total != 0 then (done as real / total as real) * 100.0 else 0.0
  }

  /** With no total the width is 0, not a division by zero; otherwise it
      grows with `done`, and stays within 0 .. 100 while done <= total. */
  lemma ProgressWidthFacts(done: nat, total: nat)
    ensures total == 0 ==> ProgressWidth(done, total) == 0.0
    ensures done <= total ==> 0.0 <= ProgressWidth(done, total) <= 100.0
    ensures total > 0 && done == total ==> ProgressWidth(done, total) == 100.0
    ensures total > 0 ==> ProgressWidth(done, total) < ProgressWidth(done + 1, total)
  {
    if total > 0 {
      var t := total as real;
      assert done as real / t <= (done + 1) as real / t - 1.0 / t;
      if done <= total {
        assert done as real / t <= 1.0;
      }
    }
  }
}
