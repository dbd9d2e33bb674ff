/** A book's card on the home and reading pages
    (src/page/home/_components/BookCard.jsx): the five rating stars, the
    first four tags, and the cover or its fallback. The star rule is the
    same one the book page draws its rating with. */
module BookCard {
  import opened Common

  datatype Fill = Full | Half | Empty

  /** The fill of star i (counted from 0) for a rating. */
  function StarFill(rating: real, i: nat): Fill
  {
    if rating - i as real >= 1.0 then Full
    else if rating - i as real >= 0.5 then Half
    else Empty
  }

  /** renderStars: `Array.from({ length: 5 }, (_, i) => ...)` */
  function Stars(rating: real): seq<Fill>
  {
    seq(5, i requires 0 <= i < 5 => StarFill(rating, i))
  }

  /** Always five stars. Star i is full exactly when the rating is at least
      i + 1 (so the full stars are the first ⌊rating⌋, at most five), half
      exactly when the rating's whole part is i and its fraction at least
      one half, and empty otherwise; a full star is never preceded by a
      half or an empty one. */
  lemma StarsFacts(rating: real)
    ensures var s := Stars(rating);
      |s| == 5 &&
      (forall i :: 0 <= i < 5 ==> (s[i] == Full <==> i + 1 <= rating.Floor)) &&
      (forall i :: 0 <= i < 5 ==> (s[i] == Half <==> i == rating.Floor && rating - i as real >= 0.5)) &&
      (forall i, j :: 0 <= i < j < 5 && s[j] == Full ==> s[i] == Full) &&
      (forall i, j :: 0 <= i < j < 5 && s[i] == Empty ==> s[j] == Empty)
  {
    var s := Stars(rating);
    forall i | 0 <= i < 5
      ensures (s[i] == Full <==> i + 1 <= rating.Floor)
      ensures (s[i] == Half <==> i == rating.Floor && rating - i as real >= 0.5)
    {
      FloorBounds(rating);
    }
  }

  lemma FloorBounds(r: real)
    ensures r.Floor as real <= r < r.Floor as real + 1.0
  {
  }

  /** A rating of five or more fills every star; none at all, or a rating
      under a half, fills none. */
  lemma StarsExtremes(rating: real)
    ensures rating >= 5.0 ==> Stars(rating) == [Full, Full, Full, Full, Full]
    ensures rating < 0.5 ==> Stars(rating) == [Empty, Empty, Empty, Empty, Empty]
  {
  }

  // ---------------------------------------------------------------------
  // The card

  const MaxTags: nat := 4

  /** The fields of a book the card reads; a missing string is "" and a
      missing rating is None. */
  datatype CardBook = CardBook(
    slug: string,
    title: string,
    status: string,
    cover: string,
    rating: Option<real>,
    tags: seq<string>)

  /** What the card shows: the cover image or the fallback, the status
      badge, the stars, and the tags. */
  datatype CardView = CardView(coverImage: bool, badge: Option<string>, stars: Option<seq<Fill>>, tags: seq<string>)

  /** `book.rating > 0` */
  predicate Rated(book: CardBook)
  {
    book.rating.Some? && book.rating.value > 0.0
  }

  function CardOf(book: CardBook, imgError: bool): CardView
  {
    CardView(
      book.cover != "" && !imgError,
      if book.status != "" then Some(book.status) else None,
      if Rated(book) then Some(Stars(book.rating.value)) else None,
      Take(book.tags, MaxTags))
  }

  /** The fallback cover shows exactly when there is no cover or it failed
      to load; stars show exactly for a positive rating, five of them; the
      tags shown are the first four, in order. */
  lemma CardFacts(book: CardBook, imgError: bool)
    ensures var v := CardOf(book, imgError);
      (!v.coverImage <==> book.cover == "" || imgError) &&
      (v.stars.Some? <==> Rated(book)) &&
      (v.stars.Some? ==> v.stars.value == Stars(book.rating.value) && |v.stars.value| == 5) &&
      |v.tags| == (if |book.tags| < MaxTags then |book.tags| else MaxTags) &&
      (forall i :: 0 <= i < |v.tags| ==> v.tags[i] == book.tags[i]) &&
      (v.badge.Some? <==> book.status != "")
  {
    if Rated(book) {
      StarsFacts(book.rating.value);
      FloorBounds(book.rating.value);
    }
  }
}
