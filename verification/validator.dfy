/** `validator(bookmark)` of src/bookmarks/bookmarks-validator.js: a rating
    check and then a url check, answering `null` or `'Invalid data'`. */
module BookmarkValidator {
  import opened Optional
  import opened JsValues
  import opened BookmarkModel

  /** The rating test with the grouping JavaScript gives it: `&&` binds
      tighter than `||`, so truthiness guards only the integer test and the
      two range tests always run. */
  predicate RatingGuard(rating: Val, host: Host) {
    var n := RatingOf(rating, host);
    (Truthy(rating) && !IsInteger(n)) || LessThan(n, 0.0) || GreaterThan(n, 5.0)
  }

  /** The url test: only a truthy url is handed to `isWebUri`. */
  predicate UrlGuard(url: Val, host: Host) {
    Truthy(url) && !host.isWebUri(url)
  }

  /** Which check, if any, refuses the bookmark (the line that is logged).
      A rating is refused exactly when it is truthy and not one of 0..5; a
      url exactly when it is truthy and not a web URI; the rating decides
      first. */
  function Check(bookmark: Fields, host: Host): (r: Option<Complaint>)
    ensures r == None || r == Some(InvalidRating) || r == Some(InvalidUrl)
    ensures r == Some(InvalidRating) <==>
              Truthy(bookmark.rating) && !IsRatingValue(RatingOf(bookmark.rating, host))
    ensures r == Some(InvalidUrl) <==>
              (Truthy(bookmark.rating) ==> IsRatingValue(RatingOf(bookmark.rating, host)))
              && Truthy(bookmark.url) && !host.isWebUri(bookmark.url)
  {
    if RatingGuard(bookmark.rating, host) then Some(InvalidRating)
    else if UrlGuard(bookmark.url, host) then Some(InvalidUrl)
    else None
  }

  /** `validator(bookmark)`: `null` or the string `'Invalid data'`, and
      `null` exactly when neither the rating nor the url is objectionable. */
  function Validate(bookmark: Fields, host: Host): (r: Option<string>)
    ensures r == None || r == Some(InvalidData)
    ensures r == None <==>
              (Truthy(bookmark.rating) ==> IsRatingValue(RatingOf(bookmark.rating, host)))
              && (Truthy(bookmark.url) ==> host.isWebUri(bookmark.url))
  {
    if Check(bookmark, host).Some? then Some(InvalidData) else None
  }

  /** The precedence quirk cannot be observed: reading the guard as
      `rating && (!isInteger || < 0 || > 5)` refuses the same ratings,
      because every falsy rating converts to 0 or NaN. */
  lemma GroupingUnobservable(rating: Val, host: Host)
    ensures RatingGuard(rating, host) <==>
              Truthy(rating) && (!IsInteger(RatingOf(rating, host))
                                 || LessThan(RatingOf(rating, host), 0.0)
                                 || GreaterThan(RatingOf(rating, host), 5.0))
  {
  }

  /** A rating of 0 or "", and an absent or null rating, raise no rating error. */
  lemma FalsyRatingsPass(bookmark: Fields, host: Host)
    requires bookmark.rating in {Num(Finite(0.0)), Undefined, Null, Str("")}
    ensures Check(bookmark, host) != Some(InvalidRating)
  {
  }

  /** An out-of-range rating is refused whatever else the bookmark holds. */
  lemma OutOfRangeRefused(bookmark: Fields, host: Host)
    requires LessThan(RatingOf(bookmark.rating, host), 0.0)
             || GreaterThan(RatingOf(bookmark.rating, host), 5.0)
    ensures Check(bookmark, host) == Some(InvalidRating)
    ensures Validate(bookmark, host) == Some(InvalidData)
  {
  }
}
