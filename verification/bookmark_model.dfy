/** The bookmark entity and the records that carry it through the router:
    request bodies, rows of `bookmarks_table`, the record handed to insert
    and the sanitized object returned to callers. */
module BookmarkModel {
  import opened Optional
  import opened JsValues

  /** The code the bookmark layer calls but does not contain. Each is an
      arbitrary total function: nothing is assumed about its behaviour. */
  datatype Host = Host(
    xss: Val -> string,               // the filter of the `xss` package
    isWebUri: Val -> bool,            // truthiness of `isWebUri` from `valid-url`
    stringToNumber: string -> Number  // `Number(s)` on a non-empty string
  )

  /** The fields of a request body that the handlers read. */
  datatype Fields = Fields(title: Val, url: Val, description: Val, rating: Val)

  /** A row of `bookmarks_table`, as the store returns it. */
  datatype Row = Row(id: nat, title: Val, url: Val, description: Val, rating: Val)

  /** The object POST hands to insert. `description == None` means the key
      is absent from the object. */
  datatype NewBookmark = NewBookmark(title: Val, url: Val, rating: Val, description: Option<Val>)

  /** The object `sanitizeBookmark` builds. `description == None` means the
      key is absent from the object. */
  datatype Sanitized = Sanitized(id: nat, title: string, url: Val, rating: Val, description: Option<string>)

  /** The table, keyed by id. */
  type Store = map<nat, Row>

  /** The largest id the `id` column holds: it is a Postgres `integer`
      (32-bit signed), so the serial ids it hands out stay at or below it. */
  const MaxId: nat := 2147483647

  /** Which check refused a request: the line the handler logs. */
  datatype Complaint = Required(key: string) | InvalidRating | InvalidUrl

  /** The only error text a client ever sees for a refused bookmark. */
  const InvalidData: string := "Invalid data"

  /** `Number(rating)`. */
  function RatingOf(rating: Val, host: Host): Number {
    ToNumber(rating, host.stringToNumber)
  }

  /** The ratings a bookmark may carry: the integers 0 through 5. */
  predicate IsRatingValue(n: Number) {
    n.Finite? && n.x in {0.0, 1.0, 2.0, 3.0, 4.0, 5.0}
  }

  /** The three fields POST demands are neither null nor undefined. */
  predicate HasRequired(body: Fields) {
    !IsNullish(body.title) && !IsNullish(body.url) && !IsNullish(body.rating)
  }

  /** What a row created through POST satisfies: title and url present, url a
      web URI, rating one of 0..5, description NULL or truthy. */
  predicate WellFormed(row: Row, host: Host) {
    && !IsNullish(row.title)
    && host.isWebUri(row.url)
    && IsRatingValue(RatingOf(row.rating, host))
    && (row.description == Null || Truthy(row.description))
  }

  predicate WellFormedStore(store: Store, host: Host) {
    forall id :: id in store ==> store[id].id == id && WellFormed(store[id], host)
  }

  /** The rating scale is exactly "an integer, not below 0, not above 5",
      the three tests both handlers write out. */
  lemma RatingScale(n: Number)
    ensures IsRatingValue(n) <==> IsInteger(n) && !LessThan(n, 0.0) && !GreaterThan(n, 5.0)
  {
  }
}
