/** The decision and shaping logic of src/bookmarks/bookmarks-router.js:
    `sanitizeBookmark`, the POST /bookmarks validate-and-build chain, the
    GET /bookmarks listing and the /bookmarks/:id not-found gate in front of
    its GET and DELETE handlers. The store is a map from id to row. */
module BookmarkRouter {
  import opened Optional
  import opened JsValues
  import opened BookmarkModel
  import Decimal

  /** A JSON response body. */
  datatype Json =
    | ErrorMessage(message: string)          // {error: {message}}
    | One(bookmark: Sanitized)
    | Many(bookmarks: seq<Sanitized>)

  datatype Body = Text(text: string) | JsonBody(json: Json) | NoBody

  datatype Response = Response(status: nat, location: Option<string>, body: Body)

  /** What a handler leaves behind: a response and the store after it, or an
      error passed on to the application's error handler (`next(err)`). */
  datatype Handled = Responded(store: Store, response: Response) | Forwarded

  /** The two handlers mounted behind the /bookmarks/:id gate. */
  datatype Verb = Get | Delete

  /** One `[key, value]` pair of `Object.entries(newBookmark)`. */
  datatype Entry = Entry(key: string, value: Val)

  /** The outcome of the POST checks: the complaint that stopped it, or the
      object handed to insert. */
  datatype CreateOutcome = Rejected(why: Complaint) | Accepted(record: NewBookmark)

  const NotFoundMessage: string := "Bookmark doesn't exist"

  const CollectionPath: string := "/bookmarks/"

  // ---------------------------------------------------------------- output

  /** `sanitizeBookmark`: id, url and rating unchanged, title always filtered,
      description filtered and present only when the stored one is truthy. */
  function Sanitize(row: Row, host: Host): (s: Sanitized)
    ensures s.id == row.id && s.url == row.url && s.rating == row.rating
    ensures s.title == host.xss(row.title)
    ensures s.description.Some? <==> Truthy(row.description)
    ensures s.description.Some? ==> s.description.value == host.xss(row.description)
  {
    Sanitized(row.id, host.xss(row.title), row.url, row.rating,
              if Truthy(row.description) then Some(host.xss(row.description)) else None)
  }

  /** The sanitized object read back as a row, as a client that stores the
      response would see it. An absent description reads as `undefined`. */
  function Reread(s: Sanitized): Row {
    Row(s.id, Str(s.title), s.url,
        if s.description.Some? then Str(s.description.value) else Undefined, s.rating)
  }

  /** The ids of the listed rows. */
  function Ids(rows: seq<Row>): (ids: set<nat>)
    ensures forall i :: 0 <= i < |rows| ==> rows[i].id in ids
    ensures forall id :: id in ids ==> exists i :: 0 <= i < |rows| && rows[i].id == id
    decreases |rows|
  {
    if rows == [] then {} else Ids(rows[..|rows| - 1]) + {rows[|rows| - 1].id}
  }

  predicate DistinctIds(rows: seq<Row>) {
    forall i, j :: 0 <= i < j < |rows| ==> rows[i].id != rows[j].id
  }

  /** `select * from bookmarks_table`: every stored row exactly once, in
      whatever order the database chooses. */
  predicate ListingOf(rows: seq<Row>, store: Store) {
    && DistinctIds(rows)
    && (forall i :: 0 <= i < |rows| ==> rows[i].id in store && store[rows[i].id] == rows[i])
    && (forall id :: id in store ==> exists i :: 0 <= i < |rows| && rows[i].id == id)
  }

  lemma {:induction false} DistinctIdsCount(rows: seq<Row>)
    requires DistinctIds(rows)
    ensures |Ids(rows)| == |rows|
    decreases |rows|
  {
    if rows != [] {
      var prefix := rows[..|rows| - 1];
      DistinctIdsCount(prefix);
      assert rows[|rows| - 1].id !in Ids(prefix);
    }
  }

  /** A listing of the store has one row per stored bookmark. */
  lemma ListingCountsStore(rows: seq<Row>, store: Store)
    requires ListingOf(rows, store)
    ensures |rows| == |store|
  {
    DistinctIdsCount(rows);
    assert Ids(rows) == store.Keys;
  }

  /** GET /bookmarks: answers 200 with every stored bookmark exactly once,
      sanitized, in the order the store lists them. */
  method ListBookmarks(store: Store, rows: seq<Row>, host: Host) returns (response: Response)
    requires ListingOf(rows, store)
    ensures response.status == 200 && response.location == None
    ensures response.body.JsonBody? && response.body.json.Many?
    ensures |response.body.json.bookmarks| == |rows| == |store|
    ensures forall i :: 0 <= i < |rows| ==> response.body.json.bookmarks[i] == Sanitize(rows[i], host)
    ensures forall id :: id in store ==>
              exists i :: 0 <= i < |rows| && response.body.json.bookmarks[i] == Sanitize(store[id], host)
  {
    ListingCountsStore(rows, store);
    var out: seq<Sanitized> := [];
    var i := 0;
    while i < |rows|
      invariant 0 <= i <= |rows|
      invariant |out| == i
      invariant forall j :: 0 <= j < i ==> out[j] == Sanitize(rows[j], host)
    {
      out := out + [Sanitize(rows[i], host)];
      i := i + 1;
    }
    response := Response(200, None, JsonBody(Many(out)));
  }

  // ---------------------------------------------------------------- create

  /** The index of the first entry whose value is null or undefined: the
      `for ... of Object.entries(...)` loop that returns on the first one. */
  function FirstNullish(entries: seq<Entry>): (r: Option<nat>)
    ensures r.Some? ==> r.value < |entries| && IsNullish(entries[r.value].value)
    ensures r.Some? ==> forall j :: 0 <= j < r.value ==> !IsNullish(entries[j].value)
    ensures r.None? <==> forall j :: 0 <= j < |entries| ==> !IsNullish(entries[j].value)
  {
    if |entries| == 0 then None
    else if IsNullish(entries[0].value) then Some(0)
    else match FirstNullish(entries[1..])
      case None => None
      case Some(i) => Some(i + 1)
  }

  /** The entries of `{ title, url, rating }`, in insertion order. */
  function RequiredEntries(body: Fields): seq<Entry> {
    [Entry("title", body.title), Entry("url", body.url), Entry("rating", body.rating)]
  }

  /** The POST /bookmarks checks in their fixed order: required fields (title,
      then url, then rating), then the rating, then the url. The first one
      that fails decides; when none fails the insert record holds title, url
      and rating, and the description only when it is truthy. */
  function Create(body: Fields, host: Host): (r: CreateOutcome)
    ensures r == Rejected(Required("title")) <==> IsNullish(body.title)
    ensures r == Rejected(Required("url")) <==> !IsNullish(body.title) && IsNullish(body.url)
    ensures r == Rejected(Required("rating")) <==>
              !IsNullish(body.title) && !IsNullish(body.url) && IsNullish(body.rating)
    ensures r == Rejected(InvalidRating) <==>
              HasRequired(body) && !IsRatingValue(RatingOf(body.rating, host))
    ensures r == Rejected(InvalidUrl) <==>
              HasRequired(body) && IsRatingValue(RatingOf(body.rating, host)) && !host.isWebUri(body.url)
    ensures r.Accepted? <==>
              HasRequired(body) && IsRatingValue(RatingOf(body.rating, host)) && host.isWebUri(body.url)
    ensures r.Accepted? ==>
              r.record.title == body.title && r.record.url == body.url && r.record.rating == body.rating
    ensures r.Accepted? ==>
              (r.record.description.Some? <==> Truthy(body.description))
              && (r.record.description.Some? ==> r.record.description.value == body.description)
  {
    var required := RequiredEntries(body);
    match FirstNullish(required)
    case Some(i) =>
      assert i >= 1 ==> !IsNullish(required[0].value);
      assert i == 2 ==> !IsNullish(required[1].value);
      Rejected(Required(required[i].key))
    case None =>
      assert !IsNullish(required[0].value) && !IsNullish(required[1].value) && !IsNullish(required[2].value);
      var record := NewBookmark(body.title, body.url, body.rating,
                                if Truthy(body.description) then Some(body.description) else None);
      var n := RatingOf(body.rating, host);
      if !IsInteger(n) || LessThan(n, 0.0) || GreaterThan(n, 5.0) then Rejected(InvalidRating)
      else if !host.isWebUri(body.url) then Rejected(InvalidUrl)
      else Accepted(record)
  }

  /** The row the store holds after inserting `record` under `id`; a
      description that was not supplied is stored as NULL. */
  function Stored(record: NewBookmark, id: nat): Row {
    Row(id, record.title, record.url,
        if record.description.Some? then record.description.value else Null, record.rating)
  }

  /** The id the database reads from the `:id` segment of a path: a
      non-empty run of digits (leading zeros allowed) whose value fits the
      id column. Anything else makes the query fail. */
  function IdOf(param: string): (r: Option<nat>)
    ensures r.Some? <==> param != "" && Decimal.AllDigits(param) && Decimal.Value(param) <= MaxId
    ensures r.Some? ==> r.value == Decimal.Value(param)
  {
    match Decimal.Parse(param)
    case Some(id) => if id <= MaxId then Some(id) else None
    case None => None
  }

  /** `/bookmarks/${bookmark.id}`: the collection path followed by the
      canonical numeral of the id (digits only, no leading zero), which the
      `:id` route reads back as the same id. */
  function LocationOf(id: nat): (path: string)
    ensures |path| > |CollectionPath| && path[..|CollectionPath|] == CollectionPath
    ensures Decimal.AllDigits(path[|CollectionPath|..])
    ensures path[|CollectionPath|] == '0' ==> path == CollectionPath + "0"
    ensures Decimal.Parse(path[|CollectionPath|..]) == Some(id)
    ensures id <= MaxId ==> IdOf(path[|CollectionPath|..]) == Some(id)
  {
    Decimal.ParseFormat(id);
    var path := CollectionPath + Decimal.Format(id);
    assert path[|CollectionPath|..] == Decimal.Format(id);
    path
  }

  /** POST /bookmarks. A refused body answers 400 "Invalid data" and leaves the
      store alone; an accepted one is inserted under the id the store hands
      out and answered 201 with its location and sanitized row. */
  function HandlePost(store: Store, body: Fields, host: Host, newId: nat): (h: Handled)
    requires newId !in store && newId <= MaxId
    ensures h.Responded?
    ensures Create(body, host).Rejected? ==>
              h.store == store && h.response == Response(400, None, Text(InvalidData))
    ensures Create(body, host).Accepted? ==>
              && h.store.Keys == store.Keys + {newId}
              && (forall id :: id in store ==> h.store[id] == store[id])
              && h.store[newId] == Stored(Create(body, host).record, newId)
              && h.response.status == 201
              && h.response.location == Some(LocationOf(newId))
              && h.response.body == JsonBody(One(Sanitize(h.store[newId], host)))
  {
    match Create(body, host)
    case Rejected(_) => Responded(store, Response(400, None, Text(InvalidData)))
    case Accepted(record) =>
      var row := Stored(record, newId);
      Responded(store[newId := row],
                Response(201, Some(LocationOf(newId)), JsonBody(One(Sanitize(row, host)))))
  }

  // ---------------------------------------------------------------- by id

  /** /bookmarks/:id. The `.all` gate looks the id up first: an unknown id
      answers 404 with the fixed message and neither handler runs; otherwise
      GET answers the sanitized row and DELETE removes it and answers 204.
      A path segment the database cannot read as an id (not digits, or too
      large for the id column) is an error passed on to the error handler. */
  function HandleById(store: Store, param: string, verb: Verb, host: Host): (h: Handled)
    ensures IdOf(param).None? <==> h.Forwarded?
    ensures h.Responded? ==> var id := IdOf(param).value;
              && (id !in store ==> h == Responded(store, Response(404, None, JsonBody(ErrorMessage(NotFoundMessage)))))
              && (id in store && verb == Get ==>
                    h == Responded(store, Response(200, None, JsonBody(One(Sanitize(store[id], host))))))
              && (id in store && verb == Delete ==>
                    h.store.Keys == store.Keys - {id}
                    && (forall k :: k in h.store ==> h.store[k] == store[k])
                    && h.response == Response(204, None, NoBody))
  {
    match IdOf(param)
    case None => Forwarded
    case Some(id) =>
      if id !in store then
        Responded(store, Response(404, None, JsonBody(ErrorMessage(NotFoundMessage))))
      else match verb
        case Get => Responded(store, Response(200, None, JsonBody(One(Sanitize(store[id], host)))))
        case Delete => Responded(store - {id}, Response(204, None, NoBody))
  }
}
