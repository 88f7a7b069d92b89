/** Properties that relate several operations of the bookmark layer: the
    POST chain against the standalone validator, the store invariant the
    handlers keep, the round trip from a created bookmark to its location,
    and what sanitizing twice does. */
module BookmarkProperties {
  import opened Optional
  import opened JsValues
  import opened BookmarkModel
  import opened BookmarkValidator
  import opened BookmarkRouter
  import Decimal

  // ------------------------------------------------- POST against validator

  /** Whatever POST accepts, the standalone validator accepts too. */
  lemma CreateStricterThanValidator(body: Fields, host: Host)
    ensures Create(body, host).Accepted? ==> Validate(body, host) == None
  {
  }

  /** The converse fails: a null rating passes the validator, which skips
      falsy values, but POST refuses it as missing. */
  lemma ValidatorPassesNullRating(host: Host)
    requires host.isWebUri(Str("http://x.com"))
    ensures var body := Fields(Str("t"), Str("http://x.com"), Undefined, Null);
            Validate(body, host) == None && Create(body, host) == Rejected(Required("rating"))
  {
  }

  /** The converse fails for urls too: the validator never looks at an empty
      url, POST hands it to `isWebUri`. */
  lemma ValidatorSkipsEmptyUrl(host: Host)
    requires !host.isWebUri(Str(""))
    ensures var body := Fields(Str("t"), Str(""), Undefined, Num(Finite(3.0)));
            Validate(body, host) == None && Create(body, host) == Rejected(InvalidUrl)
  {
  }

  /** A rating of 0 is present, so it passes the required-field step, and it
      is on the scale, so POST accepts it. */
  lemma ZeroRatingCreated(title: Val, url: Val, description: Val, host: Host)
    requires !IsNullish(title) && !IsNullish(url) && host.isWebUri(url)
    ensures Create(Fields(title, url, description, Num(Finite(0.0))), host).Accepted?
  {
  }

  /** Both ends of the scale are accepted, the integers just past it are not. */
  lemma ScaleEnds(title: Val, url: Val, description: Val, host: Host)
    requires !IsNullish(title) && !IsNullish(url) && host.isWebUri(url)
    ensures Create(Fields(title, url, description, Num(Finite(0.0))), host).Accepted?
    ensures Create(Fields(title, url, description, Num(Finite(5.0))), host).Accepted?
    ensures Create(Fields(title, url, description, Num(Finite(6.0))), host) == Rejected(InvalidRating)
    ensures Create(Fields(title, url, description, Num(Finite(-1.0))), host) == Rejected(InvalidRating)
    ensures Create(Fields(title, url, description, Num(Finite(2.5))), host) == Rejected(InvalidRating)
  {
  }

  /** Only null and undefined count as missing: an empty title is created. */
  lemma EmptyTitleCreated(url: Val, host: Host)
    requires !IsNullish(url) && host.isWebUri(url)
    ensures Create(Fields(Str(""), url, Undefined, Num(Finite(1.0))), host).Accepted?
  {
  }

  // ------------------------------------------------------- description key

  /** A bookmark created without a truthy description is stored with NULL and
      answered with no `description` key at all. */
  lemma CreatedWithoutDescription(store: Store, body: Fields, host: Host, newId: nat)
    requires newId !in store && newId <= MaxId
    requires Create(body, host).Accepted? && !Truthy(body.description)
    ensures HandlePost(store, body, host, newId).store[newId].description == Null
    ensures HandlePost(store, body, host, newId).response.body.json.bookmark.description == None
  {
  }

  // ------------------------------------------------------- store invariant

  /** POST keeps every row of the store well formed. */
  lemma PostKeepsStoreWellFormed(store: Store, body: Fields, host: Host, newId: nat)
    requires newId !in store && newId <= MaxId && WellFormedStore(store, host)
    ensures WellFormedStore(HandlePost(store, body, host, newId).store, host)
  {
  }

  /** GET and DELETE on an id keep every row of the store well formed. */
  lemma ByIdKeepsStoreWellFormed(store: Store, param: string, verb: Verb, host: Host)
    requires WellFormedStore(store, host)
    ensures var h := HandleById(store, param, verb, host);
            h.Responded? ==> WellFormedStore(h.store, host)
  {
  }

  // --------------------------------------------------------------- by id

  /** An unknown id stops at the gate: GET and DELETE give the same 404 and
      the store is untouched, so neither handler ran. */
  lemma GateStopsUnknownId(store: Store, param: string, host: Host)
    requires IdOf(param).Some? && IdOf(param).value !in store
    ensures HandleById(store, param, Get, host) == HandleById(store, param, Delete, host)
    ensures HandleById(store, param, Get, host)
              == Responded(store, Response(404, None, JsonBody(ErrorMessage("Bookmark doesn't exist"))))
  {
  }

  /** Fetching the Location a POST answered with yields the same sanitized
      bookmark the POST returned. */
  lemma CreatedIsRetrievable(store: Store, body: Fields, host: Host, newId: nat)
    requires newId !in store && newId <= MaxId && Create(body, host).Accepted?
    ensures var posted := HandlePost(store, body, host, newId);
            var param := posted.response.location.value[|CollectionPath|..];
            HandleById(posted.store, param, Get, host)
              == Responded(posted.store, Response(200, None, posted.response.body))
  {
  }

  /** A run of digits past the id column's range is not an unknown id: the
      database refuses the query and the error handler answers, whatever
      the table holds. */
  lemma OversizedIdForwarded(store: Store, verb: Verb, host: Host)
    ensures HandleById(store, "2147483648", verb, host) == Forwarded
  {
    assert Decimal.Value("2") == 2;
    assert "21"[..1] == "2";
    assert Decimal.Value("21") == 21;
    assert "214"[..2] == "21";
    assert Decimal.Value("214") == 214;
    assert "2147"[..3] == "214";
    assert Decimal.Value("2147") == 2147;
    assert "21474"[..4] == "2147";
    assert Decimal.Value("21474") == 21474;
    assert "214748"[..5] == "21474";
    assert Decimal.Value("214748") == 214748;
    assert "2147483"[..6] == "214748";
    assert Decimal.Value("2147483") == 2147483;
    assert "21474836"[..7] == "2147483";
    assert Decimal.Value("21474836") == 21474836;
    assert "214748364"[..8] == "21474836";
    assert Decimal.Value("214748364") == 214748364;
    assert "2147483648"[..9] == "214748364";
    assert Decimal.Value("2147483648") == 2147483648;
  }

  /** Every canonical numeral of eleven digits or more is past the id
      column's range, so such a segment is forwarded as well. */
  lemma LongSegmentForwarded(store: Store, param: string, verb: Verb, host: Host)
    requires |param| >= 11 && Decimal.AllDigits(param) && param[0] != '0'
    ensures HandleById(store, param, verb, host) == Forwarded
  {
    Decimal.LeadingDigitMagnitude(param);
    assert Decimal.Pow10(10) == 10000000000;
    Decimal.Pow10Monotone(10, |param| - 1);
  }

  /** After a DELETE the same id is unknown. */
  lemma DeletedIsGone(store: Store, param: string, host: Host)
    requires IdOf(param).Some? && IdOf(param).value in store
    ensures var deleted := HandleById(store, param, Delete, host).store;
            HandleById(deleted, param, Get, host).response.status == 404
  {
  }

  // ------------------------------------------------------------- sanitize

  /** Sanitizing a sanitized bookmark changes nothing, provided the filter
      leaves its own output alone and does not empty a truthy description. */
  lemma SanitizeIdempotent(row: Row, host: Host)
    requires host.xss(Str(host.xss(row.title))) == host.xss(row.title)
    requires Truthy(row.description) ==>
               host.xss(Str(host.xss(row.description))) == host.xss(row.description)
               && host.xss(row.description) != ""
    ensures Sanitize(Reread(Sanitize(row, host)), host) == Sanitize(row, host)
  {
  }

  /** Without the second proviso idempotence fails: a description the filter
      empties is emitted as "" once and dropped on the second pass. */
  lemma SanitizeDropsEmptiedDescription(row: Row, host: Host)
    requires Truthy(row.description) && host.xss(row.description) == ""
    ensures Sanitize(row, host).description == Some("")
    ensures Sanitize(Reread(Sanitize(row, host)), host).description == None
  {
  }
}
