# Bookmarks server: the accept/reject and shaping layer, in Dafny

The bookmarks server is a small Express application that stores bookmarks
(`id`, `title`, `url`, `description`, `rating`) in a Postgres table. Its only
branching logic is the layer that decides whether a bookmark is accepted and
shapes what goes back to a client:

- the POST `/bookmarks` chain: required fields, then the rating, then the
  url, the first failure answering 400 `Invalid data`, success inserting a
  record that carries the description only when it is truthy;
- the standalone `validator(bookmark)`, returning `null` or `'Invalid data'`;
- `sanitizeBookmark`, which filters `title` and `description` through `xss`
  and passes `id`, `url` and `rating` through;
- the `/bookmarks/:id` gate, which answers 404 with a fixed message for an
  unknown id before the GET or DELETE handler can run.

The model is functional. JavaScript values are a datatype `Val` (undefined,
null, booleans, strings, numbers). `Number(v)` yields a `Number` that is a
finite real, an infinity or NaN. Truthiness, `== null`, `Number.isInteger`
and `<`/`>` are written out over them (`js_values.dfy`). The code the layer
calls but does not contain is passed in as a `Host` value of arbitrary total
functions. Nothing is assumed about what they return, only that they return:
a throw inside them is not modelled. These are `xss`, `isWebUri` from
`valid-url`, and JavaScript's conversion of a non-empty string to a number.
The table is a map from id to row. The list the table returns for GET
`/bookmarks` is a parameter that must hold every stored row exactly once. The
id the table assigns on insert is a parameter that must be fresh and must fit
the `integer` id column.

Files: `optional.dfy` (Option), `js_values.dfy` (JavaScript values),
`decimal.dfy` (ids as decimal text), `bookmark_model.dfy` (entity, records,
rating scale, store invariant), `validator.dfy`, `router.dfy`,
`properties.dfy` (lemmas relating several operations).

One fact shapes the rest. Every falsy JavaScript value converts to 0 or NaN
(`JsValues.FalsyIsZeroOrNaN`). Neither of those is below 0 or above 5. So the
validator's grouping `(rating && !isInteger(n)) || n < 0 || n > 5`, which
comes from `&&` binding tighter than `||`, refuses exactly the ratings that
`rating && (!isInteger(n) || n < 0 || n > 5)` refuses
(`BookmarkValidator.GroupingUnobservable`). Either way the validator refuses
a rating exactly when it is truthy and not one of the integers 0 to 5.

## Model

| member | source | states |
|---|---|---|
| `BookmarkRouter.Sanitize` | src/bookmarks/bookmarks-router.js:10-21 | id, url and rating are the row's own. The title is always the filtered title. A description key exists iff the row's description is truthy, and then it holds the filtered description. |
| `BookmarkProperties.SanitizeIdempotent` | src/bookmarks/bookmarks-router.js:10-21 | Sanitizing a sanitized bookmark again gives the same object, provided the filter is idempotent on the title and description and does not empty a truthy description. |
| `BookmarkProperties.SanitizeDropsEmptiedDescription` | src/bookmarks/bookmarks-router.js:17-19 | When the filter turns a truthy description into "", the first pass emits `description: ""` and a second pass drops the key, so idempotence needs that proviso. |
| `BookmarkRouter.ListBookmarks` | src/bookmarks/bookmarks-router.js:25-31 | Given a listing that holds every stored row once, GET /bookmarks answers 200 with one sanitized bookmark per listed row, in the same order. The answer has as many entries as the store has rows, and every stored bookmark appears in it sanitized. |
| `BookmarkRouter.ListingCountsStore` | src/bookmarks/bookmarks-router.js:27-29 | A listing that holds every stored row once, with distinct ids, has exactly as many rows as the store. |
| `BookmarkRouter.FirstNullish` | src/bookmarks/bookmarks-router.js:37-42 | The required-field loop stops at the first entry that is null or undefined. All earlier entries are present. No stop means every entry is present. |
| `BookmarkRouter.Create` | src/bookmarks/bookmarks-router.js:33-57 | POST refuses a missing title, else a missing url, else a missing rating. Only null and undefined count as missing. Otherwise it refuses a rating that is not an integer 0..5, then a url that is not a web URI. It accepts iff all three pass. The record holds title, url and rating, plus the description exactly when it is truthy. |
| `BookmarkModel.RatingScale` | src/bookmarks/bookmarks-router.js:47-48 | "Integer, not below 0, not above 5" is exactly membership in {0,1,2,3,4,5}, so both 0 and 5 are accepted. |
| `BookmarkRouter.HandlePost` | src/bookmarks/bookmarks-router.js:33-69 | A refused body answers 400 `Invalid data` and leaves the store unchanged. An accepted body adds exactly one row under the new id and leaves the other rows untouched. It answers 201 with the Location of that id and the sanitized new row. |
| `BookmarkRouter.LocationOf` | src/bookmarks/bookmarks-router.js:66 | The Location is `/bookmarks/` followed by the canonical numeral of the id: digits only, with no leading zero, and exactly `0` for id 0. That numeral reads back as the id, and the `:id` route reads it back as the id whenever the id fits the id column. |
| `BookmarkRouter.IdOf` | src/bookmarks/bookmarks-router.js:75-78 | The model reads a `:id` segment as an id exactly when it is a non-empty run of digits whose value is at most 2147483647, the largest Postgres `integer`. The id is then that value. |
| `Decimal.ParseFormat` | src/bookmarks/bookmarks-router.js:66 | Reading back the decimal text of an id gives the id. |
| `Decimal.FormatValue` | src/bookmarks/bookmarks-router.js:66 | A numeral without leading zeros is exactly the decimal text of its value, so ids and canonical numerals correspond one to one. |
| `BookmarkRouter.HandleById` | src/bookmarks/bookmarks-router.js:72-104 | An unknown id answers 404 `{error:{message:"Bookmark doesn't exist"}}` with the store unchanged. A known id answers 200 with the sanitized row for GET. For DELETE it answers 204 with no body, and the store loses exactly that row. A segment that is not digits, or that is too large for the id column, is forwarded to the error handler. |
| `BookmarkProperties.LongSegmentForwarded` | src/bookmarks/bookmarks-router.js:74-89 | A run of eleven or more digits without a leading zero is past the id column's range, so the request is forwarded to the error handler whatever the table holds. |
| `Decimal.LeadingDigitMagnitude` | src/bookmarks/bookmarks-router.js:66 | A numeral of n digits without a leading zero stands for at least 10^(n-1). |
| `BookmarkProperties.OversizedIdForwarded` | src/bookmarks/bookmarks-router.js:74-89 | `/bookmarks/2147483648` is not answered 404. The database refuses the id and `.catch(next)` forwards the error, whatever the table holds. |
| `BookmarkProperties.GateStopsUnknownId` | src/bookmarks/bookmarks-router.js:79-85 | For an unknown id, GET and DELETE give the identical 404 with the store untouched, so neither handler ran. |
| `BookmarkProperties.DeletedIsGone` | src/bookmarks/bookmarks-router.js:94-103 | After a DELETE, a GET of the same id answers 404. |
| `BookmarkProperties.CreatedIsRetrievable` | src/bookmarks/bookmarks-router.js:62-67 | A GET of the path in the Location a POST answered with returns 200 and the same sanitized bookmark. |
| `BookmarkProperties.CreatedWithoutDescription` | src/bookmarks/bookmarks-router.js:43-45 | A bookmark posted without a truthy description is stored with NULL and answered with no description key at all. |
| `BookmarkProperties.ZeroRatingCreated` | src/bookmarks/bookmarks-router.js:37-51 | `rating: 0` is present, so it passes the required-field step, and it is on the scale, so POST accepts it. |
| `BookmarkProperties.ScaleEnds` | src/bookmarks/bookmarks-router.js:47-51 | Ratings 0 and 5 are accepted. Ratings -1, 6 and 2.5 are refused as invalid ratings. |
| `BookmarkProperties.EmptyTitleCreated` | src/bookmarks/bookmarks-router.js:37-42 | An empty-string title is not missing, so POST accepts it. |
| `BookmarkProperties.PostKeepsStoreWellFormed` | src/bookmarks/bookmarks-router.js:33-61 | Assume every row has a present title, a web-URI url, a rating 0..5 and a NULL or truthy description. Then that still holds after POST. |
| `BookmarkProperties.ByIdKeepsStoreWellFormed` | src/bookmarks/bookmarks-router.js:72-104 | GET and DELETE on an id keep every row well formed. |
| `BookmarkValidator.Check` | src/bookmarks/bookmarks-validator.js:6-20 | The rating is refused iff it is truthy and not one of 0..5. The url is refused iff the rating passed and the url is truthy and not a web URI. Otherwise nothing is refused. |
| `BookmarkValidator.Validate` | src/bookmarks/bookmarks-validator.js:4-19 | The result is either `null` or `'Invalid data'`. It is `null` iff a truthy rating is on the scale and a truthy url is a web URI. |
| `BookmarkValidator.GroupingUnobservable` | src/bookmarks/bookmarks-validator.js:8-9 | The guard as written, with `&&` binding tighter than `||`, refuses the same ratings as the guard with truthiness around all three tests. |
| `JsValues.FalsyIsZeroOrNaN` | src/bookmarks/bookmarks-validator.js:7-9 | Every falsy value, including undefined, null, false, "" and 0, converts to 0 or NaN. |
| `BookmarkValidator.FalsyRatingsPass` | src/bookmarks/bookmarks-validator.js:7-9 | A rating of 0, "", null or undefined raises no rating error. |
| `BookmarkValidator.OutOfRangeRefused` | src/bookmarks/bookmarks-validator.js:7-11 | A rating whose number is below 0 or above 5 is refused, whatever its truthiness and whatever the url. |
| `BookmarkProperties.CreateStricterThanValidator` | src/bookmarks/bookmarks-router.js:47-56 | Every body POST accepts also passes the standalone validator. |
| `BookmarkProperties.ValidatorPassesNullRating` | src/bookmarks/bookmarks-validator.js:7-9 | The converse fails: a null rating passes the validator, but POST refuses the same body, which has a title and a web-URI url, because the rating is missing. |
| `BookmarkProperties.ValidatorSkipsEmptyUrl` | src/bookmarks/bookmarks-validator.js:14 | The converse fails for urls too. The validator never checks an empty url, but POST refuses it when `isWebUri("")` is false. |

## Left out

- The internals of `xss` and of `valid-url`'s `isWebUri`: they are foreign libraries and stay arbitrary functions of the `Host`.
- `BookmarkRouter.HandlePost` and `BookmarkValidator.Validate`: the `Host` functions are assumed to return. But `valid-url`'s `isWebUri` throws a TypeError on a truthy url that is not a string, such as `5` or `true`, because it calls `match` on it. The source forwards that to `next(err)` from the POST handler (src/bookmarks/bookmarks-router.js:53), and the throw leaves `validator` (src/bookmarks/bookmarks-validator.js:14) to its caller. The model instead answers such a POST with 400 or 201, and the validator returns a verdict.
- JavaScript's conversion of a non-empty string to a number (whitespace trimming, exponents, hex, `Infinity`) is also a `Host` function. Only `Number("") == 0` is fixed.
- IEEE-754 floating point: numbers are exact reals, so rounding is ignored and -0 counts as 0.
- Objects and arrays as field values are not modelled; a JSON body's fields are strings, numbers, booleans or null here.
- Logging: the message each refusal logs is represented only by the `Complaint` that names the failed check.
- Express routing, body parsing, the bearer-token 401 middleware, `res.status/location/json` and the promise plumbing. These are framework concerns. Responses are plain values.
- `bookmarks-service.js` and the database. The table is a map from id to row. The service module defines only `getAllBookmarks` and `getBookmarkById`. It has no `insertBookmark` (called at src/bookmarks/bookmarks-router.js:58) and no `deleteBookmark` (called at line 95). As written, both calls throw a TypeError inside their handler, so an accepted POST and a DELETE of a known id end in the error handler. `BookmarkRouter.HandlePost` and `BookmarkRouter.HandleById` model the intended behaviour instead. Insert stores the record under a fresh id, at most 2147483647, with NULL for a missing description. Delete removes the row. Column type coercion and other database errors on insert or delete are not modelled.
- `BookmarkRouter.IdOf`: Postgres also reads integer text with a leading `+` or `-` or with surrounding spaces. So `/bookmarks/-1` really answers 404 and `/bookmarks/+2` answers with row 2. The model reads only plain digit runs and forwards such segments to the error handler.
- `BookmarkRouter.HandleById`: it reads the `:id` segment through `IdOf`, so it forwards signed and space-padded segments as described on the line above. A digit run past 2147483647 is forwarded as Postgres does.
- Concurrency: requests are modelled one at a time. The `/bookmarks/:id` lookup and the DELETE that follows it run as one step over one store. In the source they are two separate queries in two promise steps, and another request may delete the row in between. The source still answers 204, because it ignores the deleted-row count.
- PATCH and partial-update merging: the router has no PATCH handler, so none is modelled.

## Notes on the code as written

- `bookmarks-service.js` defines neither `insertBookmark` nor
  `deleteBookmark`. So as written, a POST that passes every check and a
  DELETE of a known id both throw inside the handler and reach the error
  handler instead of answering 201 or 204. The model describes the insert
  and delete the router evidently intends.

- The router does not call `validator`; it has its own checks, and those are
  stricter (`CreateStricterThanValidator`, with two counterexamples to the
  converse).
- The code treats only `null` and `undefined` as missing. So an empty title,
  or a rating of `false` (which `Number` turns into 0), passes the POST
  checks. A description of "" or 0 is silently dropped.
