# Bookmarks router — a Dafny model

This project models the bookmarks router of a small bookmarks HTTP API
(`src/bookmark/bookmark-router.js`). The router does three things:

- **POST /bookmarks** runs an ordered chain of checks on the JSON body.
  - Presence comes first. `title`, `url` and `rating` are checked in that order, and presence means JavaScript truthiness.
  - Then `rating` must be an integer in [0, 5].
  - Then `url` must pass valid-url's `isWebUri`.
  - The first failing check decides the 400 text.
  - An accepted request pushes a new record, with an id minted by `uuid()`, onto the shared in-memory `store.bookmarks` array. It then answers 201 with a `Location` header and the serialized record.
- **`serializeBookmark`** builds the client view of a record.
  - `id` and `url` pass through unchanged.
  - `title` and `description` go through the `xss` sanitiser.
  - `rating` goes through `Number`.
- **GET /bookmarks** answers with every stored record serialized, in order. **GET /bookmarks/:id** answers 404 with `{error: {message: "Bookmark not found"}}` when no record has the id. Otherwise it answers with the serialized record.

The model has two modules:

- `JsValues` (`js_values.dfy`) holds the JavaScript semantics the handlers rely on. It covers the values a parsed JSON body can carry, `body[field]` (absent fields read as `undefined`), truthiness, and `Number.isInteger`. A number holds the value of the parsed double as a `real`, so `0`, `-0`, `2.5` and `"3"` behave as they do in JavaScript. The `Infinity` that an overflowing literal parses to is not represented.
- `BookmarkRouter` (`bookmark_router.dfy`) holds the handlers.
  - Each handler result is a `Response`: a status, a body and an optional location.
  - The library calls `isWebUri` and `xss` are function-valued parameters. They stay uninterpreted, so the model assumes nothing about what the libraries do inside.
  - The id that `uuid()` mints is a parameter of the POST handler. Its freshness is an assumption, and only the guarantee that ids stay unique depends on it.
  - The shared store is a class, `Store`, whose `bookmarks` field is reassigned by the POST handler.
  - The validation loop is the method `CheckCreate`. It is proved equal to the reference decision `CreateRejection`, and the properties of the handler are lemmas about that function.

Two points of the code are easy to misread:

- A `rating` of `0` is falsy, so the presence check at src/bookmark/bookmark-router.js:35 rejects it as `'rating' is required`. The range message at line 44 says "between 0 and 5", but the accepted ratings are 1..5.
- The URL error text at line 49 is `'url' must be a valid URL`, with "URL" in upper case. test/bookmarks-endpoints.spec.js:206 expects lower case. The model follows the code.

POST appends to the in-memory `store.bookmarks`. The two GET handlers read the database through `BookmarksService`. The model keeps the two collections apart: the GET functions take the database's records as a sequence argument. `AppendedIdFound` states what a lookup over the store's own sequence gives after a create, and `ListingAppend` what a listing of it gives. They are not round trips through the GET handlers, which read the database.

## Model

| member | source | states |
|---|---|---|
| `JsValues.Field` | src/bookmark/bookmark-router.js:35 | `req.body[field]` is the body's value when the field is present and `undefined` when it is absent |
| `JsValues.Truthy` | src/bookmark/bookmark-router.js:35 | `!value` holds exactly for `undefined`, `null`, `false`, `0` (and `-0`) and `""`; arrays, objects, non-empty strings and non-zero numbers are present |
| `JsValues.IntegerNumbers` | src/bookmark/bookmark-router.js:42 | `Number.isInteger` accepts every integer-valued number and refuses every number strictly between two consecutive integers and every non-number |
| `BookmarkRouter.Serialize` | src/bookmark/bookmark-router.js:14-20 | `serializeBookmark` is a field-by-field mapping: id, url and rating are unchanged, title and description are the sanitiser's output on them |
| `BookmarkRouter.SerializeAgreement` | src/bookmark/bookmark-router.js:14-20 | two records serialize alike iff they agree on id, url and rating and `xss` maps their titles and their descriptions alike, so title and description reach the output only through `xss` |
| `BookmarkRouter.Listing` | src/bookmark/bookmark-router.js:29 | `bookmarks.map(serializeBookmark)` has the same length as the records, and element i is record i serialized |
| `BookmarkRouter.ListingAppend` | src/bookmark/bookmark-router.js:29 | listing records plus one more at the end, as an accepted POST leaves the store's sequence, equals the earlier listing followed by the new record serialized |
| `BookmarkRouter.ListBookmarks` | src/bookmark/bookmark-router.js:26-32 | GET /bookmarks answers 200 with one element per stored record, in order, and element i is record i serialized |
| `BookmarkRouter.IndexOf` | src/bookmark/bookmark-router.js:67-69 | the lookup by id finds nothing iff no record has the id; otherwise it gives the first position holding that id |
| `BookmarkRouter.GetBookmark` | src/bookmark/bookmark-router.js:65-85 | GET /bookmarks/:id answers 404 with message "Bookmark not found" iff no record has the id; otherwise it answers 200 with the serialized form of a record that has the id |
| `BookmarkRouter.GetStored` | src/bookmark/bookmark-router.js:67-85 | when ids are unique, GET by a stored record's id answers 200 with exactly that record serialized |
| `BookmarkRouter.Message` | src/bookmark/bookmark-router.js:37-49 | every 400 text of the POST handler opens with the quoted name of the field it is about |
| `BookmarkRouter.RatingInRange` | src/bookmark/bookmark-router.js:42 | `Number.isInteger(rating)` with `0 <= rating <= 5` holds exactly for the numbers 0, 1, 2, 3, 4, 5 |
| `BookmarkRouter.CreateRejection` | src/bookmark/bookmark-router.js:34-50 | the POST decision: a missing-field rejection names one of `title`, `url`, `rating` and that field is falsy; acceptance means all three are truthy, the rating is an integer in [0, 5] and `isWebUri` accepts the url |
| `BookmarkRouter.CheckCreate` | src/bookmark/bookmark-router.js:34-50 | the handler's loop over `title`, `url`, `rating` with early returns, then the rating check, then the url check, gives exactly the reference decision `CreateRejection` |
| `BookmarkRouter.NewBookmark` | src/bookmark/bookmark-router.js:40-52 | the created record carries the given id and the request's title, url, description and rating, and the rating is an integer in [0, 5] |
| `BookmarkRouter.CreateBookmark` | src/bookmark/bookmark-router.js:33-61 | a rejected POST answers 400 with the first failing check's message and leaves the store unchanged; an accepted POST appends exactly the new record after all earlier ones and answers 201 with location `http://localhost:8000/bookmarks/<id>` and the serialized record; a fresh id keeps ids unique |
| `BookmarkRouter.PresenceOrder` | src/bookmark/bookmark-router.js:34-38 | field k of `title`, `url`, `rating` is reported as `'<field>' is required` iff it is falsy and every field before it is truthy |
| `BookmarkRouter.ZeroRatingReportedMissing` | src/bookmark/bookmark-router.js:35-37 | with title and url present, a rating of 0 is reported as `'rating' is required`, not as out of range |
| `BookmarkRouter.RatingCheckedBeforeUrl` | src/bookmark/bookmark-router.js:42-45 | once all three fields are present, the rating error is given iff the rating is not an integer in [0, 5], whatever the url |
| `BookmarkRouter.UrlCheckedLast` | src/bookmark/bookmark-router.js:47-50 | the url error is given iff all fields are present, the rating passed, and `isWebUri` refuses the url |
| `BookmarkRouter.AcceptedRequests` | src/bookmark/bookmark-router.js:34-50 | a POST is accepted iff title and url are truthy, `isWebUri` accepts the url, and the rating is one of the numbers 1, 2, 3, 4, 5 |
| `BookmarkRouter.MessagesDistinct` | src/bookmark/bookmark-router.js:37-49 | two rejections give the same 400 text iff they are the same rejection |
| `BookmarkRouter.AppendedIdFound` | src/bookmark/bookmark-router.js:52-54 | over the store's own sequence: after an accepted POST with a fresh id, a lookup of that id in the appended sequence answers 200 with the new record serialized |

## Left out

- Express routing and HTTP plumbing (`express.Router`, `bodyParser`, `res.status/.json/.location/.send`, `next`). Handler results are `Response` values instead.
- Storage failures passed to `next`. The database service is not part of this model, so the GET functions cannot fail.
- `BookmarksService` is not part of this model. Its `getAllBookmarks` is a sequence argument. Its `getById` is modelled as `IndexOf`, which returns the first record with the id.
- The DELETE handler (lines 87-100). It would answer 204 regardless of the affected-row count. But the handler takes no `next` parameter, and `.catch(next)` at line 99 names an unbound `next`. So as written it throws a ReferenceError right after starting the delete, and the response comes from an error handler that is not part of this model. Its 404 on an unknown id comes from the same lookup that `GetBookmark` models.
- The PATCH handler (lines 102-131). As written it reads the undefined `articleToUpdate` and throws at line 106. It also passes the undefined `req.params.article_id`, and it calls `getBookmarkValidationError`, which is not part of this model.
- The internals of `uuid`, valid-url's `isWebUri` and `xss`. These are foreign libraries. The first is a fresh-id parameter and the other two are uninterpreted function parameters.
- Logging through `logger.error` and `logger.info`. It is a side channel with no behaviour.
- BookmarkRouter.Serialize: `Number(bookmark.rating)` is applied to ratings that are already integers. Number coercion of strings and other values is JavaScript semantics and is not modelled.
- BookmarkRouter.CreateBookmark: the in-place `push` is modelled as reassigning a `seq` field of the shared `Store` object. Aliasing of the array by other holders is not modelled.
