# Published-image feed: a Dafny model

This project models the server side of a small image-sharing app.
Users publish generated images to a shared feed. Anyone can page through the
feed, newest first, and give an image "hearts". Three route handlers do this
work over one table of published images:

- `GET /api/feed?page=&limit=` (app/api/feed/route.js): parses and defaults the
  query. It rejects negative values, caps the page size at 50, computes the
  offset, and returns one page of records with `total`, `page` and `totalPages`.
- `PUT /api/feed` with body `{id, hearts}` (app/api/feed/route.js): runs four
  validations in a fixed order, then an existence check (404). It then replaces
  the `hearts` of that one record and returns the updated record.
- `POST /api/publish` with body `{imageUrl, prompt}` (app/api/publish/route.js):
  runs four validations in a fixed order, then creates one record with the
  trimmed fields and answers 201.

Files:

- `wrappers.dfy`: `Option` and `Result`.
- `text.dfy`: JavaScript's `String.prototype.trim`. It strips exactly the
  ECMAScript WhiteSpace and LineTerminator characters.
- `store.dfy`: the `Image` record and the table class `ImageStore`.
  - The class offers `Create`, `Count`, `FindUnique`, `FindMany` and `Update`.
  - The records are kept in insertion order.
  - `createdAt` is a logical clock, so "ordered by createdAt descending" is the
    reversed sequence (`Newest`).
  - Spec functions over sequences: `Window` (skip/take), `Lookup` and
    `SetHearts`.
  - `Ordered` is the table's own invariant. Ids are positive, strictly
    increasing and never reused; creation times strictly increase.
  - `WellFormed` is the record invariant the handlers maintain: hearts are
    non-negative, the URL is non-empty, and both text fields are trimmed.
- `http.dfy`: the JSON values a request body can carry, JavaScript truthiness,
  and the response shape.
- `feed.dfy`: the GET and PUT handlers.
  - `FeedQuery` and `TotalPages` are the pure arithmetic; `Get` is the handler.
  - `ValidatePut` is the validation chain. `PutEffect` is the PUT transition
    as a function. `Put` is the handler, proved equal to `PutEffect`.
- `publish.dfy`: `ValidatePublish` is the validation chain plus trimming;
  `Post` is the handler.

Inputs the handlers get from the outside world are parameters:

- `parseInt` results are `Option<int>`, where `None` stands for NaN.
- A request body that cannot be read as a JSON object is `None`.
- A table that cannot be reached is the flag `storeFails`, which yields the
  route's fixed 500 message.

The error text "page must be a positive integer" (and its limit twin)
suggests that a missing or zero value is rejected. The model follows what the
code does:

- A missing, unparsable or zero `page` (or `limit`) is not rejected with 400.
  `parseInt(x) || 1` (and `|| 10`) turns it into the default.
- Only negative values are rejected (`FeedQuery`). The `isNaN` tests after
  the defaulting can never fire.
- A whitespace-only `prompt` is accepted and stored as `""`
  (`BlankPromptStoredEmpty`).

## Model

| member | source | states |
|---|---|---|
| `Text.LeadingSpace` | app/api/publish/route.js:40-41 | counts the leading whitespace: all of it is whitespace and the next character is not |
| `Text.TrailingSpace` | app/api/publish/route.js:40-41 | counts the trailing whitespace: all of it is whitespace and the character before it is not |
| `Text.Trim` | app/api/publish/route.js:23 | trim keeps a contiguous middle part of the string and removes only whitespace around it; the result is empty exactly when the string is all whitespace, and otherwise starts and ends with a non-whitespace character |
| `Text.TrimIdempotent` | app/api/publish/route.js:40-41 | a trimmed value is already trimmed: trimming it again changes nothing |
| `Store.Newest` | app/api/feed/route.js:34 | the feed order (createdAt descending) lists the k-th newest record at position k |
| `Store.Lookup` | app/api/feed/route.js:93-95 | a found record has the requested id and is in the table; nothing is found exactly when no record has that id |
| `Store.LookupFindsIndex` | app/api/feed/route.js:93-95 | with increasing (unique) ids, looking up a stored record's id returns that record |
| `Store.SetHearts` | app/api/feed/route.js:105-108 | the update frame: a record with the target id gets the new hearts and keeps every other field; all other records are unchanged; the length is unchanged |
| `Store.LookupAfterSetHearts` | app/api/feed/route.js:105-110 | after the update, looking up the id finds the old record with only its hearts replaced |
| `Store.SetHeartsIdempotent` | app/api/feed/route.js:105-108 | replacing hearts with the same value twice equals doing it once |
| `Store.SetHeartsKeepsWellFormed` | app/api/feed/route.js:85-108 | a non-negative replacement keeps every record well formed (hearts never negative) |
| `Store.AppendKeepsOrdered` | app/api/publish/route.js:38-43 | a record created with the next id and the current clock keeps ids and creation times strictly increasing and below the counters |
| `Store.NewestAppend` | app/api/publish/route.js:38-43 | a newly created record comes first in feed order, followed by all older records in their previous order |
| `Store.AppendKeepsWellFormed` | app/api/publish/route.js:38-43 | appending a well-formed record keeps the whole table well formed |
| `Store.SetHeartsKeepsOrdered` | app/api/feed/route.js:105-108 | a hearts update changes no id and no creation time, so the table's ordering guarantees still hold |
| `Store.SetHeartsAbsent` | app/api/feed/route.js:105-108 | updating the hearts of an id no record has leaves the table unchanged |
| `Store.ImageStore.Count` | app/api/feed/route.js:36 | the count is the length of the complete feed; one page of that size from offset 0 lists the whole feed |
| `Store.ImageStore.FindUnique` | app/api/feed/route.js:93-95 | None exactly when no stored record has the id; otherwise a stored record with that id |
| `Store.ImageStore.FindMany` | app/api/feed/route.js:31-35 | returns min(take, n - skip) records (none when skip is past the end); the k-th is the (skip+k)-th newest; createdAt strictly decreases along the page |
| `Store.ImageStore.Create` | app/api/publish/route.js:38-43 | appends exactly one record with the next id, zero hearts and the latest creation time; it becomes the first record of the feed; table invariants kept |
| `Store.ImageStore.Update` | app/api/feed/route.js:105-108 | the table becomes SetHearts of the old one; it returns the old record with only its hearts replaced, or None with nothing changed when the id is absent |
| `FeedRoute.FeedQuery` | app/api/feed/route.js:6-27 | page error exactly when the parsed page is negative; limit error exactly when the page is fine and the parsed limit is negative; otherwise page >= 1, limit = min(defaulted limit, 50) in 1..50, and skip = (page-1)*limit |
| `FeedRoute.FeedDefaults` | app/api/feed/route.js:6-7 | missing, NaN or zero page and limit give page 1, limit 10, offset 0, with no rejection |
| `FeedRoute.TotalPages` | app/api/feed/route.js:39 | the ceiling of total/limit: the least r with r*limit >= total; 0 exactly when total is 0 |
| `FeedRoute.PastTheEnd` | app/api/feed/route.js:27-39 | a page is empty exactly when its number exceeds totalPages (past-the-end pages are empty, not errors) |
| `FeedRoute.TwentyFiveRecords` | app/api/feed/route.js:27-39 | 25 records in pages of 10: totalPages is 3, page 1 has 10 records, page 3 has 5, page 4 is empty |
| `FeedRoute.Get` | app/api/feed/route.js:3-55 | a rejected query gives 400 with its message and reads nothing; a store failure gives 500 "Failed to fetch feed"; otherwise 200 with the FindMany page, total = record count, the defaulted page, and totalPages; the page is empty iff page > totalPages; at most min(limit, 50) images |
| `FeedRoute.ValidatePut` | app/api/feed/route.js:64-90 | first failing check wins: missing id, then missing hearts, then a non-positive or non-number id, then a negative or non-number hearts; accepted exactly when id is a number >= 1 and hearts a number >= 0 |
| `FeedRoute.PutEffect` | app/api/feed/route.js:58-120 | every non-200 outcome leaves the table unchanged; 400 carries the validation message; a valid id that is absent gives 404 "Image not found"; an unreadable body, or a store failure after validation, gives 500 "Failed to update hearts"; 200 exactly when valid and present; then the table is SetHearts and the returned record is what a lookup of the id now finds, with the requested hearts |
| `FeedRoute.PutIdempotent` | app/api/feed/route.js:105-110 | repeating the same PUT gives the same response and the same table |
| `FeedRoute.PutKeepsWellFormed` | app/api/feed/route.js:85-108 | PUT never makes a hearts count negative |
| `FeedRoute.Put` | app/api/feed/route.js:58-120 | the handler's response and new table are exactly PutEffect of the old table; ids and clock unchanged |
| `PublishRoute.ValidatePublish` | app/api/publish/route.js:9-41 | first failing check wins: falsy imageUrl, falsy prompt, non-string or blank imageUrl, non-string prompt; accepted exactly when imageUrl is a string with a non-whitespace character and prompt a non-empty string; the draft holds the trimmed fields, a non-empty URL, and is well formed |
| `PublishRoute.BlankPromptStoredEmpty` | app/api/publish/route.js:16-41 | a whitespace-only prompt passes the required check and is stored as the empty string |
| `PublishRoute.Post` | app/api/publish/route.js:3-55 | a rejected, unreadable or failed request leaves the table unchanged; validation errors give 400 with their message; success appends exactly one record with the trimmed fields, zero hearts and a fresh id, returns it with 201, and puts it first in the feed; well-formedness preserved |

Helpers without a row: `FeedRoute.OrDefault` (the `|| fallback` of
`parseInt`), `Store.Window` (the `skip`/`take` slice of a query), `Http.Truthy`, `Http.Error`, `Store.Min`, `FeedRoute.MulMonotone`,
`Text.TrimBounds` (a step of the proof of `Text.Trim`), and the `ImageStore`
constructor (an empty table).

## Left out

- Concurrency. GET issues `findMany` and `count` through `Promise.all`. The
  model does the two reads one after the other against one table state, so
  page drift from concurrent publishes is not modelled. Racing hearts clicks
  (the client sends `currentHearts + 1`) are not modelled either.
- `FeedRoute.ValidatePut`: JSON numbers are integers in the model. JavaScript's
  `typeof x === 'number'` also accepts fractional values such as 1.5, which this
  contract does not cover.
- `FeedRoute.FeedQuery`: `parseInt` itself (prefix parsing such as "2abc" → 2) is
  not modelled; its result is an input.
- `FeedRoute.ValidatePut` and `FeedRoute.PutEffect`: integers are unbounded, so
  the limits of JavaScript numbers and of the database's integer columns are
  not modelled. An `id` or `hearts` beyond the column's range (hearts 3e9, say)
  makes the database call throw, and the route answers 500. The model answers
  404 or 200 instead. The same holds for a huge `page` or `limit` in
  `FeedRoute.FeedQuery` and `FeedRoute.Get`.
- `Store.ImageStore.Create`: `createdAt` is a strictly increasing logical clock,
  not a wall-clock timestamp. Ties between equal timestamps, whose order the
  database leaves unspecified, cannot occur in the model.
- Failures: one flag stands for "the table cannot be reached", and an
  unreadable body is `None`. Both give the route's fixed 500 message. Which
  call fails, and the error logging, are not modelled.
- `Store.ImageStore.Update` also returns None for an absent id, where the
  database would throw. PUT checks existence first, so that path is not
  reachable in the sequential model.
- A body that parses to a JSON value other than an object is passed in as
  `Some` with `Undefined` properties. A `null` body makes the destructuring
  throw, so it is passed in as `None`.
- Response serialisation: `Response.json` and the JSON encoding of records
  are not modelled.
- The route files `require` a configuration module that exports only a
  database adapter, not a client (app/api/feed/route.js:1,
  prisma/config.js:11). This connection wiring is not part of this model.
  Neither are the React pages, the seed script and the setup script.
- Strings are sequences of Unicode scalar values, not UTF-16 code units.
