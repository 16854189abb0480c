# tours-api request shaping, in Dafny

This project models the request-shaping rules of the tours API, an
Express/Mongoose service, and proves properties of them. It covers:

- **Tour listing** (`controllers/tourController.js`):
  - `aliasTopTours` overwrites three query parameters in place.
  - `getAllTours` copies the query string and deletes the reserved
    parameters `page`, `sort`, `limit` and `fields`.
  - It rewrites the whole words `gte`, `gt`, `lte` and `lt` to their `$`
    operators with `\b(gte|gt|lte|lt)\b`.
  - It turns comma lists into space lists for sorting and projection, with
    the defaults `-createdAt` and `-__v`.
  - It computes `skip = (page - 1) * limit`, with `page` defaulting to 1
    and `limit` to 100.
  - It fails with `This page does not exist` when an explicit page lies
    beyond the count of tours.
  - It reports `Showing N tours on this page`.
- **Self-service users** (`controllers/userController.js`):
  - the field whitelist `filterObj`;
  - `updateMe`, which refuses password changes and forwards only `name`
    and `email`;
  - the soft delete `deleteMe`;
  - the three handlers that are not written yet.
- **Reviews** (`controllers/reviewController.js`):
  - `setTourUserId` fills in the tour and the author of a review in place.
  - `getAllReviews` lists the reviews of one tour or of all tours, with
    their count.
- **The end of the middleware chain** (`app.js`):
  - the catch-all 404 error;
  - the error handler, which fills in a missing status code and status
    and answers `{status, message}`.

Modules:

- `Js` covers the JavaScript semantics the handlers lean on:
  - truthiness;
  - `s * 1`;
  - `split`/`join`;
  - rendering a count in a template literal.
- `Http` holds the request, the response and the outcome of a store call.
- `OperatorRewrite` holds the regular-expression rewrite. It has two
  definitions:
  - `Replace` follows the engine: position by position, the word-boundary
    test, the alternatives in pattern order, and resuming after a match.
  - `Prefixed` is an independent reading by maximal runs of word
    characters.
  - The two are proved equal.
- `TourController`, `UserController`, `ReviewController` and `App` follow
  the source files.

What mutates is modelled as mutation:

- `Request` is a class. `AliasTopTours` and `SetTourUserId` reassign its
  fields under `modifies`.
- The `forEach` loops of `getAllTours` and `filterObj` are `while` loops
  with invariants.
- `HandleError` completes an `ErrorObject` in place.

Each method is tied to a pure function (`BuildQuery`, `Filtered`,
`DefaultTourUser`, `Envelope`), and the properties are proved about those
functions.

The store is never run:

- `Tour.countDocuments()` and `findByIdAndUpdate` are inputs, given as the
  `Outcome` they resolve to.
- Running a built query and `Review.find(filter)` are function parameters
  from the query to its `Outcome`.

The page check compares `skip` with `Tour.countDocuments()` without a
filter: the count of all tours, not of the tours the filter matches
(controllers/tourController.js:110). `GetAllTours` compares with that
unfiltered count. A filter that matches nothing therefore still
returns an empty page 1 with `Showing 0 tours on this page` whenever the
collection is not empty.

## Model

| member | source | states |
|---|---|---|
| Js.ToNumber | controllers/tourController.js:105-106 | `s * 1` on a query string: a string of digits reads as its decimal value, a negative result needs a leading `-`, and a non-empty string that reads as a number holds a digit |
| Js.NatToStringRoundTrip | controllers/tourController.js:125 | the count written into the message by `${tourCount}` reads back as the same count |
| Js.JoinSplitReplaces | controllers/tourController.js:60 | `split(',').join(' ')` keeps the length and replaces each comma by a space, leaving every other character as it was |
| Js.SplitJoin | controllers/tourController.js:60 | the split/join result equals the character-by-character replacement `ReplaceChar` |
| OperatorRewrite.ReplaceIsPrefixed | controllers/tourController.js:41 | the engine's left-to-right global replace with `\b(gte\|gt\|lte\|lt)\b` equals prefixing `$` to exactly those maximal word runs that are an operator name |
| OperatorRewrite.InsideWord | controllers/tourController.js:41 | inside a run of word characters no `\b` holds, so the engine copies the rest of the run unchanged |
| OperatorRewrite.ReplaceOfWord | controllers/tourController.js:41 | a single word becomes `$` + word exactly when it is `gte`, `gt`, `lte` or `lt`, and is unchanged otherwise |
| OperatorRewrite.ReplaceExamples | controllers/tourController.js:41 | `gte` becomes `$gte`; `gt` is not matched inside `agte` |
| OperatorRewrite.UnprefixedPrefixed | controllers/tourController.js:41 | removing the `$` before each operator run undoes the rewrite |
| OperatorRewrite.ReplaceUndone | controllers/tourController.js:41 | `Unprefixed` undoes the rewrite as the engine runs it |
| OperatorRewrite.ReplaceInjective | controllers/tourController.js:39-41 | two different strings are never rewritten to the same string, so two parameters never merge into one filter key |
| OperatorRewrite.PrefixedAroundNonWord | controllers/tourController.js:39-41 | the rewrite acts separately on the two sides of any non-word character (quote, colon, comma, brace) |
| OperatorRewrite.ReplaceStringify | controllers/tourController.js:39-41 | rewriting the serialised flat filter object equals serialising the object with each key and each value rewritten |
| OperatorRewrite.ReplaceBracketed | controllers/tourController.js:39-41 | rewriting the serialised bracket form `{"field":{"op":"value"}}` rewrites the field, the operator and the value each on its own |
| OperatorRewrite.BracketedOperator | controllers/tourController.js:39-41 | for `?price[gte]=500` style queries with plain-word field and value, only the operator gains its `$` |
| TourController.StripReserved | controllers/tourController.js:30-35 | the copy keeps exactly the keys that are not `page`, `sort`, `limit` or `fields`, each with its value; the request's own query is a value and is not changed |
| TourController.RewriteFilter | controllers/tourController.js:39-49 | every filter key and value is rewritten, and each key of the result comes back to one key of the input through `Unprefixed` |
| TourController.FilterOfQuery | controllers/tourController.js:30-49 | the built filter has one entry per non-reserved parameter, key and value rewritten, and no key whose original is reserved or absent |
| TourController.RewrittenLists | controllers/tourController.js:39-49 | rewriting each listed entry of a map lists the rewritten map, with keys still distinct |
| TourController.SerialisedFilter | controllers/tourController.js:39-49 | the rewrite of the serialised query object is the serialisation of the filter the model builds |
| TourController.CommaList | controllers/tourController.js:53-101 | a non-empty `sort` or `fields` reaches the store with every comma turned into a space, same length and no comma left; an absent or empty one gives its default (`-createdAt` for `sort`, `-__v` for `fields`) |
| TourController.TranslateQuery | controllers/tourController.js:29-108 | the step-by-step construction yields `BuildQuery` of the query string |
| TourController.GetAllTours | controllers/tourController.js:27-136 | with `page` given, a failed count or `skip >= count` fails 404 (`This page does not exist`); otherwise a failed query fails 404 with its message, and a successful one answers 200 with the tours and the message naming their number; without `page` no count is consulted |
| TourController.AliasTopTours | controllers/tourController.js:5-25 | the request's query becomes the preset: `limit` 5, `sort` `-ratingsAverage,price`, `fields` the five names, nothing else changed |
| TourController.PresetKeepsOthers | controllers/tourController.js:9-19 | every parameter other than `limit`, `sort` and `fields` is left as the client sent it |
| TourController.PresetPaging | controllers/tourController.js:5-25 | after the preset the limit reads as 5, the page is the client's, and `skip` is `(page - 1) * 5` |
| TourController.PresetFilter | controllers/tourController.js:5-35 | the preset changes only reserved parameters, so the filter is the client's |
| TourController.PresetSort | controllers/tourController.js:14-60 | the preset sort translates to `-ratingsAverage price` |
| TourController.TopToursTranslation | controllers/tourController.js:5-108 | whatever the client sent, the preset query sorts by `-ratingsAverage price`, limits to 5, keeps the client's page and filter |
| TourController.RequestedPage | controllers/tourController.js:105-107 | a page written in decimal, up to 2^53 - 1, is the page used, and `skip` is `(page - 1) * limit` |
| TourController.DefaultPaging | controllers/tourController.js:105-107 | `page` and `limit` that are absent, empty, written as zero or a lower-case word (NaN) give page 1, limit 100 and `skip` 0 |
| TourController.LowerWordNotANumber | controllers/tourController.js:105-106 | `s * 1` on a word of lower-case letters is NaN |
| TourController.NumberOrPositive | controllers/tourController.js:105-106 | a parameter written in decimal digits reads as at least 1 when its default is positive, since `0` is falsy and falls back to the default |
| TourController.EmptyCollectionHasNoPage | controllers/tourController.js:105-114 | when `page` and a given `limit` are written in decimal digits, `skip >= 0`, so an explicit page on an empty collection fails |
| TourController.NegativePagePassesCheck | controllers/tourController.js:105-114 | `?page=-1` gives `skip` -200, which passes the check even on an empty collection |
| TourController.MessageReportsCount | controllers/tourController.js:118-128 | the message is `Showing ` followed by digits that read back as exactly the number of tours returned |
| UserController.FilterObj | controllers/userController.js:6-16 | the new object holds exactly the keys of the input that are in the allowed list, each with the input's value; the input is a value and is not changed |
| UserController.FilteredIdempotent | controllers/userController.js:6-16 | filtering an already filtered object with the same list changes nothing |
| UserController.FilteredSubMap | controllers/userController.js:6-16 | the filtered object is a sub-map of the input that keeps every allowed entry |
| UserController.UpdateMe | controllers/userController.js:19-57 | a truthy `password` or `passwordConfirm` forwards `AppError(message, 400)` and issues no update; without a user it fails 500 with the `TypeError` message; otherwise it issues an update whose payload holds only `name`/`email` from the body and answers 200 or 500 |
| UserController.DeleteMe | controllers/userController.js:59-71 | the only update is `{isActive: false}` for the current user; success answers 204 `success` with no data, failure 500 `fail` |
| UserController.DeleteIsSoft | controllers/userController.js:61 | the update writes a single field, `isActive`, and sets it to a falsy value, keeping the user |
| UserController.GetUser | controllers/userController.js:91-96 | always 500, status `error`, `This route is not yet defined!` |
| UserController.CreateUser | controllers/userController.js:97-102 | always 500, status `error`, `This route is not yet defined!` |
| UserController.UpdateUser | controllers/userController.js:103-108 | always 500, status `error`, the message as written (`defineddddd`) |
| ReviewController.DefaultTourUser | controllers/reviewController.js:8-14 | a truthy `tour`/`user` is kept, a falsy one is set from `params.tourId`/the user's id; a missing user with a falsy `user` throws after `tour` is set; no other body field changes |
| ReviewController.SetTourUserId | controllers/reviewController.js:8-14 | the body is updated in place exactly as `DefaultTourUser` says, and `next` is called once, with the thrown error if any |
| ReviewController.DefaultTourUserIdempotent | controllers/reviewController.js:10-12 | running the defaulting again on a body it completed changes nothing |
| ReviewController.GetAllReviews | controllers/reviewController.js:52-76 | the filter is `{tour: tourId}` when `tourId` is truthy and `{}` otherwise; success answers 200 with `count` equal to the number of reviews; failure 500 `fail` with the message |
| App.ErrorObject.constructor | app.js:28 | a new error carries its message and no status or status code |
| App.CatchAll | app.js:27-32 | a fresh error with message `Can't find <url> on this server!`, status `fail`, status code 404 |
| App.CodeOrDefault | app.js:36 | an unset or zero status code becomes 500; any other is kept |
| App.StatusOrDefault | app.js:37 | an unset or empty status becomes `error`; any other is kept |
| App.HandleError | app.js:35-43 | completes the error in place, then answers with its status code and a body of exactly `status` and `message` |
| App.NotFoundEnvelope | app.js:27-43 | an unmatched URL is answered 404 `fail` with the message naming it |
| App.EnvelopeIdempotent | app.js:36-37 | handling an already completed error again gives the same answer |
| App.BareErrorEnvelope | app.js:35-43 | an error with neither code nor status reaches the client as 500 `error` |

## Left out

- Store calls (`find`, `countDocuments`, `findByIdAndUpdate`) are not
  modelled. Their results are inputs of the model.
- Operations outside the core are not modelled. These are `getTour`,
  `createTour`, `updateTour`, `deleteTour`, the aggregation pipelines
  `getTourStats` and `getMonthlyPlan`, `getAllUsers`, and the factory
  handlers. The aggregations are floating point and dates evaluated by
  MongoDB.
- Query values are strings, so nested query objects and repeated keys
  (arrays) are not in the query map. The rewrite on the serialised bracket
  form is covered by `OperatorRewrite.ReplaceBracketed`.
- `JSON.stringify` is modelled only for flat objects of strings that need
  no escaping. A `"`, a `\` or a control character in a key or value is
  not modelled.
- `JSON.parse` is not modelled. `TourController.SerialisedFilter` relates
  the rewritten string to the built filter instead.
- The map does not keep insertion order, so `Lists` allows any order of
  entries.
- Js.ToNumber: only the decimal integer forms are read. Surrounding
  whitespace, fractions, exponents, hexadecimal, binary (`0b`), octal
  (`0o`) and `Infinity` are read as not a number, where JavaScript would
  read a number. So `?page=0.5`, which JavaScript reads as 0.5 (skip -50,
  past the page check like `?page=-1`), and `?page=%20-1`, read as -1,
  fall back to page 1 in the model. The paging lemmas are stated only for
  decimal digits and lower-case words, where the two agree.
- Js.ToNumber: numbers are exact integers. JavaScript numbers are doubles,
  so a decimal string above 2^53 - 1 is rounded (`"9007199254740993" * 1`
  is 9007199254740992); the model keeps the exact value.
- TourController.RequestedPage: `skip` is the exact product
  `(page - 1) * limit`. JavaScript rounds that product to a double once it
  exceeds 2^53 - 1; the lemma bounds the page but not the product.
- What the store does with a negative or fractional `skip` or `limit` is
  not modelled.
- `console.log` calls are not modelled.
- The error handler's `res.status` with a status code Node rejects is not
  modelled.
- `utils/appError` is not part of this model. `AppError` keeps only the
  message and status code it is given, and the `status` it sets is not
  modelled.
- `req.user._id` and `req.user.id` are modelled as one string id.
- Express passes an error thrown synchronously in `setTourUserId` to
  `next`. `SetTourUserId` returns that error rather than modelling
  Express.
- Routing and middleware wiring are not modelled. For example,
  `routes/reviewRoutes.js` does not merge parent parameters.
- Schemas, validation and authentication are not modelled.
- `Object.keys` order in `filterObj` is not modelled. The result does not
  depend on it.
- TourController.TopToursTranslation does not state the preset's
  projection string. Evaluating that long literal is beyond the solver
  budget. `CommaList` states the rule it follows.
