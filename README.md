# Redirect events and user routes of onepixel_backend, modelled in Dafny

This project models two parts of the onepixel URL-shortener backend.

- **The events controller** (`src/controllers/events.go`).
  - It builds a redirect event record from the data a redirect supplies.
  - It enriches the record with the GeoIP country, region and city, and inserts it into the event store.
  - For per-user reports it (re)creates a per-user database view named `<table>_<userId>` whose query is `creator_id = userId`.
  - It then runs a `count(id) ... group by short_url` query over that view and collects the rows.
- **The users routes** (`src/routes/api/users.go`).
  - The route table under `/api/v1/users`, and which routes pass through the authentication middleware.
  - The status decision of `registerUser`.
  - The three stub handlers.

Modules:

- `DecimalText` (`decimal.dfy`): the decimal rendering `fmt.Sprint` gives a `uint64`, and its inverse.
- `EventRecords` (`event_records.dfy`): the input data and the event record, the GeoIP city record, and the "name (ISO)" label with its inverse. It also holds the two record-building methods: one as the source writes it, one with the subdivision index guarded.
- `RedirectCounts` (`redirect_counts.dfy`): what the grouped count query means over a sequence of events: filter by creator, group by short URL, count. It proves the lemmas about that meaning.
- `EventsController` (`events_controller.dfy`): the view name and view filter. The class `EventsStore` holds the event store (stored events and the view namespace) and the controller's three operations. The row-collecting loop is a method proved against the count specification.
- `UsersRoutes` (`users_routes.dfy`): registration, the route table, dispatch through it, and the stub handlers.
- `Optional` (`optional.dfy`): the Option datatype.

Foreign calls become inputs:

- `net.ParseIP` becomes the flag `ipParses`.
- The GeoIP `City` lookup becomes a `LookupResult`.
- `uuid.New()` becomes the parameter `id`.
- Whether gorm's `CreateView`, `Create` and the grouped query succeed becomes the flags `createOk`, `insertOk` and `storeOk`.
- The request body parse, `UsersController.Create` and `MandatoryAuthMiddleware` become `ParsedBody`, `CreateOutcome` and `authOk`.

`models.EventRedirect.TableName()` is not part of this model. The table name is the `EventsStore` constant `tableName`, and the view-name lemmas hold for every table name.

A failed count query returns `nil, err` (`src/controllers/events.go:113-116`), so `QueryFailed` carries no rows. The row loop (`src/controllers/events.go:118-123`) never inspects the cursor's error: a read error after the query has started ends the loop, and the rows read so far come back with a nil error. The input `readError` says after how many rows that happens.

## Model

| member | source | states |
|---|---|---|
| `DecimalText.ParseDecimalOfDecimal` | src/controllers/events.go:44 | the decimal text of a user id reads back as that id, so `fmt.Sprint` loses nothing |
| `DecimalText.DecimalInjective` | src/controllers/events.go:44 | two different user ids never have the same decimal text |
| `EventsController.ViewNameRoundTrip` | src/controllers/events.go:44 | a view name is the table name, `_` and the decimal user id, and the user id can be read back from the name |
| `EventsController.ViewNameInjective` | src/controllers/events.go:44 | two different user ids never get the same view name |
| `EventsController.ViewRowsAdmitted` | src/controllers/events.go:45-48 | a view shows exactly the stored events its `creator_id = ?` query admits |
| `EventsController.ViewUnderNameFiltersOwner` | src/controllers/events.go:44-50 | in a namespace of views this controller created, a view under userId's name filters on userId, even when it is left over from an earlier call that failed to replace it |
| `EventsController.EventsStore.constructor` | src/controllers/events.go:21-26 | the controller opens over an existing event store and a view namespace that holds only views it named itself |
| `EventsController.EventsStore.TableRows` | src/controllers/events.go:45-56 | a handle shows rows exactly when a view of its name exists, and then exactly the stored events that view's query admits |
| `EventsController.EventsStore.GetViewForUser` | src/controllers/events.go:41-59 | the handle is always bound to `<table>_<userId>`; a successful creation replaces that view by one filtering on userId; a failed creation leaves the namespace and the events unchanged and its error is dropped |
| `EventsController.QueryRedirectCounts` | src/controllers/events.go:108-123 | a store failure or a missing table returns only the error; otherwise the rows are appended in the order the query yields them and the result is a success holding a prefix of the grouped count of the visible events: all of it when the cursor reads to the end, and only the rows read before a cursor error otherwise, since that error is never inspected |
| `EventsController.EventsStore.GetRedirectsCountForUserId` | src/controllers/events.go:106-124 | whenever a view of that name exists and the store answers, the result is a success holding a prefix of the grouped count of the user's own events: all of it when the cursor reads to the end, the rows read so far after a cursor error; a store failure returns `StoreFailure` and a missing view `NoSuchTable` with the view's name, so with a successful view creation only a store failure makes it fail; the events are unchanged |
| `EventsController.EventsStore.LogRedirect` | src/controllers/events.go:61-104 | the event copies the redirect data and carries the given id, its location fields follow the enrichment rules (with the subdivision index guarded, see Findings), a successful insert appends exactly that event, a failed insert changes nothing, and the views are untouched |
| `EventRecords.PlaceField` | src/controllers/events.go:80-86 | a country or region field is non-empty exactly when the English name is non-empty, and then it is `name (iso)`, even for an empty ISO code |
| `EventRecords.LabelRoundTrip` | src/controllers/events.go:81 | `name (iso)` splits back into the same name and ISO code whenever the code holds no `(` |
| `EventRecords.BuildEventAsWritten` | src/controllers/events.go:64-91 | the construction as written panics exactly when the IP parsed, the lookup succeeded and the record has no subdivision; otherwise it copies the input fields, carries the id and fills the location fields by the rules |
| `EventRecords.CountryOnlyRecordPanics` | src/controllers/events.go:84 | running the construction as written on a parsed IP whose lookup returns a country-only record ends in the index panic |
| `EventRecords.BuildEvent` | src/controllers/events.go:64-91 | the construction with the index guarded never fails, copies the input fields and the id, and fills the location fields by the same rules, leaving the region empty when there is no subdivision |
| `EventRecords.BuildSpecDeterministic` | src/controllers/events.go:64-91 | the copy and location rules together determine the built event completely |
| `EventRecords.NoLocationWithoutLookup` | src/controllers/events.go:74-79 | an IP that does not parse or a failed lookup leaves all three location fields empty |
| `EventRecords.CountryFieldRule` | src/controllers/events.go:80-82 | after a successful lookup the country field is set exactly when the English country name is non-empty, for every ISO code; a set field reads back as that name and the ISO code whenever the code holds no `(` |
| `EventRecords.RegionFieldRule` | src/controllers/events.go:84-86 | the region follows the same rule, read from the first subdivision |
| `RedirectCounts.CreatedByExactly` | src/controllers/events.go:47 | the view's filter keeps exactly the events of the user, and as many as the user has |
| `RedirectCounts.GroupCountCounts` | src/controllers/events.go:108-111 | each grouped row counts exactly the occurrences of its short URL, so at least one |
| `RedirectCounts.GroupCountUrls` | src/controllers/events.go:108-111 | the grouped rows carry exactly the short URLs that occur |
| `RedirectCounts.GroupCountDistinct` | src/controllers/events.go:108-111 | no short URL has two grouped rows |
| `RedirectCounts.GroupCountSum` | src/controllers/events.go:108-111 | the grouped counts add up to the number of rows counted |
| `RedirectCounts.OccurrencesOfCreatedBy` | src/controllers/events.go:108-111 | counting a short URL among the user's events equals counting the stored events of that user with that short URL |
| `RedirectCounts.RedirectCountsCorrect` | src/controllers/events.go:106-123 | the per-user counts have one row per distinct short URL of the user's events and no other; each count is the number of the user's events with that URL, so at least one and never including another user's events; the counts add up to the number of the user's events |
| `RedirectCounts.TruncatedCountsSound` | src/controllers/events.go:118-123 | a count answer cut short by a cursor error is still sound: its short URLs are distinct, each row counts exactly the user's events with that URL, and the rows together count no more than the user's events |
| `RedirectCounts.CountsExample` | src/controllers/events.go:106-123 | user 1 with events on A, A, B and user 2 with one on A: user 1 gets exactly two rows, A:2 and B:1, in whatever order |
| `UsersRoutes.RegisterUser` | src/routes/api/users.go:42-66 | an unparseable body gives 400 and an empty email or password gives 422, both without calling Create; otherwise Create is called with the request's credentials; a duplicate key gives 409 with the "already exists" error body; every other outcome gives 201 with a user response built from Create's result |
| `UsersRoutes.RegisterStatuses` | src/routes/api/users.go:42-66 | registration answers only 201, 400, 409 or 422; 400 exactly for an unparseable body; 422 exactly for a parsed body with an empty field |
| `UsersRoutes.FailedCreateAnswersCreated` | src/routes/api/users.go:58-65 | a Create error that is not a duplicate key falls through to 201 |
| `UsersRoutes.OpenRoutes` | src/routes/api/users.go:20-21 | POST `/` reaches registerUser and POST `/login` reaches loginUser, with or without authentication |
| `UsersRoutes.IdRoutes` | src/routes/api/users.go:22-23 | GET and PATCH on a one-segment path reach getUserInfo and updateUserInfo exactly when authentication passes, and are refused otherwise |
| `UsersRoutes.OnlyIdRoutesAuthenticated` | src/routes/api/users.go:20-23 | exactly the two `/:id` routes carry MandatoryAuthMiddleware |
| `UsersRoutes.AuthGuardsUserInfo` | src/routes/api/users.go:22-23 | no request reaches getUserInfo or updateUserInfo without passing authentication |
| `UsersRoutes.Handle` | src/routes/api/users.go:78-108 | the register route answers with the registration decision; loginUser, getUserInfo and updateUserInfo answer 200 with the texts `LoginUser`, `GetUserInfo` and `UpdateUserInfo` |
| `UsersRoutes.StubsIgnoreRequest` | src/routes/api/users.go:78-108 | the stubs `LoginUser`, `GetUserInfo` and `UpdateUserInfo` answer regardless of the request, each with its own fixed text |

## Left out

- The process-wide `lo.Synchronize` lock around view creation is not modelled, and neither is the non-blocking `lo.Async` background task of the logging path. Both exist only for concurrency. Every operation runs sequentially to completion, so mutual exclusion and the caller's non-blocking return are outside the model.
- gorm's `CreateView`, `Create`, `Table`, `Rows` and `ScanRows` are replaced by their meaning on the abstract store (`events`, `views`). Whether each call succeeds is an input, and SQL is not modelled.
- The order in which the store yields grouped rows is fixed here to the order in which each short URL first appears. SQL leaves that order unspecified. The lemmas do not depend on it; the method contracts fix that order, and so also which rows a cursor error cuts off.
- A row-scan failure (`lo.Must0`, `src/controllers/events.go:120`) panics. Scans are taken to succeed.
- `net.ParseIP` and the GeoIP database lookup are foreign calls. Their outcomes are inputs, and IP address syntax is not modelled.
- `uuid.New()` is randomness. The id is a parameter, and its uniqueness is not proved.
- `applogger` logging is I/O and is left out.
- The following are not part of this model: fiber's body parsing, JSON responses and the DTO constructors; `UsersController.Create`; `security.MandatoryAuthMiddleware`. Their outcomes are inputs, and the body of a user response is not modelled.
- The package-level `usersController` assignment in `UsersRoute` (`src/routes/api/users.go:18`) is setup plumbing and is left out.
- Fiber's own routing rules are not modelled: case-insensitive matching, optional trailing slashes, implicit HEAD routes, and its replies for unmatched paths. A route pattern `/:name` matches one non-empty path segment; any other pattern matches only its literal path. Under that rule, GET `/login` reaches getUserInfo.
- Integer widths: ids are `Uint64` values, but `count(id)` is an unbounded `nat`. The 64-bit limit of the count is not modelled.

- EventsController.EventsStore.LogRedirect: builds the event with the guarded `BuildEvent`. For a parsed IP whose lookup returns a record with no subdivision, the source panics at `src/controllers/events.go:84` and inserts nothing. This method instead inserts an event with an empty region. The as-written behaviour is stated by `EventRecords.BuildEventAsWritten` (see Findings).

## Findings

| source | as written | input that shows it | evidently intended | confidence | as-written member | corrected member |
|---|---|---|---|---|---|---|
| src/controllers/events.go:84 | `city.Subdivisions[0]` is read without checking that the lookup returned a subdivision | an IP that parses and resolves to a country-only GeoIP record (empty subdivision list): the index panics inside the background goroutine, which does not recover it, so the event is never inserted and the process stops | leave the region empty when there is no subdivision, as for an empty region name | not executed; high | `EventRecords.BuildEventAsWritten` | `EventRecords.BuildEvent` |

`EventsController.EventsStore.LogRedirect` uses the corrected `BuildEvent`.
