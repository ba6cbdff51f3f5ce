# Request ticketing service — a Dafny model

This project models the core of a small support-ticket backend. Clients
create *requests* and move them through a lifecycle: CREATED, IN_PROGRESS,
then COMPLETED or CANCELLED. They list requests with date filters and
pagination. The model covers:

- **The request service.** This is a cache-aside list operation (`findAll`)
  with coarse invalidation on every write. It also has `create`, the three
  per-request transitions `start`, `complete` and `cancel`, and the bulk
  `cancelAllInProgress`. Each operation is a pure function from a store
  (`map<Id, Request>`) and a cache (`map<string, CacheEntry>`) to a result
  and the new store and cache.
- **Filter handling.** A filter becomes a `createdAt` condition
  (`mapFilterToWhereInput`) and a cache key (`toCacheKey`).
- **The input schemas.** These are the list query (RFC 3339 `full-date`
  dates, `date` exclusive with `from`/`to`, non-negative integer counts) and
  the create and closing bodies.
- **The transfer object**, `RequestDto.fromModel`.

Modules, leaves first:

| file | module | models |
|---|---|---|
| common.dfy | `Common` | optional values, JavaScript truthiness and `??`, delimiter splitting, decimal rendering, `join` |
| http_error.dfy | `HttpErrors` | the HTTP error, the not-found error, the 400 built from schema failures |
| request.dfy | `Requests` | the status set and the stored record |
| request_dto.dfy | `RequestDtos` | `RequestDto` and `fromModel` |
| validation.dfy | `Validation` | a required non-empty string body field |
| create_schema.dfy, closing_schema.dfy | `CreateSchema`, `ClosingSchema` | the two body schemas |
| dates.dfy | `Dates` | `yyyy-MM-dd` dates and `isValidDate` |
| query_schema.dfy | `QuerySchema` | the list query schema |
| store_query.dfy | `StoreQuery` | the filter-to-condition translation and the store's newest-first, paged answer |
| cache_keys.dfy | `CacheKeys` | cache keys, the two constants, invalidation |
| request_service.dfy | `RequestService` | the service operations |
| lifecycle.dfy | `Lifecycle` | properties of operation sequences |

Main results:

- **No stale read.** Start from an empty cache and run any sequence of
  operations, one after another. Listings use accepted filters, and the
  cache may drop entries at any time. Then every later listing with an
  accepted filter returns
  exactly what the store holds at that moment (`Lifecycle.NoStaleRead`).
  Two facts give this:
  - Every write drops every key under `request:`.
  - Accepted filters share a key only when they ask the store the same
    question.

  This holds for operations that run one at a time. Operations that overlap
  can break it. A listing may read the store, then a write may clear the
  cache, and then the listing stores its now stale page for 60 seconds.
  The model does not cover that interleaving.
- **Missing state checks.** The transitions check only that the id exists,
  never the state the request is in. Along the intended lifecycle, a request
  carries at most one closing text. But `complete`, `start`, `cancel` on one
  request leaves it with both texts set. The model keeps this behaviour as
  the code has it.

## Model

| member | source | states |
|---|---|---|
| `Common.NatToStringInjective` | src/services/request/request-service.ts:174 | The rendered `skip`/`take` numbers in a key are distinct for distinct counts. |
| `Common.ColonSplit` | src/services/request/request-service.ts:174 | In a `:`-joined key, a part with no `:` can be read back, so the parts are recovered uniquely. |
| `HttpErrors.NotFound` | src/services/request/request-service.ts:138-140 | The missing-request error has status 404. Its message is `Request with ID = `, then the id, then ` was not found`, and nothing else. |
| `HttpErrors.NotFoundNamesId` | src/services/request/request-service.ts:139 | The not-found error identifies its id: two errors are equal exactly when their ids are. |
| `HttpErrors.BadRequest` | src/lib/validator-middleware-template.ts:46-53 | A failed schema check is status 400; a single failure's message is passed on verbatim. |
| `HttpErrors.BadRequestJoinsTwo` | src/lib/validator-middleware-template.ts:50 | Two failure messages are reported in order, separated by `", "`. |
| `HttpErrors.BadRequestAppends` | src/lib/validator-middleware-template.ts:50 | One more failure message is appended after `", "`, so any number of messages appear in the order reported. |
| `Common.JoinSnoc` | src/lib/validator-middleware-template.ts:50 | Joining one more part appends the separator and that part. |
| `RequestDtos.FromModel` | src/dto/request/request-dto.ts:81-92 | Every one of the eight fields (id, timestamps, subject, description, both closing texts including absence, status) is copied unchanged. |
| `RequestDtos.FromModelRoundTrip` | src/dto/request/request-dto.ts:57-92 | The mapping is lossless and onto: the record is recovered from its DTO, and each DTO comes from exactly one record. |
| `Validation.StringFieldIssues` | src/schemas/request/request-create-schema.ts:6-7 | A required string field fails once, with its own message when empty and the library's type message otherwise; it passes exactly when non-empty text. |
| `CreateSchema.ValidateCreate` | src/schemas/request/request-create-schema.ts:5-8 | A create body passes exactly when subject and description are non-empty strings, passed on unchanged. An empty subject alone gives 400 `Subject is required`; an empty description alone gives `Description is required`. |
| `CreateSchema.BothEmptyReportsBoth` | src/schemas/request/request-create-schema.ts:5-8 | With both fields empty, both messages are reported, subject first, joined by `", "`. |
| `CreateSchema.CreateBodyRoundTrip` | src/schemas/request/request-create-schema.ts:5-8 | Every pair of non-empty strings is accepted and yields exactly that body. |
| `ClosingSchema.ValidateClosing` | src/schemas/request/request-closing-schema.ts:5-7 | A closing body passes exactly when `closingText` is a non-empty string, passed on unchanged. Every refusal is a 400. An empty text gives `Text of closing reason is required`, a missing one `Required`, and a non-string `Expected string, received <type>`. |
| `ClosingSchema.ClosingBodyRoundTrip` | src/schemas/request/request-closing-schema.ts:5-7 | Every non-empty closing text is accepted and yields exactly that body. |
| `Dates.FormatDate` | src/schemas/request/request-query-schema.ts:48-54 | Every calendar date with a four-digit year has a `yyyy-MM-dd` spelling that the date check accepts and that reads back to the same year, month and day. |
| `Dates.FullDateRoundTrip` | src/schemas/request/request-query-schema.ts:48-54 | Every accepted date string is the spelling of the day it names, so reading and writing dates are inverse to each other. |
| `Dates.ValidDateIsFormatted` | src/schemas/request/request-query-schema.ts:48-54 | `isValidDate` (`Dates.IsValidDate`) accepts exactly two kinds of input: an absent or empty string, and the `yyyy-MM-dd` spelling of a real calendar day. |
| `Dates.FullDateColonFree` | src/schemas/request/request-query-schema.ts:48-54 | An accepted date holds no `:`. |
| `Dates.DateExamples` | src/schemas/request/request-query-schema.ts:48-54 | February 29th is accepted in leap years only, as are months 01-12 only and two-digit months only. An absent or empty string passes `isValidDate`. |
| `QuerySchema.CountIssues` | src/schemas/request/request-query-schema.ts:20-21 | A count fails unless it is a finite non-negative integer. NaN reports only the type failure. Any other number reports the integer message exactly when it is not a whole number, and the bound message exactly when it is below 0. When both apply, the integer message comes first. |
| `QuerySchema.CountValue` | src/schemas/request/request-query-schema.ts:20-21 | An accepted count keeps its numeric value, and an absent count stays absent. No default is filled in. |
| `QuerySchema.QueryIssues` | src/schemas/request/request-query-schema.ts:6-31 | Each date field reports its own message exactly when it is not a valid date. The exclusion message appears exactly when `date` comes with `from`/`to` and no count failed to be a number. |
| `QuerySchema.QueryIssuesOrder` | src/schemas/request/request-query-schema.ts:6-31 | Messages follow the schema's order for every query: `date`, `from`, `to`, then the count messages, then the exclusion message. So a bad `date` reports first, and a failed exclusion rule reports last. |
| `QuerySchema.ValidateQuery` | src/schemas/request/request-query-schema.ts:6-31 | A query passes exactly under four conditions: each present date is a valid `yyyy-MM-dd` date, both counts are valid, and `date` does not come with `from`/`to`. The accepted filter keeps the dates as given; a refusal is status 400. |
| `QuerySchema.DateWithRangeRejected` | src/schemas/request/request-query-schema.ts:23-31 | When no count is NaN, a non-empty `date` with a non-empty `from` or `to` is refused with the exclusion message. A NaN count aborts the object parse, so the rule never runs. When nothing else is wrong, the exclusion message is the whole error. |
| `QuerySchema.DateOrRangeAlonePasses` | src/schemas/request/request-query-schema.ts:24-28 | `date` alone, or `from`/`to` alone or together, never produce the exclusion message. |
| `QuerySchema.BadDateRejected` | src/schemas/request/request-query-schema.ts:8-19 | A present date that is not a valid `yyyy-MM-dd` date is refused with the message of its own field. |
| `QuerySchema.EmptyQueryAccepted` | src/schemas/request/request-query-schema.ts:6-22 | The empty query is accepted as the empty filter. |
| `QuerySchema.BadCountsRejected` | src/schemas/request/request-query-schema.ts:20-21 | Any `take` or `skip` that is not a whole non-negative number (NaN, fractional, negative or infinite) is refused. The 400 lists a number message. |
| `QuerySchema.ValidFilterRoundTrip` | src/schemas/request/request-query-schema.ts:6-31 | Every filter meeting the schema's rules is what parsing its own query string yields. |
| `StoreQuery.ToWhere` | src/services/request/request-service.ts:148-166 | A non-empty `date` bounds `createdAt` to its day. Otherwise both non-empty `from` and `to` bound it to `[from, to]`. In every other case there is no condition. |
| `StoreQuery.WhereIsWindow` | src/services/request/request-service.ts:148-166 | On every filter that does not combine `date` with a full range, the condition is exactly the conjunction of the filter's constraints. |
| `StoreQuery.DateOverridesRange` | src/services/request/request-service.ts:151-163 | With `date` present, a record matches exactly when it lies in that day, whatever range is also given. |
| `StoreQuery.HalfRangeIgnored` | src/services/request/request-service.ts:151-153 | With only one of `from`/`to` and no `date`, every record matches. |
| `StoreQuery.DayIsNonEmpty` | src/services/request/request-service.ts:156-162 | When each day starts no later than it ends, a record created at the start of the filtered day matches. |
| `StoreQuery.Matching` | src/services/request/request-service.ts:35 | The store query considers exactly the stored records that satisfy the condition. |
| `StoreQuery.NewestExists` | src/services/request/request-service.ts:36 | Every non-empty store has a record no other record is newer than. |
| `StoreQuery.Ordered` | src/services/request/request-service.ts:36 | The listing holds every stored record, with `createdAt` non-increasing. When every record sits under its own id, no id repeats, so each record appears exactly once. |
| `StoreQuery.Page` | src/services/request/request-service.ts:37-38 | A page is the contiguous run after `skip` rows (none when absent), at most `take` long (unbounded when absent). |
| `StoreQuery.QueryPage` | src/services/request/request-service.ts:34-39 | The store's answer holds only stored records satisfying the condition, newest first. Its size is what `skip` and `take` dictate, and without paging it contains every match. |
| `StoreQuery.QueryPageIsWindow` | src/services/request/request-service.ts:34-39 | The store's answer is a window of a newest-first listing of exactly the matching records. The window starts `skip` rows in and is at most `take` long. |
| `StoreQuery.ListingHeadIsNewest` | src/services/request/request-service.ts:36 | No listed record is newer than the first row of a newest-first listing. |
| `StoreQuery.QueryPageStartsNewest` | src/services/request/request-service.ts:34-39 | A page that skips nothing opens with a newest match, so `take = 1` returns a newest matching record. |
| `CacheKeys.CountText` | src/services/request/request-service.ts:174 | A count renders colon-free, as the literal `undefined` exactly when absent. |
| `CacheKeys.CountTextInjective` | src/services/request/request-service.ts:174 | Distinct counts, absence included, render distinctly. |
| `CacheKeys.CacheKey` | src/services/request/request-service.ts:173-175 | Every key starts with the invalidation namespace `request:`. |
| `CacheKeys.CacheKeyInjective` | src/services/request/request-service.ts:173-175 | For filters whose dates hold no `:`, keys are equal exactly when the filters agree on the dates and the counts. For the dates, absent and empty count as the same. |
| `CacheKeys.ValidFilterKeySafe` | src/schemas/request/request-query-schema.ts:8-19 | Every accepted filter's dates are free of the key delimiter. |
| `CacheKeys.EmptyFilterKey` | src/services/request/request-service.ts:174 | The empty filter is keyed `request::::undefined:undefined`. |
| `CacheKeys.Invalidate` | src/services/request/request-service.ts:180-185 | Invalidation drops exactly the keys under `request:` and keeps every other entry as it was. |
| `CacheKeys.InvalidateDropsEveryPage` | src/services/request/request-service.ts:180-185 | No key built from a filter survives invalidation. |
| `RequestService.MissResult` | src/services/request/request-service.ts:34-41 | A miss lists only DTOs of stored records satisfying the filter's condition, newest first. Its size is what `skip` and `take` dictate, at most `take`, and without paging it lists every match. |
| `RequestService.MissResultIsWindow` | src/services/request/request-service.ts:34-41 | A miss returns the DTOs of a window of a newest-first listing of the matching records. The window starts `skip` rows in and is at most `take` long. |
| `RequestService.FindAll` | src/services/request/request-service.ts:27-46 | A hit returns the cached page verbatim and changes nothing. A miss returns the computed page and stores it under the filter's key with lifetime 60. The store is never written. |
| `RequestService.Create` | src/services/request/request-service.ts:53-61 | Adds exactly one record under an unused id, carrying the given subject and description. Existing records are unchanged, the result is its DTO, and the cache loses exactly its `request:` entries and keeps every other one. |
| `RequestService.CheckRequestExists` | src/services/request/request-service.ts:135-141 | No error exactly when the id is stored; otherwise the 404 not-found error for that id. |
| `RequestService.Start` | src/services/request/request-service.ts:68-76 | An unknown id fails with not-found and leaves store and cache unchanged. Otherwise the status becomes IN_PROGRESS whatever it was, nothing else changes, and the cache loses exactly its `request:` entries and keeps every other one. |
| `RequestService.Complete` | src/services/request/request-service.ts:84-95 | An unknown id fails with not-found and leaves everything unchanged. Otherwise the status becomes COMPLETED and the solution text becomes the closing text. The cancel reason is untouched, other records unchanged, and the cache loses exactly its `request:` entries and keeps every other one. |
| `RequestService.Cancel` | src/services/request/request-service.ts:103-114 | An unknown id fails with not-found and leaves everything unchanged. Otherwise the status becomes CANCELLED and the cancel reason becomes the closing text. The solution text is untouched, other records unchanged, and the cache loses exactly its `request:` entries and keeps every other one. |
| `RequestService.CancelAllInProgress` | src/services/request/request-service.ts:120-129 | Every IN_PROGRESS record becomes CANCELLED with its texts untouched, and every other record is unchanged. The count equals the number of IN_PROGRESS records before the call, none remain in progress, and the cache loses exactly its `request:` entries and keeps every other one. |
| `Lifecycle.SameKeySamePage` | src/services/request/request-service.ts:173-175 | Accepted filters that share a cache key compute the same page on any store. |
| `Lifecycle.FindAllIsFresh` | src/services/request/request-service.ts:27-46 | On a coherent cache, a listing with an accepted filter returns what the store holds now, and the cache stays coherent. |
| `Lifecycle.ApplyKeepsCoherent` | src/services/request/request-service.ts:27-185 | Each service operation, and the cache dropping an entry, keeps every cached page equal to a fresh computation. |
| `Lifecycle.RunKeepsCoherent` | src/services/request/request-service.ts:27-185 | Any sequence of operations keeps the cache coherent. |
| `Lifecycle.NoStaleRead` | src/services/request/request-service.ts:27-46 | From an empty cache, after any sequence of operations, a listing returns exactly the store's current answer. |
| `Lifecycle.ReadAfterWriteIsMiss` | src/services/request/request-service.ts:180-185 | After any successful write, the next listing with any filter is a miss. It is computed from the written store and cached for 60 seconds. |
| `Lifecycle.CreateIsVisible` | src/services/request/request-service.ts:53-61 | A created request appears in the next unfiltered listing. |
| `Lifecycle.IntendedRunIsAdmissible` | src/services/request/request-service.ts:53-129 | A sequence that follows the intended lifecycle can be carried out by the service. |
| `Lifecycle.ApplyKeepsWellKeyed` | src/services/request/request-service.ts:53-129 | No operation files a record under another record's id. Create stores the new record under its own id, and every update keeps the id. |
| `Lifecycle.RunKeepsWellKeyed` | src/services/request/request-service.ts:27-185 | A run that starts from a well-keyed store stays well-keyed, so each listing it serves names every record once. |
| `Lifecycle.ApplyKeepsConsistent` | src/services/request/request-service.ts:68-129 | An operation that follows the intended lifecycle keeps every record's closing texts matching its status. |
| `Lifecycle.IntendedRunKeepsConsistent` | src/services/request/request-service.ts:68-129 | Along the intended lifecycle, every record carries at most one closing text, the one of its terminal status. |
| `Lifecycle.IntendedPathClosesOnce` | src/services/request/request-service.ts:84-114 | After create, start and then complete (or cancel), exactly the solution text (or cancel reason) is set. |
| `Lifecycle.MissingGuardsAllowBothTexts` | src/services/request/request-service.ts:68-114 | Complete, start, cancel on one request leaves it CANCELLED with both closing texts set, so the code does not enforce exclusivity. |
| `Lifecycle.StartReopens` | src/services/request/request-service.ts:68-76 | `start` moves a COMPLETED or CANCELLED request back to IN_PROGRESS. |
| `Lifecycle.CancelAllNoneInProgress` | src/services/request/request-service.ts:120-129 | With nothing in progress, the bulk cancellation reports 0 and changes no record. |
| `Lifecycle.CancelAllIdempotent` | src/services/request/request-service.ts:120-129 | A second bulk cancellation right after the first reports 0 and changes no record. |
| `Lifecycle.SingleRecordListing` | src/services/request/request-service.ts:34-41 | An unfiltered listing of a one-record store is that record's DTO alone. |
| `Lifecycle.PrinterScenario` | src/services/request/request-service.ts:27-95 | Walkthrough: create "Printer broken", list it (status CREATED), start it (IN_PROGRESS), complete it with "Replaced cartridge". The result is COMPLETED with that solution text and no cancel reason. |

## Left out

- Database and cache clients: the SQL and Redis calls are I/O. The store is
  a map and the cache a map; each operation is one sequential step.
  Concurrent interleaving of in-flight operations is not modelled.
- Failures of the database or the cache (they propagate as 500s) are not
  modelled; every store and cache call succeeds.
- Redis `KEYS request:*` glob matching is read as a prefix test.
- Cache lifetime: the 60 seconds is recorded with each entry, but no clock
  is modelled. Expiry is the cache dropping an entry at any moment
  (`Lifecycle.ExpireOp`).
- JSON round-trip through the cache. A hit returns the parsed JSON, whose
  date fields are strings, not `Date` objects. The model treats
  serialisation as identity.
- A cached value is truthy whenever present, because a serialised list is
  never the empty string. So a hit is modelled as key presence.
- Date arithmetic is a `Calendar` parameter of three functions: `new Date(...)`,
  and Luxon's start and end of day in the server's time zone. Time-zone
  behaviour is not modelled. A date-only `to` parses to that day's first
  instant, so the range `[from, to]` excludes the rest of the `to` day; the
  model inherits this through `Calendar.parse` without asserting it.
- Creation. The id, the creation time and the initial values (status
  CREATED, no closing texts, `updatedAt` equal to `createdAt`) come from
  column defaults in the database schema. That schema is not part of this
  model, so `RequestService.NewRecord` takes them as given, with the id
  and instant as parameters. `RequestService.Create` requires the id to be
  unused, which the database's generator guarantees.
- The database's automatic refresh of `updatedAt` on update is a schema
  feature not shown. The transitions leave `updatedAt` as the code writes
  it: untouched.
- Query coercion. JavaScript's `Number(...)` on query strings is not
  modelled: `Number("")` is 0, and hex and exponent forms are accepted.
  `take`/`skip` arrive already coerced (`QuerySchema.Coerced`).
  Repeated or nested query parameters, which would be arrays or objects,
  are not modelled.
- The schema's `.default(10)` and `.default(0)` sit inside `.optional()`,
  so they never apply. Absent counts stay absent.
- The messages "Required", "Expected string, received …",
  "Expected number, received nan", "Expected integer, received float" and
  "Number must be greater than or equal to 0" come from the validation
  library. They are not written in the repository.
- Request bodies are taken to be JSON objects. A body that is an array or a
  scalar is not modelled.
- `CacheKeys.CountText`: renders counts as unbounded decimals. JavaScript
  renders numbers of 1e21 and above in exponent form, and integers above
  2^53 are not exact.
- `StoreQuery.Ordered`: records with the same `createdAt` come in an order
  the database does not promise. The model fixes one arbitrary order and
  states nothing about it.
- `StoreQuery.Ordered`: no repeated id is promised only for a well-keyed
  store. The database's primary key makes every real store well-keyed, and
  `Lifecycle.RunKeepsWellKeyed` shows the operations keep it so.
- `QuerySchema.QueryIssuesOrder`: the rank order cannot tell `take`'s
  messages from `skip`'s, because the texts are the same. That `take`
  reports before `skip` holds only by the definition of
  `QuerySchema.QueryIssues`.
- `RequestUpdateManyResultDto` is modelled as the plain count it wraps.
- Transport and plumbing are not modelled: the controller, router, app,
  server, error-to-status middleware, metrics and logging.
