# Modular-monolith boilerplate: a verified model of its core logic

This Dafny project models the parts of the Laravel modular-monolith
boilerplate that hold real logic, and proves what they promise:

- **Cursor-paginated user listing** (`FindUsersCursorPaginatedQuery`,
  modules `FindUsersCursorPaginatedQuery`, `RowOrder`, `Cache`, `UserData`).
  The `users` table is a sequence of rows (`map<string, Cell>`). The search
  term becomes one `LIKE '%term%'` clause per column, OR-ed together. The
  caller's sort keys are followed by the mandatory `id desc` tie-break, or
  the default is `created_at desc, id desc`. The matching rows are ordered
  lexicographically over those keys. A page is at most `perPage` rows taken
  after the cursor, which is the key tuple of the previous page's last row.
  Each page row then goes through the per-row `remember` cache (key
  `user:{id}`, TTL 3600), and the cached array is mapped to a `UserDTO`.
  The cache is a class holding a map (`Cache.CacheService`). The query is an
  imperative `Execute` method, with loops in `BuildSearchClauses`,
  `BuildOrderKeys` and `Through`. Each is proved against the pure functions
  that specify it.
- **JSON response envelopes** (`ApiResponse`): `success`/`error`, the status
  shortcuts (status codes as section 15 of RFC 9110 names them), `noContent`,
  and the arithmetic of `paginated` (`last_page`, `from`, `to`).
- **Module-name extraction** (`ModuleAware::extractModuleName`): an anchored
  scan equivalent to the pattern `^Modules\\([^\\]+)\\`, with the
  `'Unknown'` fallback.
- **String-backed enums** `LogChannel` and `LogLevel`: case to value and
  back.
- **DTOs and value objects**, whose behaviour the unit tests pin down:
  `GetAuthenticatedUserQuery` with the row-to-`UserDTO` mapping and
  `toArray`, `AuthTokenDTO`, `LoginDTO` and the `Email` value object.

Shared helpers: `Wrappers` (`Option`, `Result`), `Text` (ASCII lower-casing
as PHP 8's `strtolower` does it, substring search, code-point string order)
and `Json` (the values that envelopes and DTO arrays carry).

`execute` has no error path. A falsy cursor string (`""`, `"0"`) starts at
the first row, an undecodable cursor is the null cursor (`StartCursor`), and
the page size is not checked.

## Model

| member | source | states |
|---|---|---|
| FindUsersCursorPaginatedQuery.BuildSearchClauses | modules/User/Application/Queries/FindUsersCursorPaginatedQuery.php:49-55 | the loop builds one `LIKE` clause per listed column, in order, with the search term; there are none when there is no search or `hasSearch()` is false |
| FindUsersCursorPaginatedQuery.SearchKeepsIff | modules/User/Application/Queries/FindUsersCursorPaginatedQuery.php:49-55 | with an active search, a row is kept if and only if at least one listed column contains the term |
| FindUsersCursorPaginatedQuery.SearchWithoutColumnsKeepsAll | modules/User/Application/Queries/FindUsersCursorPaginatedQuery.php:49-55 | a term with no columns gives an empty `where` group, which the query builder drops, so every row is kept |
| FindUsersCursorPaginatedQuery.NoSearchKeepsAll | modules/User/Application/Queries/FindUsersCursorPaginatedQuery.php:49 | with no search object, or `hasSearch()` false, every row is kept |
| FindUsersCursorPaginatedQuery.Where | modules/User/Application/Queries/FindUsersCursorPaginatedQuery.php:50 | the filtered rows are exactly the input rows the condition keeps, and there are no more of them |
| FindUsersCursorPaginatedQuery.WhereKeepsUniqueIds | modules/User/Application/Queries/FindUsersCursorPaginatedQuery.php:50 | filtering a table with unique ids leaves the ids unique |
| FindUsersCursorPaginatedQuery.WhereAll | modules/User/Application/Queries/FindUsersCursorPaginatedQuery.php:50 | a condition that keeps every row returns the table unchanged |
| FindUsersCursorPaginatedQuery.BuildOrderKeys | modules/User/Application/Queries/FindUsersCursorPaginatedQuery.php:58-67 | the loop appends the caller's sorts and then `id desc`, or yields `created_at desc, id desc` |
| FindUsersCursorPaginatedQuery.OrderKeysShape | modules/User/Application/Queries/FindUsersCursorPaginatedQuery.php:58-67 | with sorts, the keys are the caller's pairs in order followed by `(id, desc)`; without, exactly `[(created_at, desc), (id, desc)]`; in both branches the last key is `(id, desc)` |
| FindUsersCursorPaginatedQuery.AfterCursorIsSuffix | modules/User/Application/Queries/FindUsersCursorPaginatedQuery.php:70-73 | in ordered rows, the rows strictly after a cursor form a suffix: every row before it is not after the cursor, every row in it is |
| FindUsersCursorPaginatedQuery.AfterRow | modules/User/Application/Queries/FindUsersCursorPaginatedQuery.php:70-73 | the rows after the key tuple of row `m` are exactly the rows following position `m` |
| FindUsersCursorPaginatedQuery.Paginate | modules/User/Application/Queries/FindUsersCursorPaginatedQuery.php:70-73 | a page holds at most `perPage` rows, and there are more pages if and only if more than `perPage` rows follow the cursor |
| FindUsersCursorPaginatedQuery.OrderedRows | modules/User/Application/Queries/FindUsersCursorPaginatedQuery.php:46-67 | the query's rows are sorted by the order keys, have unique ids, and are exactly the table rows that match the search |
| FindUsersCursorPaginatedQuery.PaginateIsConsecutive | modules/User/Application/Queries/FindUsersCursorPaginatedQuery.php:70-73 | a page is the run of `min(perPage, remaining)` consecutive ordered rows starting right after the cursor; a null cursor starts at row 0; `hasMore` holds if and only if rows remain past the page |
| FindUsersCursorPaginatedQuery.PageIsConsecutive | modules/User/Application/Queries/FindUsersCursorPaginatedQuery.php:46-73 | the same for the page `execute` builds from the table, search, sort and cursor string |
| FindUsersCursorPaginatedQuery.FirstPage | modules/User/Application/Queries/FindUsersCursorPaginatedQuery.php:72 | a null cursor, or a falsy cursor string, gives the first `min(perPage, n)` ordered rows |
| FindUsersCursorPaginatedQuery.PageRowsMatch | modules/User/Application/Queries/FindUsersCursorPaginatedQuery.php:46-55 | every row of a page is a row of the `users` table that matches the search |
| FindUsersCursorPaginatedQuery.NextPageContinues | modules/User/Application/Queries/FindUsersCursorPaginatedQuery.php:70-73 | following the next cursor yields exactly the rows after the page: none skipped, none repeated |
| FindUsersCursorPaginatedQuery.PagesCoverRest | modules/User/Application/Queries/FindUsersCursorPaginatedQuery.php:70-73 | following next cursors until `hasMore` is false, the concatenated pages are exactly the rows after the starting cursor |
| FindUsersCursorPaginatedQuery.PaginationComplete | modules/User/Application/Queries/FindUsersCursorPaginatedQuery.php:46-73 | paging from a null cursor visits every matching row exactly once, in order |
| FindUsersCursorPaginatedQuery.CacheKey | modules/User/Application/Queries/FindUsersCursorPaginatedQuery.php:77 | the key is `user:` followed by the row id as interpolated text |
| FindUsersCursorPaginatedQuery.CacheKeyInjective | modules/User/Application/Queries/FindUsersCursorPaginatedQuery.php:77 | two rows with text ids share a cache key if and only if their ids are equal |
| FindUsersCursorPaginatedQuery.PageUniqueIds | modules/User/Application/Queries/FindUsersCursorPaginatedQuery.php:70-73 | a page of a table with unique ids has unique ids |
| FindUsersCursorPaginatedQuery.PageDistinctKeys | modules/User/Application/Queries/FindUsersCursorPaginatedQuery.php:76-77 | the rows of one page use pairwise distinct cache keys |
| FindUsersCursorPaginatedQuery.ToDTOs | modules/User/Application/Queries/FindUsersCursorPaginatedQuery.php:88 | one `UserDTO::fromDatabase` item per cached value, in the same order |
| FindUsersCursorPaginatedQuery.Through | modules/User/Application/Queries/FindUsersCursorPaginatedQuery.php:76-89 | the loop passes each page row through `remember` under `user:{id}` with TTL 3600; the cache ends as the row-by-row resolution says, and the items are the DTOs of the values served |
| FindUsersCursorPaginatedQuery.Execute | modules/User/Application/Queries/FindUsersCursorPaginatedQuery.php:31-101 | the returned paginator carries the page's next cursor and `hasMore`; its items are the DTOs of the cached values of the page rows; the cache is updated as `remember` does it |
| FindUsersCursorPaginatedQuery.ResolveRowsServed | modules/User/Application/Queries/FindUsersCursorPaginatedQuery.php:80-88 | each row is served from the cache as it stood before the page: the cached array on a hit, even if stale, otherwise the row as read; no existing entry is rewritten |
| FindUsersCursorPaginatedQuery.ResolveRowsColdThenWarm | modules/User/Application/Queries/FindUsersCursorPaginatedQuery.php:80-86 | on an empty cache the rows are served as read and each is cached for 3600 seconds; repeating the page then hits on every row and changes nothing |
| Cache.CacheService.Remember | modules/Shared/Domain/Contracts/CacheServiceInterface.php:27 | on a hit, the stored value is returned and the cache is unchanged; on a miss, the computed value is stored with its TTL and returned |
| Cache.RememberAllValues | modules/User/Application/Queries/FindUsersCursorPaginatedQuery.php:80-86 | for distinct keys, each value served is the stored one on a hit and the computed one on a miss |
| Cache.RememberAllKeys | modules/User/Application/Queries/FindUsersCursorPaginatedQuery.php:80-86 | after a run of `remember` calls, the cache holds the old keys plus exactly the keys asked for |
| Cache.RememberAllKeeps | modules/User/Application/Queries/FindUsersCursorPaginatedQuery.php:80-86 | entries that were already cached stay exactly as they were |
| Cache.RememberAllMisses | modules/User/Application/Queries/FindUsersCursorPaginatedQuery.php:80-86 | every missed key ends up holding its computed value with the given TTL |
| Cache.RememberAllAgain | modules/User/Application/Queries/FindUsersCursorPaginatedQuery.php:80-86 | repeating the same keys, whatever the new computed values, returns the first run's values and leaves the cache unchanged |
| Cache.RememberAllCold | modules/User/Application/Queries/FindUsersCursorPaginatedQuery.php:80-86 | on an empty cache every value is computed and each key is stored with it |
| RowOrder.KeyTuple | modules/User/Application/Queries/FindUsersCursorPaginatedQuery.php:60 | a row's key tuple holds the row's value in each ordered column, in key order |
| RowOrder.CellLessTotal | modules/User/Application/Queries/FindUsersCursorPaginatedQuery.php:60 | any two distinct column values are ordered one way or the other |
| RowOrder.TupleLessIrreflexive | modules/User/Application/Queries/FindUsersCursorPaginatedQuery.php:58-67 | no key tuple comes before itself under the `orderBy` list |
| RowOrder.TupleLessTransitive | modules/User/Application/Queries/FindUsersCursorPaginatedQuery.php:58-67 | the lexicographic `orderBy` comparison, ascending or descending per key, is transitive |
| RowOrder.TupleLessTotal | modules/User/Application/Queries/FindUsersCursorPaginatedQuery.php:58-67 | any two distinct key tuples are ordered one way or the other |
| RowOrder.PrecedesTransitive | modules/User/Application/Queries/FindUsersCursorPaginatedQuery.php:58-67 | row order is transitive |
| RowOrder.PrecedesAsymmetric | modules/User/Application/Queries/FindUsersCursorPaginatedQuery.php:58-67 | no two rows precede each other |
| RowOrder.DistinctIdsOrdered | modules/User/Application/Queries/FindUsersCursorPaginatedQuery.php:63-66 | with the `id` tie-break last, two rows with different ids never compare equal |
| RowOrder.Insert | modules/User/Application/Queries/FindUsersCursorPaginatedQuery.php:58-67 | inserting a row adds exactly that row to the rows |
| RowOrder.InsertSorted | modules/User/Application/Queries/FindUsersCursorPaginatedQuery.php:58-67 | inserting a row comparable with every sorted row keeps them sorted |
| RowOrder.SortRows | modules/User/Application/Queries/FindUsersCursorPaginatedQuery.php:58-67 | ordering returns a permutation of the rows |
| RowOrder.SortRowsSorted | modules/User/Application/Queries/FindUsersCursorPaginatedQuery.php:58-67 | with the `id` tie-break and unique ids, the rows come out strictly sorted |
| RowOrder.SortedUnique | modules/User/Application/Queries/FindUsersCursorPaginatedQuery.php:58-67 | there is only one strictly sorted arrangement of given rows, so the order the query imposes is deterministic |
| RowOrder.SortedHeadsAgree | modules/User/Application/Queries/FindUsersCursorPaginatedQuery.php:58-67 | two sorted arrangements of the same rows start with the same row |
| Text.ContainsIff | modules/User/Application/Queries/FindUsersCursorPaginatedQuery.php:52 | `LIKE '%term%'` holds if and only if the term occurs at some position in the column |
| Text.StrLessTransitive | modules/User/Application/Queries/FindUsersCursorPaginatedQuery.php:60 | string order on column values is transitive |
| Text.StrLessTotal | modules/User/Application/Queries/FindUsersCursorPaginatedQuery.php:60 | any two distinct strings are ordered one way or the other |
| UserData.FromDatabase | modules/User/Tests/Unit/Application/Queries/GetAuthenticatedUserQueryTest.php:26-96 | each DTO field equals the row's snake_case column; null `surname`, `profile_path` and `updated_at` stay null |
| UserData.ToArray | modules/User/Tests/Unit/Application/Queries/GetAuthenticatedUserQueryTest.php:120-126 | `toArray` returns id, name, surname and email unchanged under the same keys |
| UserData.FromToArray | modules/User/Tests/Unit/Application/Queries/GetAuthenticatedUserQueryTest.php:120-126 | `fromDatabase(toArray(d))` gives back `d` |
| UserData.ToFromDatabase | modules/User/Tests/Unit/Application/Queries/GetAuthenticatedUserQueryTest.php:26-54 | `toArray(fromDatabase(row))` agrees with the row on every user column |
| UserData.FromDatabaseDeterminedByColumns | modules/User/Application/Queries/FindUsersCursorPaginatedQuery.php:88 | two rows give the same DTO if and only if they agree on every user column |
| GetAuthenticatedUserQuery.Execute | modules/User/Tests/Unit/Application/Queries/GetAuthenticatedUserQueryTest.php:26-66 | the result is null if and only if no user is authenticated; otherwise it is the DTO of the user's array; the port and the user's `toArray` are each called exactly once |
| ApiResponse.ReadEnvelopeBody | modules/Shared/Interface/Http/Responses/ApiResponse.php:15-40 | a body built from an envelope reads back as that envelope |
| ApiResponse.ReadEnvelopeInverse | modules/Shared/Interface/Http/Responses/ApiResponse.php:15-40 | a body that reads as an envelope is that envelope's body |
| ApiResponse.Success | modules/Shared/Interface/Http/Responses/ApiResponse.php:15-25 | the given status, with body `{success: true, message, data}` |
| ApiResponse.Error | modules/Shared/Interface/Http/Responses/ApiResponse.php:30-40 | the given status, with body `{success: false, message, errors}` |
| ApiResponse.Defaults | modules/Shared/Interface/Http/Responses/ApiResponse.php:15-40 | the defaults are `'Success'` with status 200, and `'An error occurred'` with null errors and status 400 |
| ApiResponse.Created | modules/Shared/Interface/Http/Responses/ApiResponse.php:45-50 | status 201 on a success envelope |
| ApiResponse.NotFound | modules/Shared/Interface/Http/Responses/ApiResponse.php:55-59 | status 404, error envelope with null errors |
| ApiResponse.ValidationError | modules/Shared/Interface/Http/Responses/ApiResponse.php:64-69 | status 422, error envelope carrying the given errors |
| ApiResponse.Unauthorized | modules/Shared/Interface/Http/Responses/ApiResponse.php:74-78 | status 401, error envelope with null errors |
| ApiResponse.Forbidden | modules/Shared/Interface/Http/Responses/ApiResponse.php:83-87 | status 403, error envelope with null errors |
| ApiResponse.Conflict | modules/Shared/Interface/Http/Responses/ApiResponse.php:92-97 | status 409, error envelope carrying the given errors |
| ApiResponse.ServerError | modules/Shared/Interface/Http/Responses/ApiResponse.php:102-106 | status 500, error envelope with null errors |
| ApiResponse.NoContent | modules/Shared/Interface/Http/Responses/ApiResponse.php:111-114 | status 204 with a null body, which reads as neither envelope |
| Ints.Min | modules/Shared/Interface/Http/Responses/ApiResponse.php:134 | the smaller of two integers, used for `to` and for the length of a cursor page |
| ApiResponse.CeilDiv | modules/Shared/Interface/Http/Responses/ApiResponse.php:132 | `(int) ceil(total / perPage)` is the least `r` with `total <= r * perPage` for a positive divisor |
| ApiResponse.Pagination | modules/Shared/Interface/Http/Responses/ApiResponse.php:129-135 | the pagination block echoes total, per_page and current_page |
| ApiResponse.Paginated | modules/Shared/Interface/Http/Responses/ApiResponse.php:119-136 | status 200 success envelope whose data holds the items unchanged beside the pagination block |
| ApiResponse.PageBounds | modules/Shared/Interface/Http/Responses/ApiResponse.php:132-134 | for total >= 1 and a page from 1 to `last_page`: `1 <= from <= to <= total`, with at most `perPage` rows |
| ApiResponse.FullPagesBeforeLast | modules/Shared/Interface/Http/Responses/ApiResponse.php:132-134 | every page before the last holds exactly `perPage` rows |
| ApiResponse.EmptyResult | modules/Shared/Interface/Http/Responses/ApiResponse.php:132-134 | for total 0: `last_page` is 0, `from` is 1 and `to` is 0 |
| ModuleAware.Segment | modules/Shared/Infrastructure/Concerns/ModuleAware.php:13 | the longest backslash-free prefix, and it stops at a backslash or the end |
| ModuleAware.ExtractModuleName | modules/Shared/Infrastructure/Concerns/ModuleAware.php:9-18 | total on every string; when the name is `Modules\`, a non-empty backslash-free run and a backslash, the result is that run, otherwise `'Unknown'` |
| ModuleAware.NoShapeWithoutSegment | modules/Shared/Infrastructure/Concerns/ModuleAware.php:13-17 | after `Modules\`, an empty or unterminated segment matches no module |
| ModuleAware.NamesModuleUnique | modules/Shared/Infrastructure/Concerns/ModuleAware.php:13-14 | a class name names at most one module |
| ModuleAware.ExtractedIsSegment | modules/Shared/Infrastructure/Concerns/ModuleAware.php:13-14 | a result other than `'Unknown'` is non-empty, has no backslash, and is the first segment after `Modules\` |
| ModuleAware.ExampleCreateUser | modules/Shared/Infrastructure/Concerns/ModuleAware.php:11-12 | `Modules\User\Application\UseCases\CreateUser` yields `User` |
| ModuleAware.ExampleUnterminatedSegment | modules/Shared/Infrastructure/Concerns/ModuleAware.php:13-17 | `Modules\User` yields `'Unknown'` |
| ModuleAware.ExampleEmptySegment | modules/Shared/Infrastructure/Concerns/ModuleAware.php:13-17 | `Modules\\X` yields `'Unknown'` |
| ModuleAware.ExampleNotAnchored | modules/Shared/Infrastructure/Concerns/ModuleAware.php:13 | `App\Modules\User\X` yields `'Unknown'` |
| ModuleAware.ExampleCaseSensitive | modules/Shared/Infrastructure/Concerns/ModuleAware.php:13 | `modules\User\X` yields `'Unknown'` |
| LogChannel.TryFrom | modules/Shared/Domain/Enums/LogChannel.php:7-15 | a found case has the given backing value; no case is found only when no case has that value |
| LogChannel.CasesComplete | modules/Shared/Domain/Enums/LogChannel.php:9-14 | there are exactly six cases, listed without repetition |
| LogChannel.ValueIsLowerName | modules/Shared/Domain/Enums/LogChannel.php:9-14 | each backing value is the lower-cased case name |
| LogChannel.ValueInjective | modules/Shared/Domain/Enums/LogChannel.php:9-14 | distinct cases have distinct backing values |
| LogChannel.TryFromValue | modules/Shared/Domain/Enums/LogChannel.php:7-15 | looking up a case's value returns that case |
| LogChannel.TryFromIsCaseSensitive | modules/Shared/Domain/Enums/LogChannel.php:7-15 | `'Audit'` and `'AUDIT'` map to no case |
| LogLevel.TryFrom | modules/Shared/Domain/Enums/LogLevel.php:7-16 | a found case has the given backing value; no case is found only when no case has that value |
| LogLevel.CasesComplete | modules/Shared/Domain/Enums/LogLevel.php:9-15 | there are exactly seven cases, DEBUG to AUDIT, listed without repetition |
| LogLevel.ValueIsLowerName | modules/Shared/Domain/Enums/LogLevel.php:9-15 | each backing value is the lower-cased case name |
| LogLevel.ValueInjective | modules/Shared/Domain/Enums/LogLevel.php:9-15 | distinct cases have distinct backing values |
| LogLevel.TryFromValue | modules/Shared/Domain/Enums/LogLevel.php:7-16 | looking up a case's value returns that case |
| AuthTokenDTO.FromToken | modules/User/Tests/Unit/Application/DTOs/AuthTokenDTOTest.php:12-34 | the token is stored unchanged, the type is `bearer`, and `expiresIn` is the minutes times 60 |
| AuthTokenDTO.ToArray | modules/User/Tests/Unit/Application/DTOs/AuthTokenDTOTest.php:36-65 | exactly the keys `access_token`, `token_type` and `expires_in`, holding the DTO's values; no camelCase key |
| AuthTokenDTO.ToArrayInjective | modules/User/Tests/Unit/Application/DTOs/AuthTokenDTOTest.php:36-53 | the array determines the DTO |
| AuthTokenDTO.Lifetimes | modules/User/Tests/Unit/Application/DTOs/AuthTokenDTOTest.php:22-34 | 1, 60 and 120 minutes give 60, 3600 and 7200 seconds |
| LoginDTO.FromArray | modules/User/Tests/Unit/Application/DTOs/LoginDTOTest.php:12-50 | email and password are copied unchanged, with no case normalisation |
| LoginDTO.ToCredentials | modules/User/Tests/Unit/Application/DTOs/LoginDTOTest.php:24-38 | exactly the keys `email` and `password`, holding the DTO's values |
| LoginDTO.FromCredentials | modules/User/Tests/Unit/Application/DTOs/LoginDTOTest.php:12-38 | `fromArray(toCredentials(d))` gives back `d` |
| LoginDTO.CredentialsRoundTrip | modules/User/Tests/Unit/Application/DTOs/LoginDTOTest.php:12-38 | for a two-key array, `toCredentials(fromArray(a))` gives back `a` |
| Email.Create | modules/User/Tests/Unit/Domain/ValueObjects/EmailTest.php:13-33 | the email is created if and only if the lower-cased address passes the format check, and it stores that lower-cased address; otherwise it fails with `Invalid email format` |
| Email.StoredAsGiven | modules/User/Tests/Unit/Domain/ValueObjects/EmailTest.php:13-18 | a valid lower-case address is stored exactly as given |
| Email.UpperCaseExample | modules/User/Tests/Unit/Domain/ValueObjects/EmailTest.php:20-25 | `TEST@EXAMPLE.COM` is stored as `test@example.com` |
| Email.InvalidExample | modules/User/Tests/Unit/Domain/ValueObjects/EmailTest.php:27-33 | `invalid-email` is rejected with `Invalid email format` |
| Email.EqualsIgnoresCase | modules/User/Tests/Unit/Domain/ValueObjects/EmailTest.php:35-43 | two emails are equal if and only if their inputs agree up to ASCII letter case |
| Email.EqualsExample | modules/User/Tests/Unit/Domain/ValueObjects/EmailTest.php:35-43 | `test@example.com` equals itself and differs from `other@example.com` |
| Email.ToStringRoundTrip | modules/User/Tests/Unit/Domain/ValueObjects/EmailTest.php:45-50 | string conversion yields the stored address, and building an email from it gives the same email |

## Left out

- Logging and timing in `execute` (FindUsersCursorPaginatedQuery.php:37-44, 91-99) and the `Loggable` trait. They call a foreign logger and do float arithmetic on `microtime`, and they do not affect the result.
- The framework's cursor encoding. Decoding a cursor string is the `decode` parameter of `Execute`. A cursor is the key tuple of the last row of the previous page.
- FindUsersCursorPaginatedQuery.Paginate: the next cursor is computed from the key tuple of the page's last row. The framework computes it after `through()` has replaced the rows with DTOs, and those framework internals are not part of this model.
- SQL `LIKE` details. Matching is plain, case-sensitive substring containment. Collation-dependent case folding is not modelled, and neither are `%` and `_` in the term acting as wildcards.
- Database collation for `orderBy`. Strings compare by code point, and NULL sorts before every string.
- FindUsersCursorPaginatedQuery.PaginationComplete: the cursor seek treats NULL as the least value, like the ordering. SQL's `>` and `<` never hold against NULL, so when an order column holds NULL the framework's seek can skip rows, and the model's completeness result does not carry over to such rows. A search or sort column the table lacks also reads as NULL (`Get`), where SQL raises an unknown-column error.
- Cache TTL expiry and tag eviction. There is no clock: an entry keeps its TTL as a number and never expires. The cache tags are the constant `CacheTags`.
- `CacheServiceInterface` beyond `remember`, and `JwtServiceInterface` beyond `getAuthenticatedUser`. Their backends are not part of this model.
- `SearchDTO::hasSearch` and `SortDTO::hasSorts` are not part of this model. They are taken to mean a non-empty term and a non-empty sort list.
- FindUsersCursorPaginatedQuery.Execute: `perPage` is a natural number. The code does not check for a negative page size, and what the framework does with one is not modelled.
- FindUsersCursorPaginatedQuery.Execute: the rows of `users` are assumed to carry the user columns (`UserRow`), with text `id`, `name`, `email` and `created_at`. The lemmas that need it also assume unique ids.
- FindUsersCursorPaginatedQuery.Execute: values already cached under `user:{id}` are assumed to be users-row arrays (the cache holds `UserRow` values). The key family is shared with another query, and the model does not check what that query stores under it.
- GetAuthenticatedUserQuery.Execute: the authenticated user's array is assumed to carry the user columns, as every test fixture does.
- UserData.ToArray emits all seven columns in snake_case. The test pins only `id`, `name`, `surname` and `email`.
- ApiResponse.CeilDiv: PHP's float division and `ceil` are modelled as exact integer ceiling division, with no rounding or overflow. A zero page size throws in PHP and is excluded by `Pagination`'s precondition.
- `ApiResponse` returns a record (body and status) instead of a `JsonResponse` object built by the global `response()` helper.
- Email.Create: the Email class's trimming and format check are not modelled. The check is the parameter `isValidFormat`, known only to reject `invalid-email` and to accept the addresses the tests use.
- `AuthTokenDTO` being `readonly` is captured by making it an immutable datatype.
- `Password` is left out: it rests on salted Argon2 hashing. `RefreshTokenUseCase` is left out because its test only checks that an exception passes through. The route file `mobile.php` is left out because it only registers routes.
