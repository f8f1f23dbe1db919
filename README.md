# travel-api request-handling core in Dafny

This project models three pieces of a small REST backend for travel packages ("travels") and their scheduled tours:

- **The public tour listing** of one travel (`GET travels/{slug}/tours`). The travel is resolved from its slug (404 when there is none). Its tours pass four optional, inclusive bounds: price from, price to, starting date from, starting date to. They are ordered by an optional price key and then by starting date, and the requested page is returned. Modules: `Catalog`, `TourListing`, `Pagination`.
- **Login** (`POST login`). The user is looked up by email and the password checked against the stored hash. Both failure causes give one and the same 422 answer and write nothing. On success one personal access token is stored, named after the caller's User-Agent cut to 255 bytes. Module: `Authentication`. The token table is a class (`TokenStore`) whose `Login` method appends to it.
- **The admin route gate**. Every admin route requires authentication (401). The two POST routes, which create a travel and create a tour, also require the `admin` role (403). The PUT route, which updates a travel, requires authentication only. Module: `AdminRoutes`.

`Wrappers` holds the `Option` and `Result` types.

The controller's query chain is modelled as functions over sequences of tours. Four conditional `where` steps (`WhenPriceFrom` … `WhenDateTo`) feed an ordering function (`OrderBy`), an insertion sort under the ORDER BY list, and then `Paginate`. A conditional `->when(...)` clause is added only for a parameter that was sent and is truthy in PHP: the raw texts `""` and `"0"` are falsy. A price bound in major units is compared against `price_in_cents` after multiplying by 100. Reals are used for that product, so it is exact.

Behaviour the model takes from the code:

- The PUT route checks authentication and nothing else. Any authenticated user may update a travel, whatever their roles, and not only admins and editors.
- A price bound sent as `"0"` is falsy, so `priceTo=0` adds no upper bound at all (`FalsyPriceToIsIgnored`).
- The failed-login body carries the key `error` with the text "The provided credentials are incorrect", and the status is 422.
- The paginator reports last page 1 for an empty listing; otherwise the last page is the ceiling of total / perPage.

## Model

| member | source | states |
|---|---|---|
| `Catalog.Where` | app/Http/Controllers/Api/V1/TourController.php:19-32 | a `where` keeps exactly the stored rows satisfying its comparison, each as often as stored, never more rows than stored, and drops nothing when every row satisfies it |
| `Catalog.ToursOf` | app/Http/Controllers/Api/V1/TourController.php:16 | a tour is among `$travel->tours()` exactly when it is stored and owned by that travel |
| `Catalog.TravelBySlug` | routes/custom/travel.php:7 | slug binding finds nothing exactly when no stored travel has the slug; otherwise it yields a stored travel with that slug |
| `TourListing.WhenPriceFrom` | app/Http/Controllers/Api/V1/TourController.php:19-21 | keeps a tour (with its multiplicity) exactly when `priceFrom` is absent or falsy, or `price_in_cents >= priceFrom * 100` (inclusive) |
| `TourListing.WhenPriceTo` | app/Http/Controllers/Api/V1/TourController.php:22-24 | keeps a tour exactly when `priceTo` is absent or falsy, or `price_in_cents <= priceTo * 100` (inclusive) |
| `TourListing.WhenDateFrom` | app/Http/Controllers/Api/V1/TourController.php:27-29 | keeps a tour exactly when `dateFrom` is absent or falsy, or `starting_date >= dateFrom` (inclusive) |
| `TourListing.WhenDateTo` | app/Http/Controllers/Api/V1/TourController.php:30-32 | keeps a tour exactly when `dateTo` is absent or falsy, or `starting_date <= dateTo` (inclusive) |
| `TourListing.Truthy` | app/Http/Controllers/Api/V1/TourController.php:19-31 | PHP truthiness of a query-string value as `->when` tests it: only `""` and `"0"` are falsy. No contract of its own; `FalsyPriceFromIsIgnored` and `FalsyPriceToIsIgnored` state its effect |
| `TourListing.Applies` | app/Http/Controllers/Api/V1/TourController.php:19-31 | a conditional clause is added only for a parameter that was sent and is truthy. No contract of its own; the `When…` filters and `FalsyPriceBoundIsIgnored` state its effect |
| `TourListing.Filtered` | app/Http/Controllers/Api/V1/TourController.php:19-32 | the four conditional `where` clauses in the controller's order. No contract of its own; `FilteredExactly` states what it keeps |
| `TourListing.FilteredExactly` | app/Http/Controllers/Api/V1/TourController.php:19-32 | the four-clause chain keeps exactly the tours satisfying every supplied bound, the intersection of the bounds, each as often as stored |
| `TourListing.PrimaryOrder` | app/Http/Controllers/Api/V1/TourController.php:35-37 | the custom order is used only when both `sortBy` and `sortOrder` are truthy. No contract of its own; `DefaultOrderIsStartingDate`, `PriceAscendingOrder` and `PriceDescendingOrder` state its effect |
| `TourListing.InOrder` | app/Http/Controllers/Api/V1/TourController.php:35-39 | the ORDER BY list: the optional price key in its direction, then `starting_date` ascending. No contract of its own; `OrderBy` sorts by it, and `SortedWithoutTiesIsUnique` shows that without ties it fixes one order |
| `TourListing.OrderBy` | app/Http/Controllers/Api/V1/TourController.php:35-39 | the result is ordered by the ORDER BY list (optional price key in its direction, then `starting_date` ascending) and is a permutation of its input |
| `TourListing.Listing` | app/Http/Controllers/Api/V1/TourController.php:16-39 | the filtered, ordered rows before pagination. No contract of its own; `ListingIsExactlyTheMatches`, `NoParametersListsEverything` and `AnyDatabaseOrderIsTheListing` state its properties |
| `TourListing.SortedWithoutTiesIsUnique` | app/Http/Controllers/Api/V1/TourController.php:35-39 | when no two different rows tie on every ORDER BY key, two sorted permutations of the same rows are the same sequence |
| `TourListing.AnyDatabaseOrderIsTheListing` | app/Http/Controllers/Api/V1/TourController.php:35-40 | when no two different matching tours tie on every ORDER BY key, any order the database may return for a page query is exactly the model's listing |
| `TourListing.ListingIsExactlyTheMatches` | app/Http/Controllers/Api/V1/TourController.php:16-39 | the ordered listing contains a tour exactly when it is one of the given tours and satisfies every supplied bound, with its stored multiplicity |
| `TourListing.NoParametersListsEverything` | app/Http/Controllers/Api/V1/TourController.php:19-39 | with no parameters every tour of the travel is listed, ordered by starting date ascending |
| `TourListing.FalsyPriceFromIsIgnored` | app/Http/Controllers/Api/V1/TourController.php:19-21 | a `priceFrom` sent as "0" is falsy and gives the same listing as no `priceFrom` |
| `TourListing.FalsyPriceToIsIgnored` | app/Http/Controllers/Api/V1/TourController.php:22-24 | a `priceTo` sent as "0" is falsy and gives the same listing as no `priceTo`: no upper price bound at all |
| `TourListing.FalsyPriceBoundIsIgnored` | app/Http/Controllers/Api/V1/TourController.php:19-24 | both price bounds sent as "0" give the same listing as absent bounds |
| `TourListing.DefaultOrderIsStartingDate` | app/Http/Controllers/Api/V1/TourController.php:35-39 | unless both `sortBy` and `sortOrder` are given, the listing is ordered by starting date ascending |
| `TourListing.PriceAscendingOrder` | app/Http/Controllers/Api/V1/TourController.php:35-39 | with `sortBy=price&sortOrder=asc` prices never decrease, and tours of equal price are ordered by starting date ascending |
| `TourListing.PriceDescendingOrder` | app/Http/Controllers/Api/V1/TourController.php:35-39 | with `sortBy=price&sortOrder=desc` prices never increase, and tours of equal price are ordered by starting date ascending |
| `TourListing.UnknownSlugIsNotFound` | routes/custom/travel.php:7 | the listing fails exactly when no travel has the slug, and the failure is a 404 |
| `TourListing.Index` | app/Http/Controllers/Api/V1/TourController.php:12-43 | `TourController::index`: the request fails exactly when no travel has the slug, and then with `NotFound` (404). Its other properties are stated by `UnknownSlugIsNotFound`, `ListedToursBelongToTheTravel`, `MatchingTourIsNeverDropped` and `FirstPageOfListing` |
| `TourListing.ListedToursBelongToTheTravel` | app/Http/Controllers/Api/V1/TourController.php:16-40 | for a known slug the request succeeds, and every tour on any page is a stored tour owned by the travel `TravelBySlug` resolves and satisfies every supplied bound |
| `TourListing.MatchingTourIsNeverDropped` | app/Http/Controllers/Api/V1/TourController.php:16-40 | every tour of the travel that satisfies every supplied bound appears on some page no later than the last page |
| `TourListing.FirstPageOfListing` | app/Http/Controllers/Api/V1/TourController.php:40 | page 1 holds min(perPage, total) tours, total is the number of matching tours, and the last page is `LastPage(total, perPage)` |
| `TourListing.PriceFromScenario` | tests/Feature/ToursListTest.php:110-136 | with tours of 200.00 and 100.00, `priceFrom=150` lists exactly the 200.00 tour |
| `TourListing.InclusiveBoundsScenario` | app/Http/Controllers/Api/V1/TourController.php:19-32 | a 10000-cent tour passes `priceFrom=100` and `priceTo=100`, and a date bound equal to its starting date passes too: every bound is inclusive |
| `Pagination.Paginate` | app/Http/Controllers/Api/V1/TourController.php:40 | `paginate()`: the requested page of the rows with its page number, page size, total and last page. No contract of its own; `FirstPageSize`, `PageBeyondLastIsEmpty`, `PagesBeforeLastAreFull`, `PagesPartition` and `EveryRowIsOnSomePage` state its properties |
| `Pagination.LastPage` | app/Http/Controllers/Api/V1/TourController.php:40 | the last page is the ceiling of total / perPage (the least page count covering all rows), and 1 for an empty listing |
| `Pagination.Slice` | app/Http/Controllers/Api/V1/TourController.php:40 | a page holds at most perPage rows: the rows from offset (page - 1) * perPage on, in order, as many as remain up to perPage, and none past the end |
| `Pagination.FirstPageSize` | app/Http/Controllers/Api/V1/TourController.php:40 | page 1 holds min(perPage, total) rows, and total <= lastPage * perPage < total + perPage for a non-empty listing |
| `Pagination.PageBeyondLastIsEmpty` | app/Http/Controllers/Api/V1/TourController.php:40 | a page past the last one is empty and still reports the full total |
| `Pagination.PagesBeforeLastAreFull` | app/Http/Controllers/Api/V1/TourController.php:40 | every page before the last holds exactly perPage rows |
| `Pagination.PagesArePrefix` | app/Http/Controllers/Api/V1/TourController.php:40 | pages 1..n together are the first n * perPage rows, or all of them |
| `Pagination.PagesPartition` | app/Http/Controllers/Api/V1/TourController.php:40 | pages 1..lastPage, concatenated in order, are exactly the ordered listing |
| `Pagination.RowOnItsPage` | app/Http/Controllers/Api/V1/TourController.php:40 | row i is on page i / perPage + 1 at position i % perPage, and that page is not past the last |
| `Pagination.EveryRowIsOnSomePage` | app/Http/Controllers/Api/V1/TourController.php:40 | every row of the listing is on some page no later than the last |
| `Authentication.FirstWithEmail` | app/Http/Controllers/Api/V1/Auth/LoginController.php:18 | the lookup finds nothing exactly when no user has the email; otherwise a stored user with that email |
| `Authentication.FirstWithEmailFindsTheOwner` | app/Http/Controllers/Api/V1/Auth/LoginController.php:18 | with unique emails the lookup finds the one user who owns the email |
| `Authentication.DeviceName` | app/Http/Controllers/Api/V1/Auth/LoginController.php:26 | the device name is a prefix of the User-Agent, at most 255 bytes long; it is empty when the header is missing, the whole header when it has at most 255 bytes, and exactly 255 bytes otherwise |
| `Authentication.Authenticate` | app/Http/Controllers/Api/V1/Auth/LoginController.php:18-26 | success only for a stored user with that email whose hash checks against the password, and it carries the device name of the request |
| `Authentication.SucceedsIffCredentialsMatch` | app/Http/Controllers/Api/V1/Auth/LoginController.php:18-20 | with unique emails, login succeeds exactly when some user has the email and the password checks against their hash |
| `Authentication.UnknownEmailIsRejected` | app/Http/Controllers/Api/V1/Auth/LoginController.php:18-23 | an email no user has gives the credentials error |
| `Authentication.WrongPasswordIsRejected` | app/Http/Controllers/Api/V1/Auth/LoginController.php:20-23 | a known email with a password that does not check gives the same credentials error |
| `Authentication.StatusFollowsCredentials` | app/Http/Controllers/Api/V1/Auth/LoginController.php:20-30 | the answer is 200 exactly when some user has the email and the password checks, and 422 otherwise |
| `Authentication.RejectionsAreIndistinguishable` | app/Http/Controllers/Api/V1/Auth/LoginController.php:20-23 | an unknown email and a wrong password give equal answers, both 422, whatever token id and secret would have been used |
| `Authentication.StatusCode` | app/Http/Controllers/Api/V1/Auth/LoginController.php:21-23 | 422 for the credentials error, 200 for an issued token. No contract of its own; `StatusFollowsCredentials` states when each is given |
| `Authentication.Respond` | app/Http/Controllers/Api/V1/Auth/LoginController.php:20-30 | the JSON answer: the credentials error on failure, the issued token on success. No contract of its own; `StatusFollowsCredentials` and `RejectionsAreIndistinguishable` state its properties |
| `Authentication.TokenStore.constructor` | app/Http/Controllers/Api/V1/Auth/LoginController.php:29 | a new token table is empty and satisfies the id invariant (ids 1, 2, … in insertion order) |
| `Authentication.TokenStore.CreateToken` | app/Http/Controllers/Api/V1/Auth/LoginController.php:29 | appends exactly one token with the next id, bound to the user and the name, keeps ids sequential, and returns that id with the secret; the id is held by no earlier token |
| `Authentication.TokenStore.Login` | app/Http/Controllers/Api/V1/Auth/LoginController.php:16-31 | the answer is the response to the credential decision; a rejection leaves the token table unchanged; a success appends exactly one token bound to the found user and the device name |
| `AdminRoutes.RouteOf` | routes/custom/admin.php:5-14 | each admin endpoint has its declared route in the table |
| `AdminRoutes.RunGuards` | routes/custom/admin.php:6-8 | a middleware stack allows exactly when the caller passes every guard; otherwise the first failing guard decides (401 for authentication, 403 for a role) |
| `AdminRoutes.Gate` | routes/custom/admin.php:5-14 | the decision for an endpoint: its route's middleware stack run against the caller. No contract of its own; `GateDecision` gives it in closed form |
| `AdminRoutes.GateDecision` | routes/custom/admin.php:5-14 | the gate is 401 without authentication, then 403 on the two POST routes without role `admin`, and Allow otherwise |
| `AdminRoutes.UnauthenticatedIsAlways401` | routes/custom/admin.php:6 | every admin route refuses an unauthenticated caller with 401 and never 403, whatever roles are claimed |
| `AdminRoutes.NonAdminIsForbiddenToCreate` | routes/custom/admin.php:8-11 | an authenticated caller without role `admin` (an editor, say) gets 403 on both POST routes |
| `AdminRoutes.AdminIsAllowedEverywhere` | routes/custom/admin.php:8-13 | an authenticated caller with role `admin` is allowed on every admin route |
| `AdminRoutes.UpdateNeedsOnlyAuthentication` | routes/custom/admin.php:13 | the PUT route allows any authenticated caller, whatever their roles |
| `AdminRoutes.MoreRolesNeverRefuse` | routes/custom/admin.php:6-13 | for any middleware stack, adding roles never turns Allow into a refusal |
| `AdminRoutes.GateIsMonotoneInRoles` | routes/custom/admin.php:6-13 | for each admin endpoint, adding roles never turns Allow into a refusal |

## Left out

- Request validation: `ToursListRequest` and `LoginRequest` are not part of this model. Parameters arrive already parsed, and the 422 validation answers for unparseable prices or dates are not modelled. `Param` keeps the raw text only so that the truthiness test can be decided.
- `resolveColumnAlias` is not part of this model. It is taken to map the sort key `price` to `price_in_cents`.
- Floating point: `priceFrom * 100` is computed in exact reals. PHP's IEEE rounding for fractional prices is not modelled.
- Dates are abstract ordered integers. Date parsing, time zones and date-versus-datetime comparison in the database are not modelled.
- MatchingTourIsNeverDropped and PagesPartition, read across page requests, assume that tied rows come back in one consistent order. Rows equal on every ORDER BY key (price when sorted by price, and `starting_date`) are left in an order the database does not specify. Each page is a separate `ORDER BY … LIMIT/OFFSET` query, and SQL does not promise the same order of tied rows across such queries. With two tied tours and `perPage` 1, both pages could return the same tour. `Index` computes one listing and slices it, so it has one order for every page. `AnyDatabaseOrderIsTheListing` shows that when no two different matching tours tie, every order the database may choose is the model's listing, so the assumption holds then. With ties, which tour a page holds is not modelled.
- Pagination configuration: the page size (`perPage`) and the page number are parameters. The page number stands for the value the framework resolves from the `page` query parameter. The navigation links of the response envelope are not modelled.
- `TourResource` and its display of cents as a decimal string are not part of this model, and neither is the `Accept` header set at line 14.
- `Hash::check` is a function parameter (`HashCheck`).
- The random token secret is a parameter of `Login`. Sanctum stores a hash of the secret and returns the text `"<id>|<secret>"`; the model stores the secret itself and returns the id and the secret as a pair. `PersonalAccessToken` also omits the abilities (`['*']`) that `createToken` stores with each token, and its timestamps.
- The email lookup (`FirstWithEmail`) and the slug binding (`TravelBySlug`, `where slug = ?`) are exact string equality. A case-insensitive database collation is not modelled.
- `RoleMiddleware` is not part of this model. `role:admin` is taken to pass exactly when the user has a role named `admin`, and to answer 403 otherwise.
- Route matching on method and path is not modelled. The gate takes the endpoint directly.
- Travel listing, the admin travel and tour controllers and their field validation are not part of this model.
- Concurrency: each request is modelled as one step over the stored state.
